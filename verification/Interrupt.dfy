/** interrupt.cc: simulated time and the list of hardware interrupts scheduled to occur. */
module Interrupts {
  import opened ThreadList

  datatype IntStatus = IntOff | IntOn
  datatype MachineStatus = IdleMode | SystemMode | UserMode
  datatype IntType = TimerInt | DiskInt | ConsoleWriteInt | ConsoleReadInt | NetworkSendInt | NetworkRecvInt

  const USER_TICK := 1
  const SYSTEM_TICK := 10

  datatype PendingInterrupt = PendingInterrupt(handler: int, arg: int, when: int, kind: IntType)

  /** A call of Schedule. */
  datatype Request = Request(handler: int, arg: int, fromNow: int, kind: IntType)

  /** What a handler does as far as this module can tell: the interrupts it schedules, and whether
      it asks for a context switch.  Schedule asserts that fromNow is positive. */
  datatype Effect = Effect(schedules: seq<Request>, wantsYield: bool)

  ghost predicate Proper(e: Effect) {
    forall k :: 0 <= k < |e.schedules| ==> e.schedules[k].fromNow > 0
  }

  /** One of the handlers run by deliveries lo..hi asked for a context switch. */
  ghost predicate Asked(effects: nat -> Effect, lo: nat, hi: int) {
    lo < hi && (effects(hi - 1).wantsYield || Asked(effects, lo, hi - 1))
  }

  lemma AskedStep(effects: nat -> Effect, lo: nat, hi: nat)
    requires lo <= hi
    ensures Asked(effects, lo, hi + 1) == (Asked(effects, lo, hi) || effects(hi).wantsYield)
  {
  }

  /** An interrupt in the list, under the time it is scheduled for. */
  type Item = Entry<PendingInterrupt>
  type Pending = seq<Item>

  function ItemOf(r: Request, now: int): Item {
    (PendingInterrupt(r.handler, r.arg, now + r.fromNow, r.kind), now + r.fromNow)
  }

  // ---- scheduling -------------------------------------------------------------------------------

  ghost function ItemsOf(rs: seq<Request>, k: nat, now: int): Pending
    requires k <= |rs|
  {
    if k == 0 then [] else ItemsOf(rs, k - 1, now) + [ItemOf(rs[k - 1], now)]
  }

  /** What a handler schedules. */
  ghost function MadeBy(e: Effect, now: int): Pending {
    ItemsOf(e.schedules, |e.schedules|, now)
  }

  /** What the handlers of deliveries lo..hi schedule. */
  ghost function Made(effects: nat -> Effect, lo: nat, hi: int, now: int): Pending {
    if hi <= lo then [] else Made(effects, lo, hi - 1, now) + MadeBy(effects(hi - 1), now)
  }

  ghost function MadeCount(effects: nat -> Effect, lo: nat, hi: int): nat {
    if hi <= lo then 0 else MadeCount(effects, lo, hi - 1) + |effects(hi - 1).schedules|
  }

  /** The interrupts in a list, whatever their order. */
  ghost function Bag(s: Pending): multiset<Item> {
    if s == [] then multiset{} else Bag(s[1..]) + multiset{s[0]}
  }

  lemma {:induction false} BagIsMultiset(s: Pending)
    ensures Bag(s) == multiset(s)
  {
    if s != [] {
      BagIsMultiset(s[1..]);
      assert s == [s[0]] + s[1..];
    }
  }

  lemma {:induction false} BagAppend(s: Pending, x: Item)
    ensures Bag(s + [x]) == Bag(s) + multiset{x}
  {
    if s != [] {
      assert (s + [x])[1..] == s[1..] + [x];
      BagAppend(s[1..], x);
    } else {
      assert (s + [x])[1..] == [];
    }
  }

  lemma {:induction false} InsertedCounts(s: Pending, x: Item)
    ensures Bag(InsertByKey(s, x)) == Bag(s) + multiset{x} && |InsertByKey(s, x)| == |s| + 1
  {
    if s == [] || x.1 < s[0].1 {
      assert ([x] + s)[1..] == s;
    } else {
      InsertedCounts(s[1..], x);
      assert ([s[0]] + InsertByKey(s[1..], x))[1..] == InsertByKey(s[1..], x);
    }
  }

  lemma {:induction false} InsertedIn(s: Pending, x: Item)
    ensures x in InsertByKey(s, x)
  {
    if s != [] && x.1 >= s[0].1 {
      InsertedIn(s[1..], x);
    }
  }

  // ---- due interrupts ---------------------------------------------------------------------------

  /** The interrupts at the front of the list whose time has come. */
  ghost function DueOf(s: Pending, now: int): (d: Pending)
    ensures |d| <= |s| && d == s[..|d|]
  {
    if s == [] || s[0].1 > now then [] else [s[0]] + DueOf(s[1..], now)
  }

  /** In a sorted list that is every interrupt whose time has come. */
  lemma {:induction false} DueIsAll(s: Pending, now: int, x: Item)
    requires SortedByKey(s) && x in s
    ensures x in DueOf(s, now) <==> x.1 <= now
  {
    if s[0].1 > now {
      var i :| 0 <= i < |s| && s[i] == x;
      assert s[0].1 <= s[i].1;
    } else if x != s[0] {
      DueIsAll(s[1..], now, x);
    }
  }

  /** Scheduling something strictly later makes nothing more due. */
  lemma {:induction false} InsertLater(s: Pending, x: Item, now: int)
    requires x.1 > now
    ensures DueOf(InsertByKey(s, x), now) == DueOf(s, now)
  {
    if s != [] && x.1 >= s[0].1 {
      InsertLater(s[1..], x, now);
      assert ([s[0]] + InsertByKey(s[1..], x))[1..] == InsertByKey(s[1..], x);
    }
  }

  /** Everything still due is in the list, so when all of it is due the last one out is alone unless a
      handler has scheduled something meanwhile: the case in which an idle machine does not deliver a timer
      interrupt. */
  ghost predicate LoneTimer(s: Pending, now: int, effects: nat -> Effect, lo: nat) {
    var d := DueOf(s, now);
    d != [] && |d| == |s| && d[|d| - 1].0.kind == TimerInt && MadeCount(effects, lo, lo + |d| - 1) == 0
  }

  /** How many interrupts are delivered at time `now`: all that are due, except an idle machine's last
      timer interrupt. */
  ghost function Deliveries(s: Pending, now: int, idle: bool, effects: nat -> Effect, lo: nat): nat {
    if idle && LoneTimer(s, now, effects, lo) then |DueOf(s, now)| - 1 else |DueOf(s, now)|
  }

  // ---- putting back -----------------------------------------------------------------------------

  /** Putting back the earliest interrupt: it may land behind others due at the same time, but the
      list holds the same interrupts. */
  lemma PutBack(s: Pending)
    requires SortedByKey(s) && s != []
    ensures var t := InsertByKey(s[1..], s[0]);
      SortedByKey(t) && Bag(t) == Bag(s) && |t| == |s| && t[0].1 == s[0].1
  {
    var x, r := s[0], s[1..];
    assert s == [x] + r;
    assert forall k :: 0 <= k < |r| ==> x.1 <= r[k].1;
    var p := InsertKeepsSorted(r, x);
    InsertedCounts(r, x);
    FrontKey(r, x, p, InsertByKey(r, x));
  }

  lemma FrontKey(r: Pending, x: Item, p: int, t: Pending)
    requires 0 <= p <= |r| && t == r[..p] + [x] + r[p..]
    requires forall k :: 0 <= k < |r| ==> x.1 <= r[k].1
    requires forall k :: 0 <= k < p ==> r[k].1 <= x.1
    ensures t[0].1 == x.1
  {
    if p > 0 {
      assert t[0] == r[0];
    }
  }

  // ---- the ledger -------------------------------------------------------------------------------

  /** The pending interrupts; those delivered so far, in order, and when each was; everything scheduled. */
  datatype Book = Book(pending: Pending, delivered: Pending, times: seq<int>, scheduled: Pending)

  /** Interrupts were delivered in order of their times, none before its time. */
  ghost predicate InOrder(log: Pending, times: seq<int>, now: int) {
    && |times| == |log|
    && (forall k :: 0 <= k < |log| ==> log[k].1 <= times[k] <= now)
    && (forall j, k :: 0 <= j < k < |log| ==> log[j].1 <= log[k].1 && times[j] <= times[k])
  }

  /** Each interrupt is listed under its own time. */
  ghost predicate TimesAgree(s: Pending) {
    forall k :: 0 <= k < |s| ==> s[k].0.when == s[k].1
  }

  /** The list is in order of time, deliveries came in order and none early, and every interrupt ever
      scheduled has been delivered or is still pending, once. */
  ghost predicate Sound(b: Book, now: int) {
    && SortedByKey(b.pending) && TimesAgree(b.pending) && InOrder(b.delivered, b.times, now)
    && (b.delivered != [] && b.pending != [] ==> b.delivered[|b.delivered| - 1].1 <= b.pending[0].1)
    && Bag(b.scheduled) == Bag(b.pending) + Bag(b.delivered)
  }

  /** Conservation: what was ever scheduled is what is pending and what was delivered. */
  lemma NothingLost(b: Book, now: int)
    requires Sound(b, now)
    ensures multiset(b.scheduled) == multiset(b.pending) + multiset(b.delivered)
  {
    BagIsMultiset(b.scheduled);
    BagIsMultiset(b.pending);
    BagIsMultiset(b.delivered);
  }

  /** An interrupt delivered for a request has the request's handler and argument, and came no earlier than `fromNow`
      ticks after the call of Schedule, at time t. */
  lemma DeliveredAsAsked(b: Book, now: int, r: Request, t: int, i: nat)
    requires Sound(b, now) && i < |b.delivered| && b.delivered[i] == ItemOf(r, t)
    ensures b.delivered[i].0.handler == r.handler && b.delivered[i].0.arg == r.arg && b.delivered[i].0.kind == r.kind
    ensures b.times[i] >= t + r.fromNow
  {
  }

  /** One call of Schedule. */
  ghost function ScheduledOn(b: Book, x: Item): Book {
    b.(pending := InsertByKey(b.pending, x), scheduled := b.scheduled + [x])
  }

  ghost function HandledOn(b: Book, e: Effect, k: nat, now: int): Book
    requires k <= |e.schedules|
  {
    if k == 0 then b else ScheduledOn(HandledOn(b, e, k - 1, now), ItemOf(e.schedules[k - 1], now))
  }

  /** The first interrupt taken off and delivered. */
  ghost function TakenOn(b: Book, now: int): Book
    requires b.pending != []
  {
    Book(b.pending[1..], b.delivered + [b.pending[0]], b.times + [now], b.scheduled)
  }

  /** Delivered, and its handler run. */
  ghost function FiredOn(b: Book, e: Effect, now: int): Book
    requires b.pending != []
  {
    HandledOn(TakenOn(b, now), e, |e.schedules|, now)
  }

  ghost function PutBackOn(b: Book): Book {
    if b.pending == [] then b else b.(pending := InsertByKey(b.pending[1..], b.pending[0]))
  }

  lemma ScheduleKeeps(b: Book, now: int, x: Item)
    requires Sound(b, now) && x.1 >= now && x.0.when == x.1
    ensures Sound(ScheduledOn(b, x), now)
  {
    var p := InsertKeepsSorted(b.pending, x);
    InsertedCounts(b.pending, x);
    BagAppend(b.scheduled, x);
    EntryKeeps(b, b.pending, now, x, p, InsertByKey(b.pending, x), b.scheduled + [x]);
  }

  /** An interrupt entered in the rest of the list where it belongs; the rest is all of it, or all but that
      one. */
  lemma EntryKeeps(b: Book, rest: Pending, now: int, x: Item, p: int, t: Pending, scheduled: Pending)
    requires Sound(b, now) && x.0.when == x.1 && 0 <= p <= |rest| && t == rest[..p] + [x] + rest[p..]
    requires SortedByKey(t) && TimesAgree(rest) && Bag(scheduled) == Bag(t) + Bag(b.delivered)
    requires b.delivered != [] ==> b.delivered[|b.delivered| - 1].1 <= x.1
    requires b.delivered != [] && rest != [] ==> b.delivered[|b.delivered| - 1].1 <= rest[0].1
    ensures Sound(Book(t, b.delivered, b.times, scheduled), now)
  {
    InsertedAgrees(rest, x, p);
    FirstOf(rest, x, p);
  }

  lemma FirstOf(rest: Pending, x: Item, p: int)
    requires 0 <= p <= |rest|
    ensures (rest[..p] + [x] + rest[p..])[0] == if p == 0 then x else rest[0]
  {
  }

  lemma InsertedAgrees(s: Pending, x: Item, p: int)
    requires TimesAgree(s) && x.0.when == x.1 && 0 <= p <= |s|
    ensures TimesAgree(s[..p] + [x] + s[p..])
  {
  }

  /** A handler keeps the books, adds its own interrupts and makes nothing more due. */
  lemma {:induction false} HandleKeeps(b: Book, e: Effect, k: nat, now: int)
    requires Sound(b, now) && Proper(e) && k <= |e.schedules|
    ensures var b' := HandledOn(b, e, k, now);
      && Sound(b', now) && b'.delivered == b.delivered && b'.times == b.times
      && DueOf(b'.pending, now) == DueOf(b.pending, now) && |b'.pending| == |b.pending| + k
  {
    if k > 0 {
      HandleKeeps(b, e, k - 1, now);
      HandleStep(HandledOn(b, e, k - 1, now), e.schedules[k - 1], now);
    }
  }

  lemma {:induction false} HandleMakes(b: Book, e: Effect, k: nat, now: int)
    requires k <= |e.schedules|
    ensures HandledOn(b, e, k, now).scheduled == b.scheduled + ItemsOf(e.schedules, k, now)
  {
    if k > 0 {
      HandleMakes(b, e, k - 1, now);
    }
  }

  lemma HandleStep(b: Book, r: Request, now: int)
    requires Sound(b, now) && r.fromNow > 0
    ensures var b' := ScheduledOn(b, ItemOf(r, now));
      Sound(b', now) && DueOf(b'.pending, now) == DueOf(b.pending, now) && |b'.pending| == |b.pending| + 1
  {
    ScheduleKeeps(b, now, ItemOf(r, now));
    InsertLater(b.pending, ItemOf(r, now), now);
    InsertedCounts(b.pending, ItemOf(r, now));
  }

  lemma TakeKeeps(b: Book, now: int)
    requires Sound(b, now) && b.pending != [] && b.pending[0].1 <= now
    ensures Sound(TakenOn(b, now), now)
  {
    BagAppend(b.delivered, b.pending[0]);
    LogGrows(b.delivered, b.times, now, b.pending[0]);
  }

  lemma LogGrows(delivered: Pending, times: seq<int>, now: int, x: Item)
    requires InOrder(delivered, times, now) && x.1 <= now && (delivered != [] ==> delivered[|delivered| - 1].1 <= x.1)
    ensures InOrder(delivered + [x], times + [now], now)
  {
  }

  /** Firing delivers the first due interrupt and leaves the others due. */
  lemma FireKeeps(b: Book, e: Effect, now: int)
    requires Sound(b, now) && Proper(e) && b.pending != [] && b.pending[0].1 <= now
    ensures var b' := FiredOn(b, e, now);
      && Sound(b', now) && b'.delivered == b.delivered + [b.pending[0]] && b'.times == b.times + [now]
      && b'.scheduled == b.scheduled + MadeBy(e, now)
      && DueOf(b.pending, now) == [b.pending[0]] + DueOf(b'.pending, now)
      && |b'.pending| == |b.pending| - 1 + |e.schedules|
  {
    TakeKeeps(b, now);
    HandleKeeps(TakenOn(b, now), e, |e.schedules|, now);
    HandleMakes(TakenOn(b, now), e, |e.schedules|, now);
  }

  lemma PutBackKeeps(b: Book, now: int)
    requires Sound(b, now) && b.pending != []
    ensures var b' := PutBackOn(b);
      Sound(b', now) && |b'.pending| == |b.pending| && b'.pending[0].1 == b.pending[0].1
  {
    PutBack(b.pending);
    var x, rest := b.pending[0], b.pending[1..];
    var p := InsertKeepsSorted(rest, x);
    EntryKeeps(b, rest, now, x, p, InsertByKey(rest, x), b.scheduled);
  }

  lemma AgeKeeps(b: Book, now: int, now': int)
    requires Sound(b, now) && now <= now'
    ensures Sound(b, now')
  {
  }

  // ---- delivering what is due -------------------------------------------------------------------

  /** How far the delivery of what was due in b0 has come: the first n - lo have been delivered, the others
      are still due, and all that was not due or has been scheduled since is pending. */
  ghost predicate Delivering(b0: Book, b: Book, now: int, idle: bool, effects: nat -> Effect, lo: nat, n: int) {
    var d := DueOf(b0.pending, now);
    && FrontDelivered(b0, b, now, n - lo) && RestKept(b0, b, now, effects, lo, n)
    && (n - lo == |d| ==> !(idle && LoneTimer(b0.pending, now, effects, lo)))
  }

  /** The first k due interrupts have been delivered, now, and logged after all others. */
  ghost predicate FrontDelivered(b0: Book, b: Book, now: int, k: int) {
    var d := DueOf(b0.pending, now);
    && 0 <= k <= |d| && b.delivered == b0.delivered + d[..k] && DueOf(b.pending, now) == d[k..]
    && b.times == b0.times + seq(k, _ => now)
  }

  /** What the handlers of deliveries lo..n scheduled was added, and nothing else came or went. */
  ghost predicate RestKept(b0: Book, b: Book, now: int, effects: nat -> Effect, lo: nat, n: int) {
    b.scheduled == b0.scheduled + Made(effects, lo, n, now) && |b.pending| == |b0.pending| - (n - lo) + MadeCount(effects, lo, n)
  }

  ghost predicate FiresAt(b: Book, now: int, idle: bool) {
    b.pending != [] && b.pending[0].1 <= now && !(idle && b.pending[0].0.kind == TimerInt && |b.pending| == 1)
  }

  /** Handlers schedule strictly later, so a delivery leaves one fewer due. */
  lemma FiringCounts(b: Book, e: Effect, now: int)
    requires Proper(e)
    ensures b.pending != [] && b.pending[0].1 <= now ==> |DueOf(FiredOn(b, e, now).pending, now)| == |DueOf(b.pending, now)| - 1
  {
    if b.pending != [] {
      HandlerLater(TakenOn(b, now), e, |e.schedules|, now);
    }
  }

  lemma {:induction false} HandlerLater(b: Book, e: Effect, k: nat, now: int)
    requires Proper(e) && k <= |e.schedules|
    ensures DueOf(HandledOn(b, e, k, now).pending, now) == DueOf(b.pending, now)
  {
    if k > 0 {
      HandlerLater(b, e, k - 1, now);
      InsertLater(HandledOn(b, e, k - 1, now).pending, ItemOf(e.schedules[k - 1], now), now);
    }
  }

  /** Fire as long as something fires; the books then, and the number of the next delivery. */
  ghost function AllDelivered(b: Book, now: int, idle: bool, effects: nat -> Effect, n: nat): (Book, nat)
    requires forall k :: Proper(effects(k))
    decreases |DueOf(b.pending, now)|
  {
    FiringCounts(b, effects(n), now);
    if FiresAt(b, now, idle) then AllDelivered(FiredOn(b, effects(n), now), now, idle, effects, n + 1) else (PutBackOn(b), n)
  }

  /** Nothing is left that would fire: no interrupt is due, except that an idle machine may leave the one
      remaining timer interrupt. */
  lemma NothingFires(b: Book, now: int, idle: bool)
    ensures !FiresAt(b, now, idle) <==>
      DueOf(b.pending, now) == [] || (idle && |b.pending| == 1 && b.pending[0].0.kind == TimerInt)
  {
  }

  lemma StartsDelivering(b: Book, now: int, idle: bool, effects: nat -> Effect, lo: nat)
    ensures Delivering(b, b, now, idle, effects, lo, lo)
  {
  }

  lemma StillDelivering(b0: Book, b: Book, now: int, idle: bool, effects: nat -> Effect, lo: nat, n: nat)
    requires Delivering(b0, b, now, idle, effects, lo, n) && Sound(b, now) && FiresAt(b, now, idle) && Proper(effects(n))
    ensures Sound(FiredOn(b, effects(n), now), now)
    ensures Delivering(b0, FiredOn(b, effects(n), now), now, idle, effects, lo, n + 1)
  {
    FireKeeps(b, effects(n), now);
    OneDelivered(b0, b, FiredOn(b, effects(n), now), now, idle, effects, lo, n);
  }

  lemma OneDelivered(b0: Book, b: Book, b': Book, now: int, idle: bool, effects: nat -> Effect, lo: nat, n: nat)
    requires Delivering(b0, b, now, idle, effects, lo, n) && FiresAt(b, now, idle)
    requires b'.delivered == b.delivered + [b.pending[0]] && b'.times == b.times + [now]
    requires b'.scheduled == b.scheduled + MadeBy(effects(n), now)
    requires DueOf(b.pending, now) == [b.pending[0]] + DueOf(b'.pending, now)
    requires |b'.pending| == |b.pending| - 1 + |effects(n).schedules|
    ensures Delivering(b0, b', now, idle, effects, lo, n + 1)
  {
    FrontAdvances(b0, b, b', now, n - lo);
    RestAdvances(b0, b, b', now, effects, lo, n);
    LastIsNotLone(b0, b, now, idle, effects, lo, n);
  }

  lemma FrontAdvances(b0: Book, b: Book, b': Book, now: int, k: nat)
    requires FrontDelivered(b0, b, now, k) && b.pending != []
    requires b'.delivered == b.delivered + [b.pending[0]] && b'.times == b.times + [now]
    requires DueOf(b.pending, now) == [b.pending[0]] + DueOf(b'.pending, now)
    ensures FrontDelivered(b0, b', now, k + 1)
  {
    NextDue(DueOf(b0.pending, now), k, b0.delivered, b.pending[0], DueOf(b'.pending, now));
    assert seq(k + 1, _ => now) == seq(k, _ => now) + [now];
  }

  lemma RestAdvances(b0: Book, b: Book, b': Book, now: int, effects: nat -> Effect, lo: nat, n: nat)
    requires lo <= n && RestKept(b0, b, now, effects, lo, n) && b'.scheduled == b.scheduled + MadeBy(effects(n), now)
    requires |b'.pending| == |b.pending| - 1 + |effects(n).schedules|
    ensures RestKept(b0, b', now, effects, lo, n + 1)
  {
  }

  lemma NextDue(d: Pending, k: int, log: Pending, x: Item, rest: Pending)
    requires 0 <= k <= |d| && d[k..] == [x] + rest
    ensures k < |d| && d[k + 1..] == rest && (log + d[..k]) + [x] == log + d[..k + 1]
  {
    assert d[k] == d[k..][0];
    assert d[k + 1..] == d[k..][1..];
    assert d[..k + 1] == d[..k] + [d[k]];
  }

  lemma LastIsNotLone(b0: Book, b: Book, now: int, idle: bool, effects: nat -> Effect, lo: nat, n: nat)
    requires Delivering(b0, b, now, idle, effects, lo, n) && FiresAt(b, now, idle)
    ensures n + 1 - lo == |DueOf(b0.pending, now)| ==> !(idle && LoneTimer(b0.pending, now, effects, lo))
  {
    var d := DueOf(b0.pending, now);
    if n + 1 - lo == |d| {
      assert d[n - lo..][0] == d[n - lo] == b.pending[0];
    }
  }

  /** Putting back what does not fire changes nothing of this. */
  lemma StopsDelivering(b0: Book, b: Book, now: int, idle: bool, effects: nat -> Effect, lo: nat, n: nat)
    requires Delivering(b0, b, now, idle, effects, lo, n) && Sound(b, now) && !FiresAt(b, now, idle)
    ensures var b' := PutBackOn(b);
      Sound(b', now) && !FiresAt(b', now, idle) && Delivering(b0, b', now, idle, effects, lo, n)
  {
    if b.pending != [] {
      PutBackKeeps(b, now);
      assert |b.pending| == 1 ==> PutBackOn(b).pending == b.pending;
      assert DueOf(PutBackOn(b).pending, now) == DueOf(b.pending, now);
    }
  }

  /** When nothing more fires, exactly the promised number has been delivered. */
  lemma DoneDelivering(b0: Book, b: Book, now: int, idle: bool, effects: nat -> Effect, lo: nat, n: nat)
    requires Delivering(b0, b, now, idle, effects, lo, n) && !FiresAt(b, now, idle)
    ensures n - lo == Deliveries(b0.pending, now, idle, effects, lo)
  {
    var d := DueOf(b0.pending, now);
    if n - lo < |d| {
      assert d[n - lo..] == b.pending;
    }
  }

  /** Delivering all that fires delivers exactly what was due, in order, and loses and invents nothing. */
  lemma {:induction false} AllDeliveredIs(b0: Book, b: Book, now: int, idle: bool, effects: nat -> Effect, lo: nat, n: nat)
    requires forall k :: Proper(effects(k))
    requires Sound(b, now) && Delivering(b0, b, now, idle, effects, lo, n)
    ensures var (b', n') := AllDelivered(b, now, idle, effects, n);
      Sound(b', now) && !FiresAt(b', now, idle) && Delivering(b0, b', now, idle, effects, lo, n')
    decreases |DueOf(b.pending, now)|
  {
    if FiresAt(b, now, idle) {
      StillDelivering(b0, b, now, idle, effects, lo, n);
      FiringCounts(b, effects(n), now);
      AllDeliveredIs(b0, FiredOn(b, effects(n), now), now, idle, effects, lo, n + 1);
    } else {
      StopsDelivering(b0, b, now, idle, effects, lo, n);
    }
  }

  /** The books when the clock shows `now` and nothing more fires: exactly what had become due was delivered,
      in order, up to an idle machine's last timer interrupt, and the rest is kept. */
  ghost predicate CaughtUp(b0: Book, b: Book, now: int, idle: bool, effects: nat -> Effect, lo: nat, n: int) {
    && Sound(b, now) && !FiresAt(b, now, idle) && Delivering(b0, b, now, idle, effects, lo, n)
    && n == lo + Deliveries(b0.pending, now, idle, effects, lo)
  }

  lemma DeliveredExactly(b: Book, now: int, idle: bool, effects: nat -> Effect, lo: nat)
    requires Sound(b, now) && forall k :: Proper(effects(k))
    ensures var (b', n) := AllDelivered(b, now, idle, effects, lo); CaughtUp(b, b', now, idle, effects, lo, n)
  {
    StartsDelivering(b, now, idle, effects, lo);
    AllDeliveredIs(b, b, now, idle, effects, lo, lo);
    var (b', n) := AllDelivered(b, now, idle, effects, lo);
    DoneDelivering(b, b', now, idle, effects, lo, n);
  }

  /** Idle's jump: the first interrupt fires at the time the clock is advanced to, then all others due. */
  lemma FirstFired(b: Book, was: int, now: int, effects: nat -> Effect, lo: nat)
    requires Sound(b, was) && was <= now && FiresAt(b, now, true) && forall k :: Proper(effects(k))
    ensures var (b', n) := AllDelivered(FiredOn(b, effects(lo), now), now, true, effects, lo + 1);
      CaughtUp(b, b', now, true, effects, lo, n) && n > lo
  {
    AgeKeeps(b, was, now);
    DeliveredExactly(b, now, true, effects, lo);
    FireKeeps(b, effects(lo), now);
    MoreThanOne(b, now, effects, lo);
  }

  lemma MoreThanOne(b: Book, now: int, effects: nat -> Effect, lo: nat)
    requires FiresAt(b, now, true)
    ensures Deliveries(b.pending, now, true, effects, lo) >= 1
  {
  }

  lemma NoneFired(b: Book, was: int, now: int, effects: nat -> Effect, lo: nat)
    requires Sound(b, was) && was <= now && !FiresAt(b, now, true) && forall k :: Proper(effects(k))
    ensures CaughtUp(b, PutBackOn(b), now, true, effects, lo, lo)
  {
    AgeKeeps(b, was, now);
    DeliveredExactly(b, now, true, effects, lo);
  }

  lemma JumpIs(b: Book, b': Book, was: int, now: int, effects: nat -> Effect, lo: nat, n: nat)
    requires Sound(b, was) && forall k :: Proper(effects(k))
    requires now == if b.pending != [] && b.pending[0].1 > was then b.pending[0].1 else was
    requires (b', n) == if FiresAt(b, now, true) then AllDelivered(FiredOn(b, effects(lo), now), now, true, effects, lo + 1)
                        else (PutBackOn(b), lo)
    ensures CaughtUp(b, b', now, true, effects, lo, n) && (FiresAt(b, now, true) ==> n > lo)
  {
    if FiresAt(b, now, true) {
      FirstFired(b, was, now, effects, lo);
    } else {
      NoneFired(b, was, now, effects, lo);
    }
  }

  lemma TickIs(b: Book, b': Book, was: int, now: int, idle: bool, effects: nat -> Effect, lo: nat, n: nat)
    requires Sound(b, was) && was <= now && forall k :: Proper(effects(k))
    requires (b', n) == AllDelivered(b, now, idle, effects, lo)
    ensures CaughtUp(b, b', now, idle, effects, lo, n)
  {
    AgeKeeps(b, was, now);
    DeliveredExactly(b, now, idle, effects, lo);
  }

  lemma EmptyIsSound(now: int)
    ensures Sound(Book([], [], [], []), now)
  {
  }

  class Interrupt {
    var level: IntStatus
    var pending: Pending
    var inHandler: bool
    var yieldOnReturn: bool
    var status: MachineStatus
    var totalTicks: int
    var idleTicks: int
    var systemTicks: int
    var userTicks: int
    ghost var delivered: Pending
    ghost var times: seq<int>
    ghost var scheduled: Pending

    ghost function Books(): Book
      reads this
    {
      Book(pending, delivered, times, scheduled)
    }

    ghost predicate TicksAddUp()
      reads this
    {
      totalTicks == idleTicks + systemTicks + userTicks
    }

    ghost predicate Valid()
      reads this
    {
      TicksAddUp() && Sound(Books(), totalTicks)
    }

    constructor ()
      ensures Valid() && Books() == Book([], [], [], []) && totalTicks == 0
      ensures level == IntOff && status == SystemMode && !inHandler && !yieldOnReturn
    {
      level, pending, inHandler, yieldOnReturn, status := IntOff, [], false, false, SystemMode;
      totalTicks, idleTicks, systemTicks, userTicks := 0, 0, 0, 0;
      delivered, times, scheduled := [], [], [];
      EmptyIsSound(0);
    }

    /** Enter an interrupt.  It keeps the books, by ScheduleKeeps. */
    method Schedule(r: Request)
      requires r.fromNow > 0
      modifies this`pending, this`scheduled
      ensures Books() == ScheduledOn(old(Books()), ItemOf(r, totalTicks))
      ensures (PendingInterrupt(r.handler, r.arg, totalTicks + r.fromNow, r.kind), totalTicks + r.fromNow) in pending
    {
      var when := totalTicks + r.fromNow;
      var toOccur := PendingInterrupt(r.handler, r.arg, when, r.kind);
      InsertedIn(pending, (toOccur, when));
      pending := InsertByKey(pending, (toOccur, when));
      scheduled := scheduled + [(toOccur, when)];
    }

    /** Run a handler: interrupts off, whatever the machine was doing set aside and restored. */
    method RunHandler(e: Effect)
      requires Proper(e)
      modifies this`pending, this`scheduled, this`inHandler, this`yieldOnReturn, this`status
      ensures Books() == HandledOn(old(Books()), e, |e.schedules|, totalTicks)
      ensures status == old(status) && !inHandler && yieldOnReturn == (old(yieldOnReturn) || e.wantsYield)
    {
      var was := status;
      inHandler, status := true, SystemMode;
      ScheduleAll(e);
      yieldOnReturn := yieldOnReturn || e.wantsYield;
      status, inHandler := was, false;
    }

    method ScheduleAll(e: Effect)
      requires Proper(e)
      modifies this`pending, this`scheduled
      ensures Books() == HandledOn(old(Books()), e, |e.schedules|, totalTicks)
    {
      for k := 0 to |e.schedules|
        invariant Books() == HandledOn(old(Books()), e, k, totalTicks)
      {
        Schedule(e.schedules[k]);
      }
    }

    /** Whether CheckIfDue fires a handler. */
    predicate Fires(advanceClock: bool)
      reads this
    {
      && pending != [] && (advanceClock || pending[0].1 <= totalTicks)
      && !(status == IdleMode && pending[0].0.kind == TimerInt && |pending| == 1)
    }

    /** Fire the earliest interrupt if its time has come, or if the clock may be advanced to it.  The
        last remaining timer interrupt does not count when the machine is idle.  What does not fire is put
        back, maybe behind others of the same time. */
    method CheckIfDue(advanceClock: bool, e: Effect) returns (fired: bool)
      requires level == IntOff && Proper(e) && TicksAddUp()
      modifies this`pending, this`scheduled, this`delivered, this`times, this`inHandler, this`yieldOnReturn, this`status,
        this`totalTicks, this`idleTicks
      ensures fired == old(Fires(advanceClock))
      ensures Books() == if fired then FiredOn(old(Books()), e, totalTicks) else PutBackOn(old(Books()))
      ensures totalTicks == if advanceClock && old(pending) != [] && old(pending)[0].1 > old(totalTicks)
                            then old(pending)[0].1 else old(totalTicks)
      ensures TicksAddUp() && status == old(status) && yieldOnReturn == (old(yieldOnReturn) || (fired && e.wantsYield))
    {
      if pending == [] {
        return false;
      }
      var (toOccur, when) := pending[0];
      var rest := pending[1..];
      if advanceClock && when > totalTicks {
        idleTicks := idleTicks + (when - totalTicks);
        totalTicks := when;
      } else if when > totalTicks {
        pending := InsertByKey(rest, (toOccur, when));
        return false;
      }
      if status == IdleMode && toOccur.kind == TimerInt && rest == [] {
        pending := InsertByKey(rest, (toOccur, when));
        return false;
      }
      Fire(e);
      return true;
    }

    /** Take the first interrupt off the list and run its handler. */
    method Fire(e: Effect)
      requires pending != [] && Proper(e)
      modifies this`pending, this`scheduled, this`delivered, this`times, this`inHandler, this`yieldOnReturn, this`status
      ensures Books() == FiredOn(old(Books()), e, totalTicks)
      ensures status == old(status) && yieldOnReturn == (old(yieldOnReturn) || e.wantsYield)
    {
      delivered, times := delivered + [pending[0]], times + [totalTicks];
      pending := pending[1..];
      RunHandler(e);
    }

    /** CheckIfDue as the delivery loop calls it. */
    method DeliverOne(e: Effect) returns (fired: bool)
      requires level == IntOff && Proper(e) && TicksAddUp()
      modifies this`pending, this`scheduled, this`delivered, this`times, this`inHandler, this`yieldOnReturn, this`status,
        this`totalTicks, this`idleTicks
      ensures fired == old(FiresAt(Books(), totalTicks, status == IdleMode))
      ensures Books() == if fired then FiredOn(old(Books()), e, totalTicks) else PutBackOn(old(Books()))
      ensures totalTicks == old(totalTicks) && idleTicks == old(idleTicks) && status == old(status)
      ensures yieldOnReturn == (old(yieldOnReturn) || (fired && e.wantsYield))
    {
      fired := CheckIfDue(false, e);
    }

    /** One turn of the loop, numbered n: what is left to do afterwards completes what was to do before, which ends
        with the books `end`. */
    method DeliverNext(effects: nat -> Effect, n0: nat, n: nat, ghost end: (Book, nat), ghost asked: bool)
      returns (more: bool, n': nat)
      requires TicksAddUp() && level == IntOff && (forall k :: Proper(effects(k))) && n >= n0
      requires end == AllDelivered(Books(), totalTicks, status == IdleMode, effects, n)
      requires yieldOnReturn == (asked || Asked(effects, n0, n))
      modifies this`pending, this`scheduled, this`delivered, this`times, this`inHandler, this`yieldOnReturn, this`status,
        this`totalTicks, this`idleTicks
      ensures status == old(status) && totalTicks == old(totalTicks) && idleTicks == old(idleTicks) && n' >= n0
      ensures end == if more then AllDelivered(Books(), totalTicks, status == IdleMode, effects, n') else (Books(), n')
      ensures more ==> |DueOf(pending, totalTicks)| < |DueOf(old(pending), totalTicks)|
      ensures yieldOnReturn == (asked || Asked(effects, n0, n'))
    {
      FiringCounts(Books(), effects(n), totalTicks);
      AskedStep(effects, n0, n);
      more := DeliverOne(effects(n));
      n' := if more then n + 1 else n;
    }

    /** Deliver everything that is due: exactly those interrupts, in order, except an idle machine's last
        timer interrupt.  Handlers only schedule strictly later, so each delivery leaves one fewer due and
        the loop ends. */
    method DeliverDue(effects: nat -> Effect, n0: nat) returns (n: nat)
      requires TicksAddUp() && level == IntOff && forall k :: Proper(effects(k))
      modifies this`pending, this`scheduled, this`delivered, this`times, this`inHandler, this`yieldOnReturn, this`status,
        this`totalTicks, this`idleTicks
      ensures TicksAddUp() && status == old(status) && totalTicks == old(totalTicks) && idleTicks == old(idleTicks)
      ensures (Books(), n) == AllDelivered(old(Books()), totalTicks, status == IdleMode, effects, n0)
      ensures yieldOnReturn == (old(yieldOnReturn) || Asked(effects, n0, n))
    {
      n := n0;
      var more := true;
      ghost var now, idle := totalTicks, status == IdleMode;
      ghost var end := AllDelivered(Books(), now, idle, effects, n0);
      while more
        invariant status == old(status) && totalTicks == now && idleTicks == old(idleTicks)
        invariant n >= n0 && end == if more then AllDelivered(Books(), now, idle, effects, n) else (Books(), n)
        invariant yieldOnReturn == (old(yieldOnReturn) || Asked(effects, n0, n))
        decreases more, |DueOf(pending, now)|
      {
        more, n := DeliverNext(effects, n0, n, end, old(yieldOnReturn));
      }
    }

    function TickOf(): int
      reads this
    {
      if status == SystemMode then SYSTEM_TICK else USER_TICK
    }

    method AdvanceClock()
      requires TicksAddUp()
      modifies this`totalTicks, this`systemTicks, this`userTicks
      ensures TicksAddUp() && totalTicks == old(totalTicks) + TickOf()
      ensures systemTicks == old(systemTicks) + (if status == SystemMode then SYSTEM_TICK else 0)
    {
      if status == SystemMode {
        totalTicks, systemTicks := totalTicks + SYSTEM_TICK, systemTicks + SYSTEM_TICK;
      } else {
        totalTicks, userTicks := totalTicks + USER_TICK, userTicks + USER_TICK;
      }
    }

    /** Advance the clock for a user instruction or a re-enabling of interrupts, and deliver what has
        become due.  Returns whether a context switch was asked for; the switch itself is the
        caller's. */
    method OneTick(effects: nat -> Effect, n0: nat) returns (n: nat, switching: bool)
      requires Valid() && forall k :: Proper(effects(k))
      modifies this
      ensures Valid() && totalTicks == old(totalTicks + TickOf()) && idleTicks == old(idleTicks)
      ensures systemTicks == old(systemTicks) + (if old(status) == SystemMode then SYSTEM_TICK else 0)
      ensures level == IntOn && status == old(status) && !yieldOnReturn
      ensures CaughtUp(old(Books()), Books(), totalTicks, status == IdleMode, effects, n0, n)
      ensures switching == (old(yieldOnReturn) || Asked(effects, n0, n))
    {
      n, switching := Tick(effects, n0);
      TickIs(old(Books()), Books(), old(totalTicks), totalTicks, status == IdleMode, effects, n0, n);
    }

    /** The code of OneTick. */
    method Tick(effects: nat -> Effect, n0: nat) returns (n: nat, switching: bool)
      requires TicksAddUp() && forall k :: Proper(effects(k))
      modifies this
      ensures TicksAddUp() && totalTicks == old(totalTicks + TickOf()) && idleTicks == old(idleTicks)
      ensures systemTicks == old(systemTicks) + (if old(status) == SystemMode then SYSTEM_TICK else 0)
      ensures level == IntOn && status == old(status) && !yieldOnReturn
      ensures (Books(), n) == AllDelivered(old(Books()), totalTicks, status == IdleMode, effects, n0)
      ensures switching == (old(yieldOnReturn) || Asked(effects, n0, n))
    {
      AdvanceClock();
      level := IntOff;
      n := DeliverDue(effects, n0);
      level := IntOn;
      switching := yieldOnReturn;
      yieldOnReturn := false;
    }

    method SetLevel(now: IntStatus, effects: nat -> Effect, n0: nat) returns (was: IntStatus, n: nat, switching: bool)
      requires Valid() && (now == IntOff || !inHandler) && forall k :: Proper(effects(k))
      modifies this
      ensures Valid() && level == now && was == old(level) && status == old(status) && idleTicks == old(idleTicks)
      ensures now == IntOff || was == IntOn ==>
        && Books() == old(Books()) && !switching && n == n0 && yieldOnReturn == old(yieldOnReturn) && inHandler == old(inHandler)
        && totalTicks == old(totalTicks) && systemTicks == old(systemTicks)
      ensures now == IntOn && was == IntOff ==>
        && totalTicks == old(totalTicks + TickOf()) && !yieldOnReturn
        && systemTicks == old(systemTicks) + (if status == SystemMode then SYSTEM_TICK else 0)
        && CaughtUp(old(Books()), Books(), totalTicks, status == IdleMode, effects, n0, n)
        && switching == (old(yieldOnReturn) || Asked(effects, n0, n))
    {
      was, n, switching := level, n0, false;
      level := now;
      if now == IntOn && was == IntOff {
        n, switching := OneTick(effects, n0);
      }
    }

    /** Jump to the first interrupt and fire it, then deliver whatever else is due. */
    method Jump(effects: nat -> Effect, n0: nat) returns (fired: bool, n: nat)
      requires status == IdleMode && level == IntOff && TicksAddUp() && forall k :: Proper(effects(k))
      modifies this`pending, this`scheduled, this`delivered, this`times, this`inHandler, this`yieldOnReturn, this`status,
        this`totalTicks, this`idleTicks
      ensures TicksAddUp() && fired == old(Fires(true))
      ensures totalTicks == if old(pending) != [] && old(pending)[0].1 > old(totalTicks) then old(pending)[0].1 else old(totalTicks)
      ensures (Books(), n) ==
        if fired then AllDelivered(FiredOn(old(Books()), effects(n0), totalTicks), totalTicks, true, effects, n0 + 1)
        else (PutBackOn(old(Books())), n0)
    {
      n := n0;
      fired := CheckIfDue(true, effects(n));
      if fired {
        n := DeliverDue(effects, n0 + 1);
      }
    }

    /** Nothing is ready to run: jump to the next interrupt and deliver it and whatever else is due.
        Halts exactly when nothing is pending but, at most, one timer interrupt. */
    method Idle(effects: nat -> Effect, n0: nat) returns (halted: bool, n: nat)
      requires Valid() && level == IntOff && forall k :: Proper(effects(k))
      modifies this
      ensures Valid() && level == IntOff && userTicks == old(userTicks) && systemTicks == old(systemTicks)
      ensures totalTicks == if old(pending) != [] && old(pending)[0].1 > old(totalTicks) then old(pending)[0].1 else old(totalTicks)
      ensures halted <==> old(pending) == [] || (|old(pending)| == 1 && old(pending)[0].0.kind == TimerInt)
      ensures CaughtUp(old(Books()), Books(), totalTicks, true, effects, n0, n)
      ensures !halted ==> n > n0 && status == SystemMode && !yieldOnReturn
    {
      halted, n := Sleep(effects, n0);
      JumpIs(old(Books()), Books(), old(totalTicks), totalTicks, effects, n0, n);
    }

    /** The code of Idle. */
    method Sleep(effects: nat -> Effect, n0: nat) returns (halted: bool, n: nat)
      requires level == IntOff && TicksAddUp() && forall k :: Proper(effects(k))
      modifies this
      ensures TicksAddUp() && level == IntOff && userTicks == old(userTicks) && systemTicks == old(systemTicks)
      ensures totalTicks == if old(pending) != [] && old(pending)[0].1 > old(totalTicks) then old(pending)[0].1 else old(totalTicks)
      ensures halted <==> old(pending) == [] || (|old(pending)| == 1 && old(pending)[0].0.kind == TimerInt)
      ensures (Books(), n) ==
        if !halted then AllDelivered(FiredOn(old(Books()), effects(n0), totalTicks), totalTicks, true, effects, n0 + 1)
        else (PutBackOn(old(Books())), n0)
      ensures !halted ==> status == SystemMode && !yieldOnReturn
    {
      status := IdleMode;
      var fired;
      fired, n := Jump(effects, n0);
      halted := !fired;
      if fired {
        yieldOnReturn := false;
        status := SystemMode;
      }
    }
  }

  /** A keyboard interrupt and a timer interrupt for the same time. */
  const KEY: Item := (PendingInterrupt(0, 0, 5, ConsoleReadInt), 5)
  const TIMER: Item := (PendingInterrupt(1, 0, 5, TimerInt), 5)

  function Quiet(n: nat): Effect {
    Effect([], false)
  }

  /** What idling makes of the two. */
  lemma TimerIsLone()
    ensures var s := [KEY, TIMER]; DueOf(s, 5) == s && LoneTimer(s, 5, Quiet, 0) && Deliveries(s, 5, true, Quiet, 0) == 1
  {
    assert [KEY, TIMER][1..] == [TIMER] && [TIMER][1..] == [];
    assert DueOf([TIMER], 5) == [TIMER] + DueOf([], 5);
    assert MadeCount(Quiet, 0, 1) == 0;
  }

  /** A run in which Idle returns with an interrupt still due: the timer's. */
  method TimerLeftDue() returns (i: Interrupt)
    ensures fresh(i) && i.Valid() && i.status == SystemMode && DueOf(i.pending, i.totalTicks) == [TIMER]
  {
    i := new Interrupt();
    i.Schedule(Request(0, 0, 5, ConsoleReadInt));
    i.Schedule(Request(1, 0, 5, TimerInt));
    assert i.Books() == Book([KEY, TIMER], [], [], [KEY, TIMER]);
    TwoAreSound();
    TimerIsLone();
    var halted, n := i.Idle(Quiet, 0);
    assert [KEY, TIMER][1..] == [TIMER];
  }

  lemma TwoAreSound()
    ensures Sound(Book([KEY, TIMER], [], [], [KEY, TIMER]), 0)
  {
  }
}
