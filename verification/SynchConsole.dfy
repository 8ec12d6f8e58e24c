/** synchcons.cc on top of console.cc, output side: any number of threads calling SynchConsole::Write on
    one console.  Semaphores are their values (a P is enabled when the value is positive). */
module ConsoleOutput {
  import opened Options
  import opened Sequences

  type Tid = int

  /** Where a caller of Write is. */
  datatype Place =
    | Outside
    | AtLine(buf: seq<char>)             // WLineBlock->P()
    | AtLoop(buf: seq<char>, loop: nat)  // head of the for loop
    | AtDone(buf: seq<char>, loop: nat)  // synchWriteAvail->P(), after PutChar(buf[loop])

  /** `lines` and `holder` are bookkeeping: the buffers whose Write has returned, in that order, and
      the thread between WLineBlock's P and V. */
  datatype State = State(
    callers: map<Tid, Place>, lineBlock: nat, writeAvail: nat,
    putBusy: bool, interrupts: nat, output: seq<char>,
    lines: seq<seq<char>>, holder: Option<Tid>)

  datatype Step =
    | Call(t: Tid, buf: seq<char>)
    | Lock(t: Tid)
    | Put(t: Tid)
    | WriteDone                          // the device's interrupt
    | Next(t: Tid)
    | Unlock(t: Tid)

  function At(k: State, t: Tid): Place {
    if t in k.callers then k.callers[t] else Outside
  }

  predicate Enabled(k: State, step: Step) {
    match step
    case Call(t, buf) => At(k, t) == Outside
    case Lock(t) => At(k, t).AtLine? && k.lineBlock > 0
    case Put(t) => At(k, t).AtLoop? && At(k, t).loop < |At(k, t).buf|
    case WriteDone => k.interrupts > 0
    case Next(t) => At(k, t).AtDone? && k.writeAvail > 0
    case Unlock(t) => At(k, t).AtLoop? && At(k, t).loop >= |At(k, t).buf|
  }

  function Apply(k: State, step: Step): State
    requires Enabled(k, step)
  {
    match step
    case Call(t, buf) => k.(callers := k.callers[t := AtLine(buf)])
    case Lock(t) => k.(callers := k.callers[t := AtLoop(At(k, t).buf, 0)], lineBlock := k.lineBlock - 1, holder := Some(t))
    case Put(t) =>
      var p := At(k, t);
      k.(callers := k.callers[t := AtDone(p.buf, p.loop)], output := k.output + [p.buf[p.loop]],
         putBusy := true, interrupts := k.interrupts + 1)
    case WriteDone => k.(putBusy := false, interrupts := k.interrupts - 1, writeAvail := k.writeAvail + 1)
    case Next(t) => k.(callers := k.callers[t := AtLoop(At(k, t).buf, At(k, t).loop + 1)], writeAvail := k.writeAvail - 1)
    case Unlock(t) =>
      k.(callers := k.callers[t := Outside], lineBlock := k.lineBlock + 1, lines := k.lines + [At(k, t).buf], holder := None)
  }

  /** What the current holder has put out of its buffer so far. */
  ghost function Partial(k: State): seq<char> {
    if k.holder.None? then [] else
    match At(k, k.holder.value)
    case AtLoop(buf, loop) => if loop <= |buf| then buf[..loop] else []
    case AtDone(buf, loop) => if loop < |buf| then buf[..loop + 1] else []
    case _ => []
  }

  ghost predicate Inv(k: State) {
    && (forall t :: At(k, t).AtLoop? || At(k, t).AtDone? <==> k.holder == Some(t))
    && (forall t :: At(k, t).AtLoop? ==> At(k, t).loop <= |At(k, t).buf|)
    && (forall t :: At(k, t).AtDone? ==> At(k, t).loop < |At(k, t).buf|)
    && k.lineBlock == (if k.holder.None? then 1 else 0)
    && k.interrupts == (if k.putBusy then 1 else 0)
    && k.interrupts + k.writeAvail == (if k.holder.Some? && At(k, k.holder.value).AtDone? then 1 else 0)
    && k.output == Flatten(k.lines) + Partial(k)
  }

  /** The console starts idle with nobody inside. */
  ghost predicate Initial(k: State) {
    k == State(map[], 1, 0, false, 0, [], [], None)
  }

  lemma StepKeepsInv(k: State, step: Step)
    requires Inv(k) && Enabled(k, step)
    ensures Inv(Apply(k, step))
  {
    var k' := Apply(k, step);
    match step
    case Call(t, buf) => assert k.holder != Some(t);
    case Lock(t) =>
      assert k.holder.None?;
      assert Partial(k') == [];
    case Put(t) =>
      var p := At(k, t);
      assert p.buf[..p.loop + 1] == p.buf[..p.loop] + [p.buf[p.loop]];
      assert Flatten(k.lines) + p.buf[..p.loop] + [p.buf[p.loop]] == Flatten(k.lines) + p.buf[..p.loop + 1];
    case WriteDone =>
    case Next(t) =>
    case Unlock(t) =>
      assert At(k, t).buf[..|At(k, t).buf|] == At(k, t).buf;
      FlattenAppend(k.lines, At(k, t).buf);
  }

  ghost predicate IsRun(k: State, steps: seq<Step>)
    decreases steps
  {
    steps != [] ==> Enabled(k, steps[0]) && IsRun(Apply(k, steps[0]), steps[1..])
  }

  ghost function After(k: State, steps: seq<Step>): State
    requires IsRun(k, steps)
    decreases steps
  {
    if steps == [] then k else After(Apply(k, steps[0]), steps[1..])
  }

  lemma {:induction false} RunKeepsInv(k: State, steps: seq<Step>)
    requires Inv(k) && IsRun(k, steps)
    ensures Inv(After(k, steps))
    decreases steps
  {
    if steps != [] {
      StepKeepsInv(k, steps[0]);
      RunKeepsInv(Apply(k, steps[0]), steps[1..]);
    }
  }

  lemma InitialInv(k: State)
    requires Initial(k)
    ensures Inv(k)
  {
    assert forall t :: At(k, t) == Outside;
    assert Flatten(k.lines) == [] && Partial(k) == [];
  }

  /** Over every interleaving: the output is whole buffers one after another, then part of at most one
      more; and PutChar's assertion that the device is not busy never fails. */
  lemma WholeBuffers(k: State, steps: seq<Step>, t: Tid)
    requires Initial(k) && IsRun(k, steps)
    ensures var k' := After(k, steps);
      && k'.output == Flatten(k'.lines) + Partial(k')
      && (k'.holder.None? ==> k'.output == Flatten(k'.lines))
      && (Enabled(k', Put(t)) ==> !k'.putBusy)
  {
    InitialInv(k);
    RunKeepsInv(k, steps);
    PutFindsIdle(After(k, steps), t);
  }

  lemma PutFindsIdle(k: State, t: Tid)
    requires Inv(k)
    ensures Enabled(k, Put(t)) ==> !k.putBusy
    ensures k.holder.None? ==> k.output == Flatten(k.lines)
  {
    assert k.holder.None? ==> Partial(k) == [];
  }

  /** As long as some Write has not returned, something can happen. */
  lemma NeverStuck(k: State, steps: seq<Step>, t: Tid) returns (step: Step)
    requires Initial(k) && IsRun(k, steps) && At(After(k, steps), t) != Outside
    ensures !step.Call? && Enabled(After(k, steps), step)
  {
    InitialInv(k);
    RunKeepsInv(k, steps);
    step := SomeStep(After(k, steps), t);
  }

  lemma SomeStep(k: State, t: Tid) returns (step: Step)
    requires Inv(k) && At(k, t) != Outside
    ensures !step.Call? && Enabled(k, step)
  {
    if k.holder.None? {
      step := Lock(t);
    } else {
      var u := k.holder.value;
      assert At(k, u).AtLoop? || At(k, u).AtDone?;
      step := if At(k, u).AtDone? then (if k.writeAvail > 0 then Next(u) else WriteDone)
              else if At(k, u).loop < |At(k, u).buf| then Put(u) else Unlock(u);
    }
  }

  // ---- the calls, counted from the steps ----------------------------------------------------------

  /** The buffers passed to the Writes that are in progress. */
  ghost function Pending(k: State): map<Tid, seq<char>> {
    map t | t in k.callers && k.callers[t] != Outside :: k.callers[t].buf
  }

  /** What the calls and returns in a run say about that: a call begins one, a return ends it. */
  function InProgress(steps: seq<Step>, calls: map<Tid, seq<char>>): map<Tid, seq<char>> {
    if steps == [] then calls else
    match steps[0]
    case Call(t, buf) => InProgress(steps[1..], calls[t := buf])
    case Unlock(t) => InProgress(steps[1..], calls - {t})
    case _ => InProgress(steps[1..], calls)
  }

  /** The buffers passed to the Writes that have returned, in the order of their returns. */
  function Returned(steps: seq<Step>, calls: map<Tid, seq<char>>): seq<seq<char>> {
    if steps == [] then [] else
    match steps[0]
    case Call(t, buf) => Returned(steps[1..], calls[t := buf])
    case Unlock(t) => (if t in calls then [calls[t]] else []) + Returned(steps[1..], calls - {t})
    case _ => Returned(steps[1..], calls)
  }

  lemma PendingStep(k: State, step: Step)
    requires Enabled(k, step)
    ensures Pending(Apply(k, step)) ==
      match step
      case Call(t, buf) => Pending(k)[t := buf]
      case Unlock(t) => Pending(k) - {t}
      case _ => Pending(k)
    ensures Apply(k, step).lines == k.lines + (if step.Unlock? then [Pending(k)[step.t]] else [])
  {
  }

  lemma {:induction false} RunReturns(k: State, steps: seq<Step>)
    requires IsRun(k, steps)
    ensures Pending(After(k, steps)) == InProgress(steps, Pending(k))
    ensures After(k, steps).lines == k.lines + Returned(steps, Pending(k))
    decreases steps
  {
    if steps != [] {
      PendingStep(k, steps[0]);
      RunReturns(Apply(k, steps[0]), steps[1..]);
      assert steps[0].Unlock? ==> steps[0].t in Pending(k);
    }
  }

  /** The buffers one thread passed to Write, in order, and those of its Writes that have returned. */
  function CallsBy(steps: seq<Step>, t: Tid): seq<seq<char>> {
    if steps == [] then [] else (if steps[0].Call? && steps[0].t == t then [steps[0].buf] else []) + CallsBy(steps[1..], t)
  }

  function ReturnedTo(steps: seq<Step>, calls: map<Tid, seq<char>>, t: Tid): seq<seq<char>> {
    if steps == [] then [] else
    match steps[0]
    case Call(u, buf) => ReturnedTo(steps[1..], calls[u := buf], t)
    case Unlock(u) => (if u == t && u in calls then [calls[u]] else []) + ReturnedTo(steps[1..], calls - {u}, t)
    case _ => ReturnedTo(steps[1..], calls, t)
  }

  function OneOf(calls: map<Tid, seq<char>>, t: Tid): seq<seq<char>> {
    if t in calls then [calls[t]] else []
  }

  lemma {:induction false} CallsReturn(k: State, steps: seq<Step>, t: Tid)
    requires IsRun(k, steps)
    ensures OneOf(Pending(k), t) + CallsBy(steps, t) ==
      ReturnedTo(steps, Pending(k), t) + OneOf(InProgress(steps, Pending(k)), t)
    decreases steps
  {
    if steps != [] {
      PendingStep(k, steps[0]);
      var k', rest := Apply(k, steps[0]), steps[1..];
      CallsReturn(k', rest, t);
      var calls, back, left := CallsBy(rest, t), ReturnedTo(rest, Pending(k'), t), OneOf(InProgress(rest, Pending(k')), t);
      if steps[0].Call? && steps[0].t == t {
        assert [] + ([steps[0].buf] + calls) == [steps[0].buf] + calls;
      } else if steps[0].Unlock? && steps[0].t == t {
        var b := Pending(k)[t];
        assert [b] + ([] + calls) == [b] + (back + left) == ([b] + back) + left;
      } else {
        assert OneOf(Pending(k'), t) == OneOf(Pending(k), t);
        assert [] + calls == calls && [] + back == back;
      }
    }
  }

  /** Over every run: the device has been given, whole and one after another, the buffers of the Writes that have
      returned, as they were passed, and a beginning of the buffer of one that has not; and for each thread the
      Writes it called are those that have returned to it, in order, and at most one still in progress. */
  lemma WritesWhatItWasGiven(k: State, steps: seq<Step>, t: Tid)
    requires Initial(k) && IsRun(k, steps)
    ensures var k' := After(k, steps);
      && k'.lines == Returned(steps, map[])
      && k'.output == Flatten(Returned(steps, map[])) + Partial(k')
      && (k'.holder.None? ==> Partial(k') == [])
      && (k'.holder.Some? ==> k'.holder.value in InProgress(steps, map[]) && Partial(k') <= InProgress(steps, map[])[k'.holder.value])
      && CallsBy(steps, t) == ReturnedTo(steps, map[], t) + OneOf(InProgress(steps, map[]), t)
  {
    InitialInv(k);
    RunKeepsInv(k, steps);
    assert Pending(k) == map[];
    RunReturns(k, steps);
    CallsReturn(k, steps, t);
    PartialIsBeginning(After(k, steps));
  }

  lemma PartialIsBeginning(k: State)
    requires Inv(k)
    ensures k.holder.None? ==> Partial(k) == []
    ensures k.holder.Some? ==> k.holder.value in Pending(k) && Partial(k) <= Pending(k)[k.holder.value]
  {
    if k.holder.Some? {
      var u := k.holder.value;
      assert At(k, u).AtLoop? || At(k, u).AtDone?;
    }
  }
}

/** The input side: any number of threads calling SynchConsole::Read.  Characters are C chars, in which the
    byte 0xff and EOF are the same value. */
module ConsoleInput {
  import opened Options

  type Tid = int

  const EOF := -1
  const END_OF_LINE := 10     // '\012'
  const END_OF_STREAM := 1    // '\001', control-A

  predicate Ends(ch: int) {
    ch == END_OF_LINE || ch == END_OF_STREAM
  }

  /** Where a caller of Read is; `into` holds the characters stored so far. */
  datatype Place =
    | Outside
    | AtLine(limit: int)                                            // RLineBlock->P()
    | AtLoop(limit: int, into: seq<int>, end: Option<int>, ch: Option<int>)   // head of the while loop; ch is
                                                                              // None before it is first set
    | AtChar(limit: int, into: seq<int>)                            // synchReadAvail->P()
    | AtGet(limit: int, into: seq<int>)                             // cons->GetChar()

  /** A completed Read: what it stored, the character that ended the line, if one did, and what it returned,
      which is not determined when no character was asked for. */
  datatype Line = Line(limit: int, into: seq<int>, end: Option<int>, result: Option<int>) {
    /** Everything this Read took from the console. */
    function Text(): seq<int> {
      into + (if end.Some? then [end.value] else [])
    }

    /** No terminator is stored, and Read stops at the first one or when the buffer is full.  It returns -1
        for control-A, otherwise how many characters were stored. */
    ghost predicate WellRead() {
      && (forall k :: 0 <= k < |into| ==> !Ends(into[k]) && into[k] != EOF)
      && (if end.Some? then Ends(end.value) && |into| < limit else |into| == if limit < 0 then 0 else limit)
      && result == (if limit <= 0 then None else if end == Some(END_OF_STREAM) then Some(-1) else Some(|into|))
    }
  }

  /** `polled` (every character but EOF the device has read), `lines` and `holder` are bookkeeping. */
  datatype State = State(
    callers: map<Tid, Place>, lineBlock: nat, readAvail: nat, incoming: int,
    polled: seq<int>, lines: seq<Line>, holder: Option<Tid>)

  datatype Step =
    | Call(t: Tid, limit: int)
    | Lock(t: Tid)
    | Enter(t: Tid)            // the while condition holds
    | Await(t: Tid)            // P on synchReadAvail succeeds
    | Get(t: Tid)              // GetChar and what follows, up to the next loop head
    | Unlock(t: Tid)           // the while condition fails: V and return
    | Poll(ch: int)            // CheckCharAvail finds the buffer empty and reads ch

  function At(k: State, t: Tid): Place {
    if t in k.callers then k.callers[t] else Outside
  }

  predicate Enabled(k: State, step: Step) {
    match step
    case Call(t, limit) => At(k, t) == Outside
    case Lock(t) => At(k, t).AtLine? && k.lineBlock > 0
    case Enter(t) => At(k, t).AtLoop? && |At(k, t).into| < At(k, t).limit && At(k, t).end.None?
    case Await(t) => At(k, t).AtChar? && k.readAvail > 0
    case Get(t) => At(k, t).AtGet?
    case Unlock(t) => At(k, t).AtLoop? && !(|At(k, t).into| < At(k, t).limit && At(k, t).end.None?)
    case Poll(ch) => k.incoming == EOF
  }

  function Move(k: State, t: Tid, p: Place): State {
    k.(callers := k.callers[t := p])
  }

  function Apply(k: State, step: Step): State
    requires Enabled(k, step)
  {
    match step
    case Call(t, limit) => Move(k, t, AtLine(limit))
    case Lock(t) => Move(k, t, AtLoop(At(k, t).limit, [], None, None)).(lineBlock := k.lineBlock - 1, holder := Some(t))
    case Enter(t) => Move(k, t, AtChar(At(k, t).limit, At(k, t).into))
    case Await(t) => Move(k, t, AtGet(At(k, t).limit, At(k, t).into)).(readAvail := k.readAvail - 1)
    case Get(t) =>
      var p, ch := At(k, t), k.incoming;
      Move(k, t,
        if ch == EOF then AtChar(p.limit, p.into)
        else if Ends(ch) then AtLoop(p.limit, p.into, Some(ch), Some(ch))
        else AtLoop(p.limit, p.into + [ch], None, Some(ch))).(incoming := EOF)
    case Unlock(t) =>
      var p := At(k, t);
      Move(k, t, Outside).(lineBlock := k.lineBlock + 1, lines := k.lines + [LineOf(p)], holder := None)
    case Poll(ch) =>
      k.(incoming := ch, readAvail := k.readAvail + 1, polled := if ch == EOF then k.polled else k.polled + [ch])
  }

  /** What Read leaves behind when it returns: -1 if the last character was control-A. */
  function LineOf(p: Place): Line
    requires p.AtLoop?
  {
    Line(p.limit, p.into, p.end,
         if p.ch.None? then None else Some(if p.ch.value == END_OF_STREAM then -1 else |p.into|))
  }

  function Texts(lines: seq<Line>): seq<int> {
    if lines == [] then [] else Texts(lines[..|lines| - 1]) + lines[|lines| - 1].Text()
  }

  /** What the current holder has taken so far. */
  ghost function Partial(k: State): seq<int> {
    if k.holder.None? then [] else
    match At(k, k.holder.value)
    case AtLoop(_, into, end, _) => into + (if end.Some? then [end.value] else [])
    case AtChar(_, into) => into
    case AtGet(_, into) => into
    case _ => []
  }

  ghost predicate Inside(p: Place) {
    p.AtLoop? || p.AtChar? || p.AtGet?
  }

  /** The characters stored so far are neither terminators nor EOF, and fit. */
  ghost predicate PlaceOk(p: Place) {
    Inside(p) ==>
      && (forall k :: 0 <= k < |p.into| ==> !Ends(p.into[k]) && p.into[k] != EOF)
      && |p.into| <= (if p.limit < 0 then 0 else p.limit)
      && (p.AtLoop? ==> p.end.Some? ==> Ends(p.end.value) && |p.into| < p.limit)
      && (p.AtLoop? ==> p.ch == if p.end.Some? then p.end else if p.into == [] then None else Some(p.into[|p.into| - 1]))
      && (!p.AtLoop? ==> |p.into| < p.limit)
  }

  ghost predicate Places(k: State) {
    && (forall t :: Inside(At(k, t)) <==> k.holder == Some(t))
    && (forall t :: PlaceOk(At(k, t)))
    && k.lineBlock == (if k.holder.None? then 1 else 0)
    && (k.incoming != EOF ==> k.readAvail > 0 || (k.holder.Some? && At(k, k.holder.value).AtGet?))
  }

  /** Every polled character has gone into one completed Read, into the Read in progress, or is still
      in the device. */
  ghost predicate Stream(k: State) {
    && Texts(k.lines) + Partial(k) + InDevice(k) == k.polled
    && (forall i :: 0 <= i < |k.lines| ==> k.lines[i].WellRead())
  }

  ghost function InDevice(k: State): seq<int> {
    if k.incoming == EOF then [] else [k.incoming]
  }

  ghost predicate Inv(k: State) {
    Places(k) && Stream(k)
  }

  ghost predicate Initial(k: State) {
    k == State(map[], 1, 0, EOF, [], [], None)
  }

  lemma InitialInv(k: State)
    requires Initial(k)
    ensures Inv(k)
  {
    assert forall t :: At(k, t) == Outside;
    assert Texts(k.lines) == [] && Partial(k) == [];
  }

  /** One caller moves; everybody else stays where they are. */
  lemma MoveKeepsPlaces(k: State, k': State, t: Tid, p: Place)
    requires Places(k) && k'.callers == k.callers[t := p] && PlaceOk(p)
    requires Inside(At(k, t)) || k.holder != Some(t)
    requires k'.holder == (if Inside(p) then Some(t) else if Inside(At(k, t)) then None else k.holder)
    requires Inside(p) && !Inside(At(k, t)) ==> k.holder.None?
    requires k'.lineBlock == (if k'.holder.None? then 1 else 0)
    requires k'.incoming != EOF ==> k'.readAvail > 0 || (k'.holder.Some? && At(k', k'.holder.value).AtGet?)
    ensures Places(k')
  {
    forall u
      ensures Inside(At(k', u)) <==> k'.holder == Some(u)
      ensures PlaceOk(At(k', u))
    {
      assert u != t ==> At(k', u) == At(k, u);
    }
  }

  lemma StepKeepsPlaces(k: State, step: Step)
    requires Places(k) && Enabled(k, step)
    ensures Places(Apply(k, step))
  {
    var k' := Apply(k, step);
    if step.Poll? {
      assert forall u :: At(k', u) == At(k, u);
    } else {
      assert PlaceOk(At(k, step.t)) && (Inside(At(k, step.t)) <==> k.holder == Some(step.t));
      assert k'.callers == k.callers[step.t := At(k', step.t)];
      MoveKeepsPlaces(k, k', step.t, At(k', step.t));
    }
  }

  lemma GetKeepsStream(k: State, t: Tid)
    requires Places(k) && Stream(k) && Enabled(k, Get(t))
    ensures Stream(Apply(k, Get(t)))
  {
    var k' := Apply(k, Get(t));
    assert k.holder == Some(t);
    assert Partial(k') == Partial(k) + InDevice(k);
    assert Texts(k.lines) + Partial(k) + InDevice(k) == Texts(k.lines) + Partial(k') + [];
  }

  /** The line a Read leaves behind is what it had taken, and ends where a Read may end. */
  lemma LeftBehind(k: State, t: Tid)
    requires Places(k) && Enabled(k, Unlock(t))
    ensures LineOf(At(k, t)).Text() == Partial(k) && LineOf(At(k, t)).WellRead()
  {
    assert k.holder == Some(t) && PlaceOk(At(k, t));
  }

  lemma TextsAppend(lines: seq<Line>, line: Line)
    ensures Texts(lines + [line]) == Texts(lines) + line.Text()
  {
    assert (lines + [line])[..|lines|] == lines;
  }

  lemma NoneLeft(s: seq<int>, device: seq<int>)
    ensures s + [] + device == s + device
  {
    assert s + [] == s;
  }

  lemma LineAdded(k: State, k': State, line: Line)
    requires Stream(k) && k'.lines == k.lines + [line] && line.Text() == Partial(k) && line.WellRead()
    requires k'.holder.None? && k'.incoming == k.incoming && k'.polled == k.polled
    ensures Stream(k')
  {
    TextsAppend(k.lines, line);
    NoneLeft(Texts(k'.lines), InDevice(k'));
    forall i | 0 <= i < |k'.lines|
      ensures k'.lines[i].WellRead()
    {
      assert k'.lines[i] == if i < |k.lines| then k.lines[i] else line;
    }
  }

  lemma UnlockKeepsStream(k: State, t: Tid)
    requires Places(k) && Stream(k) && Enabled(k, Unlock(t))
    ensures Stream(Apply(k, Unlock(t)))
  {
    LeftBehind(k, t);
    LineAdded(k, Apply(k, Unlock(t)), LineOf(At(k, t)));
  }

  lemma StepKeepsStream(k: State, step: Step)
    requires Places(k) && Stream(k) && Enabled(k, step)
    ensures Stream(Apply(k, step))
  {
    var k' := Apply(k, step);
    if step.Get? {
      GetKeepsStream(k, step.t);
    } else if step.Unlock? {
      UnlockKeepsStream(k, step.t);
    } else {
      assert !step.Poll? ==> (Inside(At(k, step.t)) <==> k.holder == Some(step.t));
      assert Partial(k') == Partial(k);
    }
  }

  ghost predicate IsRun(k: State, steps: seq<Step>)
    decreases steps
  {
    steps != [] ==> Enabled(k, steps[0]) && IsRun(Apply(k, steps[0]), steps[1..])
  }

  ghost function After(k: State, steps: seq<Step>): State
    requires IsRun(k, steps)
    decreases steps
  {
    if steps == [] then k else After(Apply(k, steps[0]), steps[1..])
  }

  lemma {:induction false} RunKeepsInv(k: State, steps: seq<Step>)
    requires Inv(k) && IsRun(k, steps)
    ensures Inv(After(k, steps))
    decreases steps
  {
    if steps != [] {
      StepKeepsPlaces(k, steps[0]);
      StepKeepsStream(k, steps[0]);
      RunKeepsInv(Apply(k, steps[0]), steps[1..]);
    }
  }

  /** Over every interleaving: each character polled from the keyboard, EOF aside, is consumed exactly
      once and in order, by Reads that each get one line or one bufferful; and one that has been polled
      but not consumed always has a wakeup waiting for it. */
  lemma CharactersInOrder(k: State, steps: seq<Step>)
    requires Initial(k) && IsRun(k, steps)
    ensures var k' := After(k, steps);
      && Texts(k'.lines) + Partial(k') + InDevice(k') == k'.polled
      && (forall i :: 0 <= i < |k'.lines| ==> k'.lines[i].WellRead())
      && (k'.incoming != EOF ==> k'.readAvail > 0 || (k'.holder.Some? && At(k', k'.holder.value).AtGet?))
  {
    InitialInv(k);
    RunKeepsInv(k, steps);
  }

  /** The text a Read takes determines what it stores and returns: the cut is at the first terminator or
      at the limit, whichever comes first. */
  lemma LineIsDetermined(a: Line, b: Line, rest: seq<int>, rest': seq<int>)
    requires a.WellRead() && b.WellRead() && a.limit == b.limit && a.Text() + rest == b.Text() + rest'
    ensures a == b && rest == rest'
  {
    var s := a.Text() + rest;
    assert forall k :: 0 <= k < |a.into| ==> s[k] == a.into[k];
    assert forall k :: 0 <= k < |b.into| ==> s[k] == b.into[k];
    assert a.end.Some? ==> s[|a.into|] == a.end.value;
    assert b.end.Some? ==> s[|b.into|] == b.end.value;
    assert |a.into| == |b.into|;
    assert a.into == s[..|a.into|] == b.into;
    assert rest == s[|a.Text()|..] && rest' == s[|b.Text()|..];
  }

  // ---- the calls and the keyboard, counted from the steps -----------------------------------------

  /** The characters, EOF aside, that the polls of a run read. */
  function Typed(steps: seq<Step>): seq<int> {
    if steps == [] then [] else (if steps[0].Poll? && steps[0].ch != EOF then [steps[0].ch] else []) + Typed(steps[1..])
  }

  lemma {:induction false} PolledIsTyped(k: State, steps: seq<Step>)
    requires IsRun(k, steps)
    ensures After(k, steps).polled == k.polled + Typed(steps)
    decreases steps
  {
    if steps != [] {
      PolledIsTyped(Apply(k, steps[0]), steps[1..]);
    }
  }

  /** The limits passed to the Reads that are in progress. */
  ghost function Pending(k: State): map<Tid, int> {
    map t | t in k.callers && k.callers[t] != Outside :: k.callers[t].limit
  }

  function InProgress(steps: seq<Step>, calls: map<Tid, int>): map<Tid, int> {
    if steps == [] then calls else
    match steps[0]
    case Call(t, limit) => InProgress(steps[1..], calls[t := limit])
    case Unlock(t) => InProgress(steps[1..], calls - {t})
    case _ => InProgress(steps[1..], calls)
  }

  /** The limits passed to the Reads that have returned, in the order of their returns. */
  function Returned(steps: seq<Step>, calls: map<Tid, int>): seq<int> {
    if steps == [] then [] else
    match steps[0]
    case Call(t, limit) => Returned(steps[1..], calls[t := limit])
    case Unlock(t) => (if t in calls then [calls[t]] else []) + Returned(steps[1..], calls - {t})
    case _ => Returned(steps[1..], calls)
  }

  function LimitsOf(lines: seq<Line>): seq<int> {
    seq(|lines|, i requires 0 <= i < |lines| => lines[i].limit)
  }

  lemma PendingStep(k: State, step: Step)
    requires Enabled(k, step)
    ensures Pending(Apply(k, step)) ==
      match step
      case Call(t, limit) => Pending(k)[t := limit]
      case Unlock(t) => Pending(k) - {t}
      case _ => Pending(k)
    ensures LimitsOf(Apply(k, step).lines) == LimitsOf(k.lines) + (if step.Unlock? then [Pending(k)[step.t]] else [])
  {
  }

  lemma {:induction false} RunReturns(k: State, steps: seq<Step>)
    requires IsRun(k, steps)
    ensures Pending(After(k, steps)) == InProgress(steps, Pending(k))
    ensures LimitsOf(After(k, steps).lines) == LimitsOf(k.lines) + Returned(steps, Pending(k))
    decreases steps
  {
    if steps != [] {
      PendingStep(k, steps[0]);
      RunReturns(Apply(k, steps[0]), steps[1..]);
      assert steps[0].Unlock? ==> steps[0].t in Pending(k);
    }
  }

  /** Over every run: the characters typed are those taken by the Reads that have returned, in the order of their
      returns, then those of the Read in progress and the one in the device; and each Read that has returned
      obeyed the limit it was called with. */
  lemma ReadsWhatWasTyped(k: State, steps: seq<Step>)
    requires Initial(k) && IsRun(k, steps)
    ensures var k' := After(k, steps);
      && Texts(k'.lines) + Partial(k') + InDevice(k') == Typed(steps)
      && LimitsOf(k'.lines) == Returned(steps, map[])
      && (forall i :: 0 <= i < |k'.lines| ==> k'.lines[i].WellRead())
  {
    CharactersInOrder(k, steps);
    PolledIsTyped(k, steps);
    assert Pending(k) == map[];
    RunReturns(k, steps);
    assert LimitsOf(k.lines) == [];
  }

  /** As long as some Read has not returned, something other than a new call can happen: if nothing else, the
      device can poll the keyboard. */
  lemma NeverStuck(k: State, steps: seq<Step>, t: Tid) returns (step: Step)
    requires Initial(k) && IsRun(k, steps) && At(After(k, steps), t) != Outside
    ensures !step.Call? && Enabled(After(k, steps), step)
  {
    InitialInv(k);
    RunKeepsInv(k, steps);
    step := SomeStep(After(k, steps), t);
  }

  lemma SomeStep(k: State, t: Tid) returns (step: Step)
    requires Places(k) && At(k, t) != Outside
    ensures !step.Call? && Enabled(k, step)
  {
    if k.holder.None? {
      assert !Inside(At(k, t));
      step := Lock(t);
    } else {
      var u := k.holder.value;
      var p := At(k, u);
      assert Inside(p);
      step := if p.AtGet? then Get(u)
              else if p.AtChar? then (if k.readAvail > 0 then Await(u) else Poll(END_OF_LINE))
              else if |p.into| < p.limit && p.end.None? then Enter(u) else Unlock(u);
    }
  }
}
