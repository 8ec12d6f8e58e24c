/** Ping.c and Pong.c: two processes taking turns through the semaphores "First" and "Second", which
    PingPong.c creates with the values 1 and 0.  Each goes round its loop n times. */
module PingPong {
  datatype Pc = AtDown | AtPrint | AtUp

  /** Round `ping` of Ping at `pingPc`, round `pong` of Pong at `pongPc`, the semaphores, the output. */
  datatype State = State(n: nat, ping: nat, pingPc: Pc, pong: nat, pongPc: Pc, first: int, second: int, output: seq<char>)

  datatype Who = Ping | Pong

  predicate Done(k: State, who: Who) {
    if who == Ping then k.ping >= k.n else k.pong >= k.n
  }

  predicate Enabled(k: State, who: Who) {
    && !Done(k, who)
    && (who == Ping && k.pingPc == AtDown ==> k.first > 0)
    && (who == Pong && k.pongPc == AtDown ==> k.second > 0)
  }

  function Apply(k: State, who: Who): State
    requires Enabled(k, who)
  {
    match who
    case Ping => (
      match k.pingPc
      case AtDown => k.(first := k.first - 1, pingPc := AtPrint)
      case AtPrint => k.(output := k.output + ['A'], pingPc := AtUp)
      case AtUp => k.(second := k.second + 1, pingPc := AtDown, ping := k.ping + 1))
    case Pong => (
      match k.pongPc
      case AtDown => k.(second := k.second - 1, pongPc := AtPrint)
      case AtPrint => k.(output := k.output + ['B'], pongPc := AtUp)
      case AtUp => k.(first := k.first + 1, pongPc := AtDown, pong := k.pong + 1))
  }

  function Start(n: nat): State {
    State(n, 0, AtDown, 0, AtDown, 1, 0, [])
  }

  /** The first `length` characters of ABABAB... */
  function Alternating(length: nat): seq<char> {
    seq(length, i => if i % 2 == 0 then 'A' else 'B')
  }

  /** One token: on "First", in Ping, on "Second", or in Pong, in that order of progress. */
  ghost predicate Inv(k: State) {
    && k.first >= 0 && k.second >= 0 && k.pong <= k.ping <= k.n
    && (k.pingPc != AtDown ==> k.ping < k.n) && (k.pongPc != AtDown ==> k.pong < k.n)
    && k.first + k.second + (if k.pingPc == AtDown then 0 else 1) + (if k.pongPc == AtDown then 0 else 1) == 1
    && k.ping == k.pong + k.second + (if k.pongPc == AtDown then 0 else 1)
    && k.output == Alternating(k.ping + k.pong + (if k.pingPc == AtUp then 1 else 0) + (if k.pongPc == AtUp then 1 else 0))
  }

  lemma StepKeepsInv(k: State, who: Who)
    requires Inv(k) && Enabled(k, who)
    ensures Inv(Apply(k, who))
  {
  }

  ghost predicate IsRun(k: State, steps: seq<Who>)
    decreases steps
  {
    steps != [] ==> Enabled(k, steps[0]) && IsRun(Apply(k, steps[0]), steps[1..])
  }

  ghost function After(k: State, steps: seq<Who>): State
    requires IsRun(k, steps)
    decreases steps
  {
    if steps == [] then k else After(Apply(k, steps[0]), steps[1..])
  }

  /** Steps taken so far: three to a round. */
  function Taken(k: State): nat {
    3 * k.ping + Into(k.pingPc) + 3 * k.pong + Into(k.pongPc)
  }

  function Into(pc: Pc): nat {
    match pc case AtDown => 0 case AtPrint => 1 case AtUp => 2
  }

  lemma {:induction false} RunKeepsInv(k: State, steps: seq<Who>)
    requires Inv(k) && IsRun(k, steps)
    ensures Inv(After(k, steps)) && Taken(After(k, steps)) == Taken(k) + |steps| && After(k, steps).n == k.n
    decreases steps
  {
    if steps != [] {
      StepKeepsInv(k, steps[0]);
      RunKeepsInv(Apply(k, steps[0]), steps[1..]);
    }
  }

  /** Under every interleaving the output is a prefix of ABAB... (with n of each at most); until both loops
      are done exactly one process can move; and every run is over after 6n steps, with the output
      complete. */
  lemma TakesTurns(n: nat, steps: seq<Who>)
    requires IsRun(Start(n), steps)
    ensures After(Start(n), steps).n == n && TurnsTaken(After(Start(n), steps), |steps|)
  {
    TurnsAfter(Start(n), steps);
  }

  lemma TurnsAfter(k0: State, steps: seq<Who>)
    requires Inv(k0) && Taken(k0) == 0 && IsRun(k0, steps)
    ensures After(k0, steps).n == k0.n && TurnsTaken(After(k0, steps), |steps|)
  {
    RunKeepsInv(k0, steps);
    TurnsIn(After(k0, steps));
  }

  ghost predicate TurnsTaken(k: State, steps: nat) {
    && k.output <= Alternating(2 * k.n)
    && (!Done(k, Ping) || !Done(k, Pong) ==> Enabled(k, Ping) != Enabled(k, Pong))
    && steps <= 6 * k.n && (steps == 6 * k.n <==> Done(k, Ping) && Done(k, Pong))
    && (Done(k, Ping) && Done(k, Pong) ==> k.output == Alternating(2 * k.n))
  }

  lemma TurnsIn(k: State)
    requires Inv(k)
    ensures TurnsTaken(k, Taken(k))
  {
  }
}
