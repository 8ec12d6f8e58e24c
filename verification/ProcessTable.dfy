/** table.cc and pcb.cc: the process table and the handshake between a parent in Join and a child in Exit.
    Each process has one kernel thread, which takes no step after its Exit.  Process control blocks are
    objects with an identity of their own, because a slot of the table goes on pointing at a block after
    it has been deleted. */
module ProcessTable {
  import opened Options

  const MAX_PROCESS := 10

  type Block = nat     // the identity of a PCB, and of the process it was made for

  datatype Pcb = Pcb(pid: int, parentID: int, exitcode: int, joinStatus: int, joinsem: int, exitsem: int)

  /** Where a process's thread is. */
  datatype Pc =
    | Running
    | Joining(pid: int, child: Block)   // joinsem->P() of the child's block
    | Reading(pid: int, child: Block)   // past it, about to look at pcb[pid] again
    | Exiting                           // exitsem->P() of its own block
    | Gone

  datatype Proc = Proc(pid: int, pc: Pc)

  /** A Join that returned: the child, the process that joined it, the exit code it looked at, and what it
      returned. */
  datatype Joined = Joined(child: Block, joiner: Block, seen: int, result: int)

  /** pcb[] and the bitmap; the blocks not yet deleted; the processes.  `codes` (what each process passed
      to Exit), `joins`, `made` (blocks ever made) and `makers` (the process that made each) are bookkeeping. */
  datatype State = State(
    slots: seq<Option<Block>>, marked: set<int>, blocks: map<Block, Pcb>, procs: map<Block, Proc>,
    codes: map<Block, int>, joins: seq<Joined>, made: nat, makers: map<Block, Block>)

  datatype Step =
    | Exec(p: Block, id: int)       // id is the free slot found
    | Join(p: Block, id: int)       // the system call, up to joinsem->P()
    | JoinWake(p: Block)            // never, when the block and its joinsem have been deleted
    | JoinRead(p: Block)
    | Exit(p: Block, ec: int)       // up to exitsem->P(), or to the end if nobody joined
    | ExitWake(p: Block)

  predicate At(k: State, p: Block, pc: Pc) {
    p in k.procs && k.procs[p].pc == pc
  }

  /** JoinUpdate's tests, after the system call's own test that the process exists. */
  predicate MayJoin(k: State, p: Block, id: int)
    requires p in k.procs && |k.slots| == MAX_PROCESS
  {
    0 < id < MAX_PROCESS && id in k.marked && k.slots[id].Some? && k.slots[id].value in k.blocks &&
    k.blocks[k.slots[id].value].parentID == k.procs[p].pid
  }

  predicate Enabled(k: State, step: Step) {
    |k.slots| == MAX_PROCESS &&
    match step
    case Exec(p, id) => At(k, p, Running) && 0 <= id < MAX_PROCESS && id !in k.marked
    case Join(p, id) => At(k, p, Running)
    case JoinWake(p) =>
      p in k.procs && k.procs[p].pc.Joining? && k.procs[p].pc.child in k.blocks && k.blocks[k.procs[p].pc.child].joinsem > 0
    case JoinRead(p) => p in k.procs && k.procs[p].pc.Reading?
    case Exit(p, ec) => At(k, p, Running) && k.procs[p].pid != 0 && p in k.blocks
    case ExitWake(p) => At(k, p, Exiting) && p in k.blocks && k.blocks[p].exitsem > 0
  }

  function Move(k: State, p: Block, pc: Pc): State
    requires p in k.procs
  {
    k.(procs := k.procs[p := k.procs[p].(pc := pc)])
  }

  /** PTable::Remove: free the slot and delete the block, but leave the pointer in pcb[]. */
  function Remove(k: State, p: Block): State
    requires p in k.blocks && p in k.procs
  {
    Move(k, p, Gone).(marked := k.marked - {k.blocks[p].pid}, blocks := k.blocks - {p})
  }

  /** The PCB the expression pcb[id] denotes, if there is still one. */
  function Deref(k: State, id: int): Option<Pcb> {
    if 0 <= id < |k.slots| && k.slots[id].Some? && k.slots[id].value in k.blocks then Some(k.blocks[k.slots[id].value]) else None
  }

  function Apply(k: State, step: Step): State
    requires Enabled(k, step)
  {
    match step
    case Exec(p, id) =>
      k.(slots := k.slots[id := Some(k.made)], marked := k.marked + {id},
         blocks := k.blocks[k.made := Pcb(id, k.procs[p].pid, 0, -1, 0, 0)],
         procs := k.procs[k.made := Proc(id, Running)], made := k.made + 1, makers := k.makers[k.made := p])
    case Join(p, id) =>
      if !MayJoin(k, p, id) then k else
      var c := k.slots[id].value;
      Move(k, p, Joining(id, c)).(blocks := k.blocks[c := k.blocks[c].(joinStatus := k.blocks[c].parentID)])
    case JoinWake(p) =>
      var c := k.procs[p].pc.child;
      Move(k, p, Reading(k.procs[p].pc.pid, c)).(blocks := k.blocks[c := k.blocks[c].(joinsem := k.blocks[c].joinsem - 1)])
    case JoinRead(p) =>
      var id, c := k.procs[p].pc.pid, k.procs[p].pc.child;
      var b := Deref(k, id);
      if b.None? then Move(k, p, Gone)       // a deleted block: anything could happen
      else if b.value.exitcode != 0 then Move(k, p, Running).(joins := k.joins + [Joined(c, p, b.value.exitcode, -1)])
      else
        var o := k.slots[id].value;
        Move(k, p, Running).(joins := k.joins + [Joined(c, p, b.value.exitcode, 0)],
          blocks := k.blocks[o := k.blocks[o].(exitsem := k.blocks[o].exitsem + 1)])
    case Exit(p, ec) =>
      var k1 := k.(blocks := k.blocks[p := k.blocks[p].(exitcode := ec)], codes := k.codes[p := ec]);
      if k.blocks[p].joinStatus == -1 then Remove(k1, p)
      else Move(k1, p, Exiting).(blocks := k1.blocks[p := k1.blocks[p].(joinsem := k1.blocks[p].joinsem + 1)])
    case ExitWake(p) =>
      Remove(k.(blocks := k.blocks[p := k.blocks[p].(exitsem := k.blocks[p].exitsem - 1)]), p)
  }

  // ---- the invariant --------------------------------------------------------------------------

  /** The processes past the wait on c's joinsem that have not yet looked at its exit code. */
  ghost function Readers(k: State, c: Block): set<Block> {
    set p | p in k.procs && k.procs[p].pc.Reading? && k.procs[p].pc.child == c
  }

  /** Slots, bitmap, blocks and processes agree. */
  ghost predicate TableOk(k: State) {
    && |k.slots| == MAX_PROCESS
    && (forall b :: b in k.blocks ==> b < k.made && b in k.procs && k.procs[b].pid == k.blocks[b].pid)
    && (forall b :: b in k.blocks ==> 0 <= k.blocks[b].pid < MAX_PROCESS && k.slots[k.blocks[b].pid] == Some(b))
    && (forall id :: id in k.marked <==> 0 <= id < MAX_PROCESS && k.slots[id].Some? && k.slots[id].value in k.blocks)
    && (forall p :: p in k.procs ==> p < k.made)
    && (forall id :: 0 <= id < MAX_PROCESS && k.slots[id].Some? ==> k.slots[id].value < k.made)
    && (forall id :: 0 <= id < MAX_PROCESS && k.slots[id].Some? && k.slots[id].value in k.blocks ==> k.blocks[k.slots[id].value].pid == id)
    && (forall b :: b in k.codes ==> b < k.made)
  }

  /** A process that has exited and is waiting to be let go holds its own exit code; only then is
      anything signalled to, or read by, a parent. */
  ghost predicate HandshakeOk(k: State, b: Block)
    requires b in k.blocks && b in k.procs
  {
    var m := k.blocks[b];
    && m.joinsem >= 0 && m.exitsem >= 0
    && (k.procs[b].pc == Exiting <==> b in k.codes)
    && (b in k.codes ==> m.exitcode == k.codes[b])
    && m.joinsem + m.exitsem + |Readers(k, b)| <= (if b in k.codes then 1 else 0)
    && k.procs[b].pc != Gone
  }

  ghost predicate ReadersOk(k: State) {
    forall p :: p in k.procs && k.procs[p].pc.Reading? ==>
      k.procs[p].pc.child in k.blocks && k.blocks[k.procs[p].pc.child].pid == k.procs[p].pc.pid
  }

  ghost predicate JoinsOk(k: State) {
    && (forall p :: p in k.procs && k.procs[p].pc.Joining? && k.procs[p].pc.child in k.blocks ==>
          k.blocks[k.procs[p].pc.child].pid == k.procs[p].pc.pid)
    && (forall p :: p in k.procs && k.procs[p].pc.Joining? ==> k.procs[p].pc.child < k.made)
    && (forall i :: 0 <= i < |k.joins| ==> Truthful(k, k.joins[i]))
  }

  /** A returned Join saw the exit code its child gave, and returned 0 exactly for the code 0. */
  ghost predicate Truthful(k: State, j: Joined) {
    j.child in k.codes && j.seen == k.codes[j.child] && j.result == (if j.seen == 0 then 0 else -1)
  }

  ghost predicate Inv(k: State) {
    && TableOk(k) && ReadersOk(k) && JoinsOk(k)
    && forall b :: b in k.blocks ==> HandshakeOk(k, b)
  }

  // ---- each step keeps it -------------------------------------------------------------------

  /** The table as such is not changed: only semaphores, exit codes and places of processes are. */
  ghost predicate Quiet(k: State, k': State) {
    && k'.slots == k.slots && k'.marked == k.marked && k'.made == k.made
    && k'.blocks.Keys == k.blocks.Keys && (forall b :: b in k.blocks ==> k'.blocks[b].pid == k.blocks[b].pid)
    && k'.procs.Keys == k.procs.Keys && (forall p :: p in k.procs ==> k'.procs[p].pid == k.procs[p].pid)
    && (forall b :: b in k'.codes ==> b < k.made)
  }

  lemma QuietKeepsTable(k: State, k': State)
    requires TableOk(k) && Quiet(k, k')
    ensures TableOk(k')
  {
  }

  lemma ReadersMove(k: State, k': State, p: Block, x: Proc, b: Block)
    requires k'.procs == k.procs[p := x]
    ensures Readers(k', b) == Readers(k, b) - {p} + (if x.pc.Reading? && x.pc.child == b then {p} else {})
  {
  }

  /** One process moves, and the table as such, exit codes given and returned Joins stay. */
  ghost predicate OneMoves(k: State, k': State, p: Block, x: Proc) {
    && Quiet(k, k') && p in k.procs && k'.procs == k.procs[p := x]
    && (x.pc.Reading? ==> x.pc.child in k.blocks && k.blocks[x.pc.child].pid == x.pc.pid)
    && (x.pc.Joining? ==> x.pc.child in k.blocks && k.blocks[x.pc.child].pid == x.pc.pid && x.pc.child < k.made)
    && (forall b :: b in k.codes ==> b in k'.codes && k'.codes[b] == k.codes[b])
    && (forall i :: 0 <= i < |k'.joins| ==> (i < |k.joins| && k'.joins[i] == k.joins[i]) || Truthful(k', k'.joins[i]))
  }

  /** Then everything but the handshake is kept. */
  lemma MoveKeeps(k: State, k': State, p: Block, x: Proc)
    requires TableOk(k) && ReadersOk(k) && JoinsOk(k) && OneMoves(k, k', p, x)
    ensures TableOk(k') && ReadersOk(k') && JoinsOk(k')
  {
    QuietKeepsTable(k, k');
    QuietMove(k, k', p, x);
  }

  lemma QuietMove(k: State, k': State, p: Block, x: Proc)
    requires ReadersOk(k) && JoinsOk(k) && OneMoves(k, k', p, x)
    ensures ReadersOk(k') && JoinsOk(k')
  {
    assert forall q :: q in k.procs && q != p ==> k'.procs[q] == k.procs[q];
    forall i | 0 <= i < |k'.joins|
      ensures Truthful(k', k'.joins[i])
    {
      assert i < |k.joins| ==> Truthful(k, k.joins[i]);
    }
  }

  /** Blocks whose fields, process and readers did not change keep their half of the handshake. */
  lemma HandshakeStays(k: State, k': State, b: Block)
    requires b in k.blocks && b in k.procs && b in k'.blocks && b in k'.procs && HandshakeOk(k, b)
    requires k'.blocks[b].(joinStatus := 0) == k.blocks[b].(joinStatus := 0)
    requires (k'.procs[b].pc == Exiting <==> k.procs[b].pc == Exiting) && k'.procs[b].pc != Gone
    requires (b in k'.codes <==> b in k.codes) && (b in k.codes ==> k'.codes[b] == k.codes[b])
    requires Readers(k', b) == Readers(k, b)
    ensures HandshakeOk(k', b)
  {
  }

  /** When a parent gets to look at pcb[pid], the slot still holds its child's block, the child has set its
      exit code, and it is still waiting to be let go. */
  lemma ReadIsSafe(k: State, p: Block)
    requires Inv(k) && Enabled(k, JoinRead(p))
    ensures var pc := k.procs[p].pc;
      && 0 <= pc.pid < MAX_PROCESS && k.slots[pc.pid] == Some(pc.child)
      && pc.child in k.blocks && pc.child in k.procs && pc.child in k.codes
      && Deref(k, pc.pid) == Some(k.blocks[pc.child]) && k.blocks[pc.child].exitcode == k.codes[pc.child]
      && k.procs[pc.child].pc == Exiting && k.blocks[pc.child].exitsem == 0 && k.blocks[pc.child].joinsem == 0
  {
    var c := k.procs[p].pc.child;
    assert HandshakeOk(k, c) && p in Readers(k, c);
    assert |Readers(k, c)| >= 1 by {
      assert Readers(k, c) == (Readers(k, c) - {p}) + {p};
    }
  }

  lemma JoinKeeps(k: State, p: Block, id: int)
    requires Inv(k) && Enabled(k, Join(p, id))
    ensures var k' := Apply(k, Join(p, id)); TableOk(k') && ReadersOk(k') && JoinsOk(k')
  {
    if MayJoin(k, p, id) {
      var k' := Apply(k, Join(p, id));
      assert k.blocks[k.slots[id].value].pid == id;
      JoinMoves(k, p, id);
      MoveKeeps(k, k', p, k'.procs[p]);
    }
  }

  lemma JoinMoves(k: State, p: Block, id: int)
    requires Enabled(k, Join(p, id)) && MayJoin(k, p, id) && (forall b :: b in k.codes ==> b < k.made)
    requires k.slots[id].value < k.made && k.blocks[k.slots[id].value].pid == id
    ensures var k' := Apply(k, Join(p, id)); OneMoves(k, k', p, k'.procs[p])
  {
  }

  lemma JoinShakes(k: State, p: Block, id: int, b: Block)
    requires Enabled(k, Join(p, id)) && b in k.blocks && b in k.procs && HandshakeOk(k, b)
    ensures var k' := Apply(k, Join(p, id)); b in k'.blocks && b in k'.procs && HandshakeOk(k', b)
  {
    var k' := Apply(k, Join(p, id));
    assert HandshakeOk(k, b);
    if MayJoin(k, p, id) {
      ReadersMove(k, k', p, k'.procs[p], b);
      assert p !in Readers(k, b);
      HandshakeStays(k, k', b);
    }
  }

  lemma JoinWakeKeeps(k: State, p: Block)
    requires Inv(k) && Enabled(k, JoinWake(p))
    ensures var k' := Apply(k, JoinWake(p)); TableOk(k') && ReadersOk(k') && JoinsOk(k')
  {
    var k', pc := Apply(k, JoinWake(p)), k.procs[p].pc;
    assert k.blocks[pc.child].pid == pc.pid;
    JoinWakeMoves(k, p);
    MoveKeeps(k, k', p, k'.procs[p]);
  }

  lemma JoinWakeMoves(k: State, p: Block)
    requires Enabled(k, JoinWake(p)) && (forall b :: b in k.codes ==> b < k.made)
    requires k.blocks[k.procs[p].pc.child].pid == k.procs[p].pc.pid
    ensures var k' := Apply(k, JoinWake(p)); OneMoves(k, k', p, k'.procs[p])
  {
  }

  lemma JoinWakeShakes(k: State, p: Block, b: Block)
    requires Enabled(k, JoinWake(p)) && b in k.blocks && b in k.procs && HandshakeOk(k, b)
    ensures var k' := Apply(k, JoinWake(p)); b in k'.blocks && b in k'.procs && HandshakeOk(k', b)
  {
    var k', c := Apply(k, JoinWake(p)), k.procs[p].pc.child;
    assert HandshakeOk(k, b);
    ReadersMove(k, k', p, k'.procs[p], b);
    assert p !in Readers(k, b);
    if b != c {
      HandshakeStays(k, k', b);
    } else {
      WakeCounts(k, k', p, c);
    }
  }

  /** The signal is consumed and its receiver becomes a reader. */
  lemma WakeCounts(k: State, k': State, p: Block, c: Block)
    requires c in k.blocks && c in k.procs && HandshakeOk(k, c) && c in k'.blocks && c in k'.procs
    requires k'.blocks[c] == k.blocks[c].(joinsem := k.blocks[c].joinsem - 1) && k.blocks[c].joinsem > 0
    requires k'.codes == k.codes && (k'.procs[c].pc == Exiting <==> k.procs[c].pc == Exiting) && k'.procs[c].pc != Gone
    requires p !in Readers(k, c) && Readers(k', c) == Readers(k, c) + {p}
    ensures HandshakeOk(k', c)
  {
  }

  /** What JoinRead does, now that pcb[pid] is known to be the child's block. */
  ghost function JoinReturns(k: State, p: Block, c: Block): State
    requires p in k.procs && c in k.blocks
  {
    var m := k.blocks[c];
    Move(k, p, Running).(
      joins := k.joins + [Joined(c, p, m.exitcode, if m.exitcode == 0 then 0 else -1)],
      blocks := if m.exitcode == 0 then k.blocks[c := m.(exitsem := m.exitsem + 1)] else k.blocks)
  }

  lemma JoinReadIs(k: State, p: Block)
    requires Inv(k) && Enabled(k, JoinRead(p))
    ensures var c := k.procs[p].pc.child; c in k.blocks && Apply(k, JoinRead(p)) == JoinReturns(k, p, c)
  {
    ReadIsSafe(k, p);
    ReadsTheChild(k, p, k.procs[p].pc.pid, k.procs[p].pc.child);
  }

  lemma ReadsTheChild(k: State, p: Block, id: int, c: Block)
    requires |k.slots| == MAX_PROCESS && At(k, p, Reading(id, c)) && 0 <= id < MAX_PROCESS
    requires k.slots[id] == Some(c) && c in k.blocks
    ensures Apply(k, JoinRead(p)) == JoinReturns(k, p, c)
  {
  }

  lemma JoinReadKeeps(k: State, k': State, p: Block, c: Block)
    requires TableOk(k) && ReadersOk(k) && JoinsOk(k) && p in k.procs && c in k.blocks && k' == JoinReturns(k, p, c)
    requires c in k.codes && k.blocks[c].exitcode == k.codes[c]
    ensures TableOk(k') && ReadersOk(k') && JoinsOk(k')
  {
    JoinReadMoves(k, k', p, c);
    MoveKeeps(k, k', p, k'.procs[p]);
  }

  lemma JoinReadMoves(k: State, k': State, p: Block, c: Block)
    requires p in k.procs && c in k.blocks && k' == JoinReturns(k, p, c) && (forall b :: b in k.codes ==> b < k.made)
    requires c in k.codes && k.blocks[c].exitcode == k.codes[c]
    ensures OneMoves(k, k', p, k'.procs[p])
  {
    assert Truthful(k', k'.joins[|k.joins|]);
  }

  lemma JoinReadShakes(k: State, k': State, p: Block, c: Block, b: Block)
    requires p in k.procs && k.procs[p].pc.Reading? && k.procs[p].pc.child == c && c in k.blocks
    requires b in k.blocks && b in k.procs && HandshakeOk(k, b) && k' == JoinReturns(k, p, c) && b != c
    ensures b in k'.blocks && b in k'.procs && HandshakeOk(k', b)
  {
    ReadersMove(k, k', p, k'.procs[p], b);
    assert p !in Readers(k, b);
    HandshakeStays(k, k', b);
  }

  /** The token passes from the reader to the child's exitsem, or is dropped. */
  lemma JoinReadReleases(k: State, k': State, p: Block, c: Block)
    requires p in k.procs && k.procs[p].pc.Reading? && k.procs[p].pc.child == c && p != c
    requires c in k.blocks && c in k.procs && HandshakeOk(k, c) && k' == JoinReturns(k, p, c)
    ensures c in k'.blocks && c in k'.procs && HandshakeOk(k', c)
  {
    ReadersMove(k, k', p, k'.procs[p], c);
    assert Readers(k, c) == (Readers(k, c) - {p}) + {p};
    assert |Readers(k', c)| == |Readers(k, c)| - 1;
  }

  /** The blocking half of Exit. */
  lemma ExitWaitKeeps(k: State, p: Block, ec: int)
    requires TableOk(k) && ReadersOk(k) && JoinsOk(k) && Enabled(k, Exit(p, ec)) && p !in k.codes && k.blocks[p].joinStatus != -1
    ensures var k' := Apply(k, Exit(p, ec)); TableOk(k') && ReadersOk(k') && JoinsOk(k')
  {
    var k' := Apply(k, Exit(p, ec));
    ExitWaitMoves(k, p, ec);
    MoveKeeps(k, k', p, k'.procs[p]);
  }

  lemma ExitWaitMoves(k: State, p: Block, ec: int)
    requires Enabled(k, Exit(p, ec)) && p < k.made && p !in k.codes && k.blocks[p].joinStatus != -1
    requires forall b :: b in k.codes ==> b < k.made
    ensures var k' := Apply(k, Exit(p, ec)); OneMoves(k, k', p, k'.procs[p])
  {
  }

  lemma ExitWaitShakes(k: State, p: Block, ec: int, b: Block)
    requires Enabled(k, Exit(p, ec)) && k.blocks[p].joinStatus != -1 && b in k.blocks && b in k.procs && HandshakeOk(k, b)
    ensures var k' := Apply(k, Exit(p, ec)); b in k'.blocks && b in k'.procs && HandshakeOk(k', b)
  {
    var k' := Apply(k, Exit(p, ec));
    assert HandshakeOk(k, b);
    ReadersMove(k, k', p, k'.procs[p], b);
    assert p !in Readers(k, b);
    if b != p {
      HandshakeStays(k, k', b);
    }
  }

  lemma ExecKeepsTable(k: State, p: Block, id: int)
    requires TableOk(k) && Enabled(k, Exec(p, id))
    ensures TableOk(Apply(k, Exec(p, id)))
  {
    var k' := Apply(k, Exec(p, id));
    assert k.made !in k.blocks && k.made !in k.procs;
    ExecKeepsBlocks(k, k', p, id);
    ExecKeepsSlots(k, k', p, id);
  }

  /** The first half of TableOk: blocks and processes. */
  lemma ExecKeepsBlocks(k: State, k': State, p: Block, id: int)
    requires TableOk(k) && Enabled(k, Exec(p, id)) && k' == Apply(k, Exec(p, id)) && k.made !in k.blocks && k.made !in k.procs
    ensures forall b :: b in k'.blocks ==> b < k'.made && b in k'.procs && k'.procs[b].pid == k'.blocks[b].pid
    ensures forall b :: b in k'.blocks ==> 0 <= k'.blocks[b].pid < MAX_PROCESS && k'.slots[k'.blocks[b].pid] == Some(b)
    ensures forall b :: b in k'.procs ==> b < k'.made
  {
    forall b | b in k.blocks
      ensures k.blocks[b].pid != id
    {
      assert k.slots[k.blocks[b].pid] == Some(b);
    }
  }

  /** The second half: slots and the bitmap. */
  lemma ExecKeepsSlots(k: State, k': State, p: Block, id: int)
    requires TableOk(k) && Enabled(k, Exec(p, id)) && k' == Apply(k, Exec(p, id)) && k.made !in k.blocks
    ensures |k'.slots| == MAX_PROCESS
    ensures forall i :: i in k'.marked <==> 0 <= i < MAX_PROCESS && k'.slots[i].Some? && k'.slots[i].value in k'.blocks
    ensures forall i :: 0 <= i < MAX_PROCESS && k'.slots[i].Some? ==> k'.slots[i].value < k'.made
    ensures forall i :: 0 <= i < MAX_PROCESS && k'.slots[i].Some? && k'.slots[i].value in k'.blocks ==> k'.blocks[k'.slots[i].value].pid == i
  {
  }

  lemma ExecKeeps(k: State, p: Block, id: int)
    requires TableOk(k) && ReadersOk(k) && JoinsOk(k) && Enabled(k, Exec(p, id))
    ensures var k' := Apply(k, Exec(p, id)); ReadersOk(k') && JoinsOk(k')
  {
    var k' := Apply(k, Exec(p, id));
    assert k.made !in k.blocks && k.made !in k.procs;
    assert forall q :: q in k'.procs && q != k.made ==> q in k.procs && k'.procs[q] == k.procs[q];
    assert forall i :: 0 <= i < |k.joins| ==> Truthful(k, k.joins[i]) && Truthful(k', k.joins[i]);
  }

  lemma ExecShakes(k: State, p: Block, id: int, b: Block)
    requires Inv(k) && Enabled(k, Exec(p, id)) && b in Apply(k, Exec(p, id)).blocks
    ensures var k' := Apply(k, Exec(p, id)); b in k'.procs && HandshakeOk(k', b)
  {
    assert k.made !in k.blocks && k.made !in k.procs && k.made !in k.codes;
    if b == k.made {
      ExecShakesNew(k, p, id);
    } else {
      assert HandshakeOk(k, b);
      ExecShakesOld(k, p, id, b);
    }
  }

  lemma ExecShakesNew(k: State, p: Block, id: int)
    requires ReadersOk(k) && Enabled(k, Exec(p, id)) && k.made !in k.blocks && k.made !in k.procs && k.made !in k.codes
    ensures HandshakeOk(Apply(k, Exec(p, id)), k.made)
  {
    var k' := Apply(k, Exec(p, id));
    ReadersMove(k, k', k.made, k'.procs[k.made], k.made);
    assert Readers(k, k.made) == {};
  }

  lemma ExecShakesOld(k: State, p: Block, id: int, b: Block)
    requires Enabled(k, Exec(p, id)) && b in k.blocks && b in k.procs && HandshakeOk(k, b) && b != k.made
    requires k.made !in k.procs && k.made !in k.codes
    ensures HandshakeOk(Apply(k, Exec(p, id)), b)
  {
    var k' := Apply(k, Exec(p, id));
    ReadersMove(k, k', k.made, k'.procs[k.made], b);
    assert k.made !in Readers(k, b);
    HandshakeStays(k, k', b);
  }

  /** Deleting p's block, when nobody is about to read it. */
  lemma RemoveKeeps(k: State, k1: State, p: Block)
    requires TableOk(k) && ReadersOk(k) && JoinsOk(k) && p in k.blocks && Readers(k, p) == {} && !k.procs[p].pc.Reading?
    requires Quiet(k, k1) && k1.procs == k.procs && k1.joins == k.joins
    requires forall b :: b in k.codes ==> b in k1.codes && k1.codes[b] == k.codes[b]
    ensures var k' := Remove(k1, p); TableOk(k') && ReadersOk(k') && JoinsOk(k')
  {
    QuietKeepsTable(k, k1);
    RemoveKeepsTable(k1, p);
    RemoveKeepsReaders(k, k1, p);
    RemoveKeepsJoins(k, k1, p);
  }

  lemma RemoveKeepsReaders(k: State, k1: State, p: Block)
    requires ReadersOk(k) && p in k.blocks && p in k.procs && Readers(k, p) == {}
    requires Quiet(k, k1) && k1.procs == k.procs
    ensures ReadersOk(Remove(k1, p))
  {
    var k' := Remove(k1, p);
    forall q | q in k'.procs && k'.procs[q].pc.Reading?
      ensures k'.procs[q].pc.child in k'.blocks && k'.blocks[k'.procs[q].pc.child].pid == k'.procs[q].pc.pid
    {
      assert k.procs[q].pc.child == p ==> q in Readers(k, p);
    }
  }

  lemma RemoveKeepsJoins(k: State, k1: State, p: Block)
    requires JoinsOk(k) && p in k.blocks && p in k.procs && Quiet(k, k1) && k1.procs == k.procs && k1.joins == k.joins
    requires forall b :: b in k.codes ==> b in k1.codes && k1.codes[b] == k.codes[b]
    ensures JoinsOk(Remove(k1, p))
  {
    var k' := Remove(k1, p);
    assert forall i :: 0 <= i < |k.joins| ==> Truthful(k, k.joins[i]) && Truthful(k', k.joins[i]);
  }

  lemma RemoveKeepsTable(k: State, p: Block)
    requires TableOk(k) && p in k.blocks && p in k.procs
    ensures TableOk(Remove(k, p))
  {
    var k' := Remove(k, p);
    assert forall b :: b in k'.blocks <==> b in k.blocks && b != p;
    assert forall b :: b in k'.blocks ==> k.blocks[b].pid != k.blocks[p].pid;
  }

  lemma RemoveShakes(k: State, k1: State, p: Block, b: Block)
    requires p in k.blocks && p in k.procs && b in k.blocks && b in k.procs && HandshakeOk(k, b) && b != p && !k.procs[p].pc.Reading?
    requires k1.procs == k.procs && k1.blocks.Keys == k.blocks.Keys && k1.blocks[b] == k.blocks[b]
    requires (b in k1.codes <==> b in k.codes) && (b in k.codes ==> k1.codes[b] == k.codes[b])
    ensures var k' := Remove(k1, p); b in k'.blocks && b in k'.procs && HandshakeOk(k', b)
  {
    var k' := Remove(k1, p);
    ReadersMove(k, k', p, k'.procs[p], b);
    assert p !in Readers(k, b);
    HandshakeStays(k, k', b);
  }

  // ---- who made whom, and what a Join has left behind -------------------------------------------

  /** The processes some Join has returned from, and those it has let go. */
  ghost function Done(k: State): set<Block> {
    set j | j in k.joins :: j.child
  }

  ghost function LetGo(k: State): set<Block> {
    set j | j in k.joins && j.result == 0 :: j.child
  }

  /** One token: a process that has exited and waits has signalled joinsem, or has a reader, or has been
      joined; and it can go once a Join returned 0. */
  ghost predicate TokenOk(k: State, b: Block)
    requires b in k.blocks
  {
    && k.blocks[b].joinsem >= 0
    && k.blocks[b].joinsem + |Readers(k, b)| + (if b in Done(k) then 1 else 0) == (if b in k.codes then 1 else 0)
    && k.blocks[b].exitsem == (if b in LetGo(k) then 1 else 0)
  }

  /** A process in Join was let in as the parent, and its child is there unless it has been let go. */
  ghost predicate WaitOk(k: State, p: Block)
    requires p in k.procs
  {
    var pc := k.procs[p].pc;
    pc.Joining? || pc.Reading? ==>
      if pc.child in k.blocks
      then k.blocks[pc.child].parentID == k.procs[p].pid && k.blocks[pc.child].joinStatus != -1
      else pc.Joining? && pc.child in LetGo(k)
  }

  ghost predicate MadeOk(k: State, b: Block)
    requires b in k.blocks
  {
    && k.blocks[b].parentID >= 0
    && (k.blocks[b].pid != 0 ==> b in k.makers && k.makers[b] in k.procs && k.procs[k.makers[b]].pid == k.blocks[b].parentID)
  }

  ghost predicate PeopleOk(k: State) {
    && (forall p :: p in k.procs ==> k.procs[p].pid >= 0 && (k.procs[p].pc != Gone ==> p in k.blocks))
    && (forall p :: p in k.procs ==> WaitOk(k, p))
    && (forall b :: b in k.blocks ==> MadeOk(k, b))
  }

  ghost predicate OnceJoined(k: State) {
    forall i, j :: 0 <= i < j < |k.joins| ==> k.joins[i].child != k.joins[j].child
  }

  ghost predicate Past(k: State) {
    PeopleOk(k) && OnceJoined(k) && forall b :: b in k.blocks ==> TokenOk(k, b)
  }

  /** One process moves; no block comes or goes. */
  lemma MovedPeople(k: State, k': State, p: Block, x: Proc)
    requires PeopleOk(k) && p in k.procs && k'.procs == k.procs[p := x] && x.pid == k.procs[p].pid
    requires k'.blocks.Keys == k.blocks.Keys && k'.makers == k.makers && LetGo(k) <= LetGo(k')
    requires forall b :: b in k.blocks ==> k'.blocks[b].parentID == k.blocks[b].parentID && k'.blocks[b].pid == k.blocks[b].pid
    requires forall b :: b in k.blocks && k'.blocks[b].joinStatus == -1 ==> k.blocks[b].joinStatus == -1
    requires x.pc != Gone && p in k.blocks && WaitOk(k', p)
    ensures PeopleOk(k')
  {
    forall q | q in k'.procs
      ensures WaitOk(k', q)
    {
      assert q != p ==> WaitOk(k, q);
    }
    forall b | b in k'.blocks
      ensures MadeOk(k', b)
    {
      assert MadeOk(k, b);
    }
  }

  /** A process goes and its block is deleted, when nobody waits for it or it has been let go. */
  lemma RemovedPeople(k: State, k': State, p: Block)
    requires PeopleOk(k) && p in k.procs && p in k.blocks && Readers(k, p) == {}
    requires k'.procs == k.procs[p := k.procs[p].(pc := Gone)] && k'.makers == k.makers && LetGo(k) == LetGo(k')
    requires k'.blocks.Keys == k.blocks.Keys - {p}
    requires forall b :: b in k'.blocks ==> k'.blocks[b] == k.blocks[b]
    requires k.blocks[p].joinStatus == -1 || p in LetGo(k)
    ensures PeopleOk(k')
  {
    forall q | q in k'.procs
      ensures WaitOk(k', q)
    {
      assert WaitOk(k, q);
      assert k.procs[q].pc.Reading? && k.procs[q].pc.child == p ==> q in Readers(k, p);
    }
    forall b | b in k'.blocks
      ensures MadeOk(k', b)
    {
      assert MadeOk(k, b);
    }
  }

  lemma TokenStays(k: State, k': State, b: Block)
    requires b in k.blocks && b in k'.blocks && TokenOk(k, b)
    requires k'.blocks[b].joinsem == k.blocks[b].joinsem && k'.blocks[b].exitsem == k.blocks[b].exitsem
    requires Readers(k', b) == Readers(k, b) && (b in k'.codes <==> b in k.codes)
    requires (b in Done(k') <==> b in Done(k)) && (b in LetGo(k') <==> b in LetGo(k))
    ensures TokenOk(k', b)
  {
  }

  lemma DoneHaveCodes(k: State, b: Block)
    requires JoinsOk(k)
    ensures LetGo(k) <= Done(k) && (b in Done(k) ==> b in k.codes)
  {
    if b in Done(k) {
      var j :| j in k.joins && j.child == b;
      var i :| 0 <= i < |k.joins| && k.joins[i] == j;
      assert Truthful(k, k.joins[i]);
    }
  }

  lemma ExecTokenNew(k: State, p: Block, id: int)
    requires ReadersOk(k) && JoinsOk(k) && Enabled(k, Exec(p, id)) && k.made !in k.blocks && k.made !in k.codes
    ensures TokenOk(Apply(k, Exec(p, id)), k.made)
  {
    var k' := Apply(k, Exec(p, id));
    DoneHaveCodes(k, k.made);
    ReadersMove(k, k', k.made, k'.procs[k.made], k.made);
    assert Readers(k, k.made) == {};
  }

  lemma ExecTokenOld(k: State, p: Block, id: int, b: Block)
    requires Enabled(k, Exec(p, id)) && b in k.blocks && b != k.made && TokenOk(k, b) && k.made !in k.procs && k.made !in k.codes
    ensures TokenOk(Apply(k, Exec(p, id)), b)
  {
    var k' := Apply(k, Exec(p, id));
    ReadersMove(k, k', k.made, k'.procs[k.made], b);
    assert k.made !in Readers(k, b);
    TokenStays(k, k', b);
  }

  lemma ExecPeople(k: State, k': State, p: Block, id: int)
    requires PeopleOk(k) && JoinsOk(k) && ReadersOk(k) && Enabled(k, Exec(p, id)) && k' == Apply(k, Exec(p, id))
    requires k.made !in k.blocks && k.made !in k.procs && forall b :: b in k.blocks ==> b < k.made
    ensures PeopleOk(k')
  {
    forall q | q in k'.procs
      ensures WaitOk(k', q)
    {
      assert q != k.made ==> WaitOk(k, q) && k'.procs[q] == k.procs[q];
    }
    forall b | b in k'.blocks
      ensures MadeOk(k', b)
    {
      assert b != k.made ==> MadeOk(k, b);
    }
  }

  lemma JoinPeople(k: State, p: Block, id: int)
    requires PeopleOk(k) && Enabled(k, Join(p, id)) && MayJoin(k, p, id)
    ensures PeopleOk(Apply(k, Join(p, id)))
  {
    var k', c := Apply(k, Join(p, id)), k.slots[id].value;
    assert MadeOk(k, c);
    MovedPeople(k, k', p, k'.procs[p]);
  }

  lemma JoinToken(k: State, p: Block, id: int, b: Block)
    requires Enabled(k, Join(p, id)) && MayJoin(k, p, id) && b in k.blocks && TokenOk(k, b)
    ensures TokenOk(Apply(k, Join(p, id)), b)
  {
    var k' := Apply(k, Join(p, id));
    ReadersMove(k, k', p, k'.procs[p], b);
    assert p !in Readers(k, b);
    TokenStays(k, k', b);
  }

  lemma JoinWakePeople(k: State, p: Block)
    requires PeopleOk(k) && Enabled(k, JoinWake(p))
    ensures PeopleOk(Apply(k, JoinWake(p)))
  {
    var k' := Apply(k, JoinWake(p));
    assert WaitOk(k, p);
    MovedPeople(k, k', p, k'.procs[p]);
  }

  lemma JoinWakeToken(k: State, p: Block, b: Block)
    requires Enabled(k, JoinWake(p)) && b in k.blocks && TokenOk(k, b)
    ensures TokenOk(Apply(k, JoinWake(p)), b)
  {
    var k', c := Apply(k, JoinWake(p)), k.procs[p].pc.child;
    ReadersMove(k, k', p, k'.procs[p], b);
    assert p !in Readers(k, b);
    if b != c {
      TokenStays(k, k', b);
    }
  }

  lemma JoinedMore(k: State, k': State, j: Joined)
    requires k'.joins == k.joins + [j]
    ensures forall b :: b in Done(k') <==> b in Done(k) || b == j.child
    ensures forall b :: b in LetGo(k') <==> b in LetGo(k) || (b == j.child && j.result == 0)
  {
    assert j in k'.joins;
    assert forall i :: i in k'.joins <==> i in k.joins || i == j;
  }

  lemma StillOnce(k: State, k': State, j: Joined)
    requires k'.joins == k.joins + [j] && OnceJoined(k) && j.child !in Done(k)
    ensures OnceJoined(k')
  {
    assert forall i :: 0 <= i < |k.joins| ==> k.joins[i] in k.joins && k.joins[i].child in Done(k);
  }

  lemma JoinReadPeople(k: State, k': State, p: Block, c: Block)
    requires PeopleOk(k) && p in k.procs && k.procs[p].pc.Reading? && c in k.blocks && k' == JoinReturns(k, p, c)
    ensures PeopleOk(k')
  {
    JoinedMore(k, k', k'.joins[|k.joins|]);
    MovedPeople(k, k', p, k'.procs[p]);
  }

  /** The reader is the token; it is handed to Done, and for the code 0 to the child. */
  lemma JoinReadOwn(k: State, k': State, p: Block, c: Block)
    requires p in k.procs && k.procs[p].pc.Reading? && k.procs[p].pc.child == c && c in k.blocks && k' == JoinReturns(k, p, c)
    requires TokenOk(k, c) && LetGo(k) <= Done(k)
    ensures c !in Done(k) && TokenOk(k', c)
  {
    JoinedMore(k, k', k'.joins[|k.joins|]);
    ReadersMove(k, k', p, k'.procs[p], c);
    OneReaderLess(k, k', p, c);
  }

  lemma OneReaderLess(k: State, k': State, p: Block, c: Block)
    requires p in Readers(k, c) && Readers(k', c) == Readers(k, c) - {p}
    ensures |Readers(k, c)| == |Readers(k', c)| + 1
  {
  }

  lemma JoinReadOther(k: State, k': State, p: Block, c: Block, b: Block)
    requires p in k.procs && k.procs[p].pc.Reading? && k.procs[p].pc.child == c && c in k.blocks && k' == JoinReturns(k, p, c)
    requires b in k.blocks && TokenOk(k, b) && b != c
    ensures TokenOk(k', b)
  {
    JoinedMore(k, k', k'.joins[|k.joins|]);
    ReadersMove(k, k', p, k'.procs[p], b);
    assert p !in Readers(k, b);
    TokenStays(k, k', b);
  }

  lemma JoinReadPast(k: State, p: Block)
    requires Inv(k) && Past(k) && Enabled(k, JoinRead(p))
    ensures Past(Apply(k, JoinRead(p)))
  {
    var k', c := Apply(k, JoinRead(p)), k.procs[p].pc.child;
    ReadIsSafe(k, p);
    JoinReadIs(k, p);
    JoinReadPeople(k, k', p, c);
    DoneHaveCodes(k, c);
    assert TokenOk(k, c);
    JoinReadOwn(k, k', p, c);
    StillOnce(k, k', k'.joins[|k.joins|]);
    forall b | b in k'.blocks && b != c ensures TokenOk(k', b) { JoinReadOther(k, k', p, c, b); }
  }

  lemma ExitWaitPeople(k: State, p: Block, ec: int)
    requires PeopleOk(k) && Enabled(k, Exit(p, ec)) && k.blocks[p].joinStatus != -1
    ensures PeopleOk(Apply(k, Exit(p, ec)))
  {
    var k' := Apply(k, Exit(p, ec));
    MovedPeople(k, k', p, k'.procs[p]);
  }

  lemma ExitGonePeople(k: State, p: Block, ec: int)
    requires PeopleOk(k) && Enabled(k, Exit(p, ec)) && k.blocks[p].joinStatus == -1 && Readers(k, p) == {}
    ensures PeopleOk(Apply(k, Exit(p, ec)))
  {
    RemovedPeople(k, Apply(k, Exit(p, ec)), p);
  }

  lemma ExitToken(k: State, p: Block, ec: int, b: Block)
    requires Enabled(k, Exit(p, ec)) && b in Apply(k, Exit(p, ec)).blocks && TokenOk(k, b)
    requires p !in k.codes
    ensures TokenOk(Apply(k, Exit(p, ec)), b)
  {
    var k' := Apply(k, Exit(p, ec));
    ReadersMove(k, k', p, k'.procs[p], b);
    assert p !in Readers(k, b);
    if b != p {
      TokenStays(k, k', b);
    }
  }

  lemma ExitWakePeople(k: State, p: Block)
    requires PeopleOk(k) && Enabled(k, ExitWake(p)) && Readers(k, p) == {} && p in LetGo(k)
    ensures PeopleOk(Apply(k, ExitWake(p)))
  {
    RemovedPeople(k, Apply(k, ExitWake(p)), p);
  }

  lemma ExitWakeToken(k: State, p: Block, b: Block)
    requires Enabled(k, ExitWake(p)) && b in k.blocks && b != p && TokenOk(k, b)
    ensures TokenOk(Apply(k, ExitWake(p)), b)
  {
    var k' := Apply(k, ExitWake(p));
    ReadersMove(k, k', p, k'.procs[p], b);
    assert p !in Readers(k, b);
    TokenStays(k, k', b);
  }

  lemma ExitPast(k: State, p: Block, ec: int)
    requires Inv(k) && Past(k) && Enabled(k, Exit(p, ec))
    ensures Past(Apply(k, Exit(p, ec)))
  {
    var k' := Apply(k, Exit(p, ec));
    assert HandshakeOk(k, p) && TokenOk(k, p);
    if k.blocks[p].joinStatus == -1 {
      assert Readers(k, p) == {};
      ExitGonePeople(k, p, ec);
    } else {
      ExitWaitPeople(k, p, ec);
    }
    forall b | b in k'.blocks ensures TokenOk(k', b) { ExitToken(k, p, ec, b); }
  }

  lemma ExitWakePast(k: State, p: Block)
    requires Inv(k) && Past(k) && Enabled(k, ExitWake(p))
    ensures Past(Apply(k, ExitWake(p)))
  {
    var k' := Apply(k, ExitWake(p));
    assert HandshakeOk(k, p) && TokenOk(k, p);
    assert p in LetGo(k);
    DoneHaveCodes(k, p);
    assert Readers(k, p) == {};
    ExitWakePeople(k, p);
    forall b | b in k'.blocks ensures TokenOk(k', b) { ExitWakeToken(k, p, b); }
  }

  lemma StepKeepsPast(k: State, step: Step)
    requires Inv(k) && Past(k) && Enabled(k, step)
    ensures Past(Apply(k, step))
  {
    var k' := Apply(k, step);
    match step
    case Exec(p, id) =>
      ExecPeople(k, k', p, id);
      ExecTokenNew(k, p, id);
      forall b | b in k'.blocks && b != k.made ensures TokenOk(k', b) { ExecTokenOld(k, p, id, b); }
    case Join(p, id) =>
      if MayJoin(k, p, id) {
        JoinPeople(k, p, id);
        forall b | b in k'.blocks ensures TokenOk(k', b) { JoinToken(k, p, id, b); }
      }
    case JoinWake(p) =>
      JoinWakePeople(k, p);
      forall b | b in k'.blocks ensures TokenOk(k', b) { JoinWakeToken(k, p, b); }
    case JoinRead(p) => JoinReadPast(k, p);
    case Exit(p, ec) => ExitPast(k, p, ec);
    case ExitWake(p) => ExitWakePast(k, p);
  }

  // ---- every run --------------------------------------------------------------------------------

  lemma ExitGoes(k: State, p: Block, ec: int)
    requires Inv(k) && Enabled(k, Exit(p, ec)) && k.blocks[p].joinStatus == -1
    ensures Inv(Apply(k, Exit(p, ec)))
  {
    var k1 := k.(blocks := k.blocks[p := k.blocks[p].(exitcode := ec)], codes := k.codes[p := ec]);
    assert HandshakeOk(k, p);
    RemoveKeeps(k, k1, p);
    forall b | b in Apply(k, Exit(p, ec)).blocks
      ensures HandshakeOk(Apply(k, Exit(p, ec)), b)
    {
      RemoveShakes(k, k1, p, b);
    }
  }

  lemma ExitWakeGoes(k: State, p: Block)
    requires Inv(k) && Enabled(k, ExitWake(p))
    ensures Inv(Apply(k, ExitWake(p)))
  {
    var k1 := k.(blocks := k.blocks[p := k.blocks[p].(exitsem := k.blocks[p].exitsem - 1)]);
    assert HandshakeOk(k, p);
    RemoveKeeps(k, k1, p);
    forall b | b in Apply(k, ExitWake(p)).blocks
      ensures HandshakeOk(Apply(k, ExitWake(p)), b)
    {
      RemoveShakes(k, k1, p, b);
    }
  }

  lemma StepKeepsInv(k: State, step: Step)
    requires Inv(k) && Enabled(k, step)
    ensures Inv(Apply(k, step))
  {
    var k' := Apply(k, step);
    match step
    case Exec(p, id) =>
      ExecKeepsTable(k, p, id);
      ExecKeeps(k, p, id);
      forall b | b in k'.blocks ensures HandshakeOk(k', b) { ExecShakes(k, p, id, b); }
    case Join(p, id) =>
      JoinKeeps(k, p, id);
      forall b | b in k'.blocks ensures HandshakeOk(k', b) { JoinShakes(k, p, id, b); }
    case JoinWake(p) =>
      JoinWakeKeeps(k, p);
      forall b | b in k'.blocks ensures HandshakeOk(k', b) { JoinWakeShakes(k, p, b); }
    case JoinRead(p) => JoinReadStep(k, p);
    case Exit(p, ec) =>
      if k.blocks[p].joinStatus == -1 {
        ExitGoes(k, p, ec);
      } else {
        assert HandshakeOk(k, p);
        ExitWaitKeeps(k, p, ec);
        forall b | b in k'.blocks ensures HandshakeOk(k', b) { ExitWaitShakes(k, p, ec, b); }
      }
    case ExitWake(p) => ExitWakeGoes(k, p);
  }

  lemma JoinReadStep(k: State, p: Block)
    requires Inv(k) && Enabled(k, JoinRead(p))
    ensures Inv(Apply(k, JoinRead(p)))
  {
    var k', c := Apply(k, JoinRead(p)), k.procs[p].pc.child;
    ReadIsSafe(k, p);
    JoinReadIs(k, p);
    JoinReadKeeps(k, k', p, c);
    JoinReadReleases(k, k', p, c);
    forall b | b in k'.blocks && b != c ensures HandshakeOk(k', b) { JoinReadShakes(k, k', p, c, b); }
  }

  /** Only the main process, in slot 0. */
  ghost predicate Initial(k: State) {
    && k.slots == [Some(0), None, None, None, None, None, None, None, None, None] && k.marked == {0}
    && k.blocks == map[0 := Pcb(0, 0, 0, -1, 0, 0)] && k.procs == map[0 := Proc(0, Running)]
    && k.codes == map[] && k.joins == [] && k.made == 1 && k.makers == map[]
  }

  lemma InitialInv(k: State)
    requires Initial(k)
    ensures Inv(k) && Past(k)
  {
    assert Readers(k, 0) == {};
    InitialPast(k);
  }

  lemma InitialPast(k: State)
    requires Initial(k)
    ensures Past(k)
  {
    assert Readers(k, 0) == {};
    assert Done(k) == {} && LetGo(k) == {};
  }

  ghost predicate IsRun(k: State, steps: seq<Step>)
    decreases steps
  {
    steps != [] ==> Enabled(k, steps[0]) && IsRun(Apply(k, steps[0]), steps[1..])
  }

  ghost function After(k: State, steps: seq<Step>): State
    requires IsRun(k, steps)
    decreases steps
  {
    if steps == [] then k else After(Apply(k, steps[0]), steps[1..])
  }

  lemma {:induction false} RunKeepsInv(k: State, steps: seq<Step>)
    requires Inv(k) && Past(k) && IsRun(k, steps)
    ensures Inv(After(k, steps)) && Past(After(k, steps))
    decreases steps
  {
    if steps != [] {
      StepKeepsInv(k, steps[0]);
      StepKeepsPast(k, steps[0]);
      RunKeepsInv(Apply(k, steps[0]), steps[1..]);
    }
  }

  /** Over every run: each Join that returned saw the code that the process it joined gave to Exit, and returned
      0 exactly when that code was 0; and a Join about to read finds that process's block in the slot, not
      deleted, with the code in it. */
  lemma JoinsAreTruthful(k: State, steps: seq<Step>, p: Block)
    requires Initial(k) && IsRun(k, steps)
    ensures var k' := After(k, steps);
      && (forall i :: 0 <= i < |k'.joins| ==> Truthful(k', k'.joins[i]))
      && (Enabled(k', JoinRead(p)) ==>
            var pc := k'.procs[p].pc;
            && pc.child in k'.blocks && pc.child in k'.codes && Deref(k', pc.pid) == Some(k'.blocks[pc.child])
            && k'.blocks[pc.child].exitcode == k'.codes[pc.child])
  {
    InitialInv(k);
    RunKeepsInv(k, steps);
    if Enabled(After(k, steps), JoinRead(p)) {
      ReadIsSafe(After(k, steps), p);
    }
  }

  /** The system call's test that the process exists keeps JoinUpdate from starting on a deleted block: in
      every reachable state a slot in use points at a live block, and a slot that was used and is not in
      use now still points at a deleted one. */
  lemma ExistTestIsNeeded(k: State, steps: seq<Step>, id: int)
    requires Initial(k) && IsRun(k, steps) && 0 <= id < MAX_PROCESS
    ensures var k' := After(k, steps);
      |k'.slots| == MAX_PROCESS && (k'.slots[id].Some? ==> (k'.slots[id].value in k'.blocks <==> id in k'.marked))
  {
    InitialInv(k);
    RunKeepsInv(k, steps);
  }

  /** A run in which it matters: a child that exits before anyone joins it leaves its slot pointing at a
      deleted block. */
  lemma DanglingSlot(k: State)
    requires Initial(k)
    ensures var steps := [Exec(0, 1), Exit(1, 7)];
      && IsRun(k, steps)
      && After(k, steps).slots[1] == Some(1) && 1 !in After(k, steps).blocks && 1 !in After(k, steps).marked
  {
    var k1 := Apply(k, Exec(0, 1));
    assert [Exec(0, 1), Exit(1, 7)][1..] == [Exit(1, 7)] && [Exit(1, 7)][1..] == [];
    assert Enabled(k1, Exit(1, 7));
    var k2 := Apply(k1, Exit(1, 7));
    assert IsRun(k2, []) && After(k2, []) == k2;
    assert IsRun(k1, [Exit(1, 7)]) && After(k1, [Exit(1, 7)]) == k2;
  }

  // ---- when a Join returns, and to whom -----------------------------------------------------------

  /** Over every run no process is joined twice, and one that waits in Join has its child's block in place
      unless an earlier Join has already let that child go. */
  lemma JoinedOnce(k: State, steps: seq<Step>, p: Block)
    requires Initial(k) && IsRun(k, steps)
    ensures var k' := After(k, steps);
      && (forall i, j :: 0 <= i < j < |k'.joins| ==> k'.joins[i].child != k'.joins[j].child)
      && (p in k'.procs && k'.procs[p].pc.Joining? ==> k'.procs[p].pc.child in k'.blocks || k'.procs[p].pc.child in LetGo(k'))
  {
    InitialInv(k);
    RunKeepsInv(k, steps);
    assert p in After(k, steps).procs ==> WaitOk(After(k, steps), p);
  }

  /** Processes that are still there have different numbers. */
  lemma OnePerPid(k: State, p: Block, q: Block)
    requires TableOk(k) && p in k.blocks && q in k.blocks && k.procs[p].pid == k.procs[q].pid
    ensures p == q
  {
  }

  ghost predicate InJoin(k: State, p: Block, c: Block) {
    p in k.procs && (k.procs[p].pc.Joining? || k.procs[p].pc.Reading?) && k.procs[p].pc.child == c
  }

  /** At most one process at a time is in Join for a child that is there. */
  lemma OneInJoin(k: State, p: Block, q: Block, c: Block)
    requires TableOk(k) && PeopleOk(k) && c in k.blocks
    ensures InJoin(k, p, c) && InJoin(k, q, c) ==> p == q
  {
    if InJoin(k, p, c) && InJoin(k, q, c) {
      assert WaitOk(k, p) && WaitOk(k, q);
      OnePerPid(k, p, q);
    }
  }

  lemma OnlyJoiner(k: State, p: Block, c: Block)
    requires TableOk(k) && PeopleOk(k) && InJoin(k, p, c) && k.procs[p].pc.Joining? && c in k.blocks
    ensures Readers(k, c) == {}
  {
    forall q
      ensures q !in Readers(k, c)
    {
      OneInJoin(k, p, q, c);
    }
  }

  /** A Join that waits can go on as soon as its child has exited, if and only if no Join on that child has
      returned before: if one has, it is stuck. */
  lemma CanReturnExactly(k: State, p: Block)
    requires Inv(k) && Past(k) && p in k.procs && k.procs[p].pc.Joining?
    ensures var c := k.procs[p].pc.child;
      && (c !in Done(k) ==> c in k.blocks && (c in k.codes <==> Enabled(k, JoinWake(p))))
      && (c in Done(k) ==> !Enabled(k, JoinWake(p)))
  {
    var c := k.procs[p].pc.child;
    assert WaitOk(k, p);
    DoneHaveCodes(k, c);
    if c in k.blocks {
      assert TokenOk(k, c);
      OnlyJoiner(k, p, c);
    }
  }

  lemma DoneGrows(k: State, step: Step)
    requires Enabled(k, step)
    ensures Done(k) <= Done(Apply(k, step))
  {
  }

  /** A process that waits moves only by waking up. */
  lemma OnlyWakingMoves(k: State, step: Step, p: Block)
    requires Enabled(k, step) && p in k.procs && k.procs[p].pc.Joining? && step != JoinWake(p) && p < k.made
    ensures p in Apply(k, step).procs && Apply(k, step).procs[p] == k.procs[p]
  {
  }

  /** Stuck means for ever: whatever happens afterwards, that Join does not return. */
  lemma {:induction false} SecondJoinHangs(k: State, steps: seq<Step>, p: Block)
    requires Inv(k) && Past(k) && IsRun(k, steps) && p in k.procs && k.procs[p].pc.Joining? && k.procs[p].pc.child in Done(k)
    ensures p in After(k, steps).procs && After(k, steps).procs[p] == k.procs[p]
    decreases steps
  {
    if steps != [] {
      CanReturnExactly(k, p);
      OnlyWakingMoves(k, steps[0], p);
      DoneGrows(k, steps[0]);
      StepKeepsInv(k, steps[0]);
      StepKeepsPast(k, steps[0]);
      SecondJoinHangs(Apply(k, steps[0]), steps[1..], p);
    }
  }

  /** While a process waits for a child that no Join has returned from, no other Join returns from it. */
  lemma FirstStaysFirst(k: State, step: Step, p: Block, c: Block)
    requires Inv(k) && Past(k) && InJoin(k, p, c) && k.procs[p].pc.Joining? && c !in Done(k) && Enabled(k, step)
    ensures c !in Done(Apply(k, step))
  {
    assert WaitOk(k, p);
    DoneHaveCodes(k, c);
    OnlyJoiner(k, p, c);
    if step.JoinRead? {
      ReadIsSafe(k, step.p);
      JoinReadIs(k, step.p);
      JoinedMore(k, Apply(k, step), Apply(k, step).joins[|k.joins|]);
      assert step.p in Readers(k, k.procs[step.p].pc.child);
    } else {
      assert Apply(k, step).joins == k.joins;
    }
  }

  /** Until it wakes up, the first Join on a child waits on a block that is there, and it can wake up as soon
      as the child has exited. */
  lemma {:induction false} FirstJoinWaits(k: State, steps: seq<Step>, p: Block)
    requires Inv(k) && Past(k) && IsRun(k, steps) && p in k.procs && k.procs[p].pc.Joining? && k.procs[p].pc.child !in Done(k)
    requires JoinWake(p) !in steps
    ensures var k', c := After(k, steps), k.procs[p].pc.child;
      p in k'.procs && k'.procs[p] == k.procs[p] && c in k'.blocks && (Enabled(k', JoinWake(p)) <==> c in k'.codes)
    decreases steps
  {
    if steps == [] {
      CanReturnExactly(k, p);
    } else {
      OnlyWakingMoves(k, steps[0], p);
      FirstStaysFirst(k, steps[0], p, k.procs[p].pc.child);
      StepKeepsInv(k, steps[0]);
      StepKeepsPast(k, steps[0]);
      FirstJoinWaits(Apply(k, steps[0]), steps[1..], p);
    }
  }

  /** Over every run: a Join that has been let in can return if and only if, at that time, no Join on that
      child has returned before.  If none has, its wait ends with the child's exit and not before; if one
      has, it never ends. */
  lemma JoinReturnsExactly(k: State, steps: seq<Step>, more: seq<Step>, p: Block)
    requires Initial(k) && IsRun(k, steps) && IsRun(After(k, steps), more)
    requires p in After(k, steps).procs && After(k, steps).procs[p].pc.Joining? && JoinWake(p) !in more
    ensures var k1, k2 := After(k, steps), After(After(k, steps), more);
      var c := k1.procs[p].pc.child;
      && p in k2.procs && k2.procs[p] == k1.procs[p]
      && (Enabled(k2, JoinWake(p)) <==> c !in Done(k1) && c in k2.codes)
      && (c !in Done(k1) ==> c in k2.blocks)
  {
    InitialInv(k);
    RunKeepsInv(k, steps);
    var k1 := After(k, steps);
    if k1.procs[p].pc.child in Done(k1) {
      SecondJoinHangs(k1, more, p);
      RunKeepsInv(k1, more);
      DoneStays(k1, more);
      CanReturnExactly(After(k1, more), p);
    } else {
      FirstJoinWaits(k1, more, p);
    }
  }

  lemma {:induction false} DoneStays(k: State, steps: seq<Step>)
    requires IsRun(k, steps)
    ensures Done(k) <= Done(After(k, steps))
    decreases steps
  {
    if steps != [] {
      DoneGrows(k, steps[0]);
      DoneStays(Apply(k, steps[0]), steps[1..]);
    }
  }

  // ---- which processes go away ----------------------------------------------------------------------

  /** A process that has been joined and not yet returned to has somebody in Join for it; and only a process
      that has been joined waits in Exit. */
  ghost predicate Awaited(k: State) {
    && (forall b :: b in k.blocks && k.blocks[b].joinStatus != -1 && b !in Done(k) ==> exists q :: InJoin(k, q, b))
    && (forall b :: b in k.blocks && At(k, b, Exiting) ==> k.blocks[b].joinStatus != -1)
  }

  /** A process in Join stays there until it has read. */
  lemma JoinerStays(k: State, step: Step, q: Block, b: Block)
    requires Enabled(k, step) && InJoin(k, q, b) && q < k.made && step != JoinRead(q)
    ensures InJoin(Apply(k, step), q, b)
  {
  }

  lemma ReadsAreDone(k: State, q: Block, b: Block)
    requires Inv(k) && InJoin(k, q, b) && Enabled(k, JoinRead(q))
    ensures b in Done(Apply(k, JoinRead(q)))
  {
    JoinReadIs(k, q);
    JoinedMore(k, Apply(k, JoinRead(q)), Apply(k, JoinRead(q)).joins[|k.joins|]);
  }

  /** A block keeps its joinStatus, but for the one a process enters Join for. */
  lemma StatusStays(k: State, step: Step, b: Block)
    requires Inv(k) && Enabled(k, step) && b in Apply(k, step).blocks && Apply(k, step).blocks[b].joinStatus != -1
    ensures b in k.blocks
    ensures k.blocks[b].joinStatus == -1 ==> step.Join? && InJoin(Apply(k, step), step.p, b)
  {
    if step.JoinRead? {
      JoinReadIs(k, step.p);
    } else {
      StatusElsewhere(k, step, b);
    }
  }

  lemma StatusElsewhere(k: State, step: Step, b: Block)
    requires Enabled(k, step) && !step.JoinRead? && b in Apply(k, step).blocks && Apply(k, step).blocks[b].joinStatus != -1
    ensures b in k.blocks
    ensures k.blocks[b].joinStatus == -1 ==> step.Join? && InJoin(Apply(k, step), step.p, b)
  {
  }

  lemma StepKeepsAwaited(k: State, step: Step, b: Block)
    requires Inv(k) && Awaited(k) && Enabled(k, step)
    requires b in Apply(k, step).blocks && Apply(k, step).blocks[b].joinStatus != -1 && b !in Done(Apply(k, step))
    ensures exists q :: InJoin(Apply(k, step), q, b)
  {
    StatusStays(k, step, b);
    if k.blocks[b].joinStatus != -1 {
      DoneGrows(k, step);
      var q :| InJoin(k, q, b);
      if step == JoinRead(q) {
        ReadsAreDone(k, q, b);
      } else {
        JoinerStays(k, step, q, b);
      }
    } else {
      assert InJoin(Apply(k, step), step.p, b);
    }
  }

  lemma StepKeepsExiting(k: State, step: Step, b: Block)
    requires Inv(k) && PeopleOk(k) && Awaited(k) && Enabled(k, step)
    requires b in Apply(k, step).blocks && At(Apply(k, step), b, Exiting)
    ensures Apply(k, step).blocks[b].joinStatus != -1
  {
    if step.JoinRead? {
      JoinReadIs(k, step.p);
    } else {
      assert b in k.blocks ==> MadeOk(k, b);
      ExitingElsewhere(k, step, b);
    }
  }

  lemma ExitingElsewhere(k: State, step: Step, b: Block)
    requires Enabled(k, step) && !step.JoinRead? && b in Apply(k, step).blocks && At(Apply(k, step), b, Exiting)
    requires b in k.blocks ==> k.blocks[b].parentID >= 0 && (At(k, b, Exiting) ==> k.blocks[b].joinStatus != -1)
    ensures Apply(k, step).blocks[b].joinStatus != -1
  {
  }

  lemma AwaitedStep(k: State, step: Step)
    requires Inv(k) && PeopleOk(k) && Awaited(k) && Enabled(k, step)
    ensures Awaited(Apply(k, step))
  {
    var k' := Apply(k, step);
    forall b | b in k'.blocks && k'.blocks[b].joinStatus != -1 && b !in Done(k') ensures exists q :: InJoin(k', q, b) {
      StepKeepsAwaited(k, step, b);
    }
    forall b | b in k'.blocks && At(k', b, Exiting) ensures k'.blocks[b].joinStatus != -1 {
      StepKeepsExiting(k, step, b);
    }
  }

  lemma {:induction false} RunKeepsAwaited(k: State, steps: seq<Step>)
    requires Inv(k) && Past(k) && Awaited(k) && IsRun(k, steps)
    ensures Awaited(After(k, steps))
    decreases steps
  {
    if steps != [] {
      StepKeepsInv(k, steps[0]);
      StepKeepsPast(k, steps[0]);
      AwaitedStep(k, steps[0]);
      RunKeepsAwaited(Apply(k, steps[0]), steps[1..]);
    }
  }

  /** Some continuation ends with p gone. */
  ghost predicate CanGo(k: State, p: Block) {
    exists more :: GoneAfter(k, more, p)
  }

  ghost predicate GoneAfter(k: State, more: seq<Step>, p: Block) {
    IsRun(k, more) && At(After(k, more), p, Gone)
  }

  lemma CanGoNow(k: State, p: Block)
    requires At(k, p, Gone)
    ensures CanGo(k, p)
  {
    assert GoneAfter(k, [], p);
  }

  lemma CanGoLater(k: State, step: Step, p: Block)
    requires Enabled(k, step) && CanGo(Apply(k, step), p)
    ensures CanGo(k, p)
  {
    var more :| GoneAfter(Apply(k, step), more, p);
    assert ([step] + more)[1..] == more;
    assert GoneAfter(k, [step] + more, p);
  }

  lemma LetGoGoes(k: State, p: Block)
    requires Inv(k) && Past(k) && At(k, p, Exiting) && p in LetGo(k)
    ensures CanGo(k, p)
  {
    ExitingGoes(k, p);
    CanGoNow(Apply(k, ExitWake(p)), p);
    CanGoLater(k, ExitWake(p), p);
  }

  /** A Join that reads the code 0 lets the child go. */
  lemma ReadLetsGo(k: State, p: Block, q: Block)
    requires Inv(k) && Past(k) && At(k, p, Exiting) && p in k.codes && k.codes[p] == 0
    requires InJoin(k, q, p) && k.procs[q].pc.Reading? && Enabled(k, JoinRead(q))
    ensures CanGo(k, p)
  {
    var k' := Apply(k, JoinRead(q));
    ReadIsSafe(k, q);
    JoinReadIs(k, q);
    JoinedMore(k, k', k'.joins[|k.joins|]);
    StepKeepsInv(k, JoinRead(q));
    StepKeepsPast(k, JoinRead(q));
    LetGoGoes(k', p);
    CanGoLater(k, JoinRead(q), p);
  }

  lemma WakeLetsGo(k: State, p: Block, q: Block)
    requires Inv(k) && Past(k) && At(k, p, Exiting) && p in k.codes && k.codes[p] == 0
    requires InJoin(k, q, p) && k.procs[q].pc.Joining? && Enabled(k, JoinWake(q))
    ensures CanGo(k, p)
  {
    StepKeepsInv(k, JoinWake(q));
    StepKeepsPast(k, JoinWake(q));
    ReadLetsGo(Apply(k, JoinWake(q)), p, q);
    CanGoLater(k, JoinWake(q), p);
  }

  lemma DoneWithZero(k: State, p: Block)
    requires JoinsOk(k) && p in Done(k) && p in k.codes && k.codes[p] == 0
    ensures p in LetGo(k)
  {
    var j :| j in k.joins && j.child == p;
    var i :| 0 <= i < |k.joins| && k.joins[i] == j;
    assert Truthful(k, k.joins[i]);
  }

  /** Whoever waits in Exit with the code 0 can go, wherever its parent is in Join. */
  lemma ZeroCanGo(k: State, p: Block)
    requires Inv(k) && Past(k) && Awaited(k) && At(k, p, Exiting) && p in k.codes && k.codes[p] == 0
    ensures CanGo(k, p)
  {
    if p in Done(k) {
      DoneWithZero(k, p);
      LetGoGoes(k, p);
    } else {
      assert p in k.blocks;
      var q :| InJoin(k, q, p);
      if k.procs[q].pc.Joining? {
        CanReturnExactly(k, q);
        WakeLetsGo(k, p, q);
      } else {
        ReadLetsGo(k, p, q);
      }
    }
  }

  /** Gone, or waiting in Exit with its code. */
  ghost predicate Left(k: State, p: Block, ec: int) {
    At(k, p, Gone) || (At(k, p, Exiting) && p in k.codes && k.codes[p] == ec)
  }

  /** A process that has left moves only by ExitWake, and keeps its code. */
  lemma OnlyGoing(k: State, step: Step, p: Block, ec: int)
    requires Enabled(k, step) && Left(k, p, ec) && p < k.made
    ensures Left(Apply(k, step), p, ec)
    ensures At(k, p, Exiting) && step != ExitWake(p) ==> At(Apply(k, step), p, Exiting)
    ensures At(k, p, Gone) ==> At(Apply(k, step), p, Gone)
  {
  }

  lemma {:induction false} StaysLeft(k: State, more: seq<Step>, p: Block, ec: int)
    requires Inv(k) && Past(k) && IsRun(k, more) && Left(k, p, ec)
    ensures Left(After(k, more), p, ec)
    ensures At(k, p, Gone) ==> At(After(k, more), p, Gone)
    ensures At(k, p, Exiting) && ec != 0 ==> At(After(k, more), p, Exiting)
    decreases more
  {
    if more != [] {
      OnlyGoing(k, more[0], p, ec);
      if At(k, p, Exiting) {
        ExitingGoes(k, p);
      }
      StepKeepsInv(k, more[0]);
      StepKeepsPast(k, more[0]);
      StaysLeft(Apply(k, more[0]), more[1..], p, ec);
    }
  }

  /** Its block and its slot stay with a process that waits in Exit. */
  lemma ExitingKeepsSlot(k: State, p: Block)
    requires TableOk(k) && PeopleOk(k) && At(k, p, Exiting)
    ensures p in k.blocks && k.procs[p].pid in k.marked
  {
  }

  lemma ExitLeaves(k: State, p: Block, ec: int)
    requires Enabled(k, Exit(p, ec))
    ensures Left(Apply(k, Exit(p, ec)), p, ec)
    ensures At(Apply(k, Exit(p, ec)), p, Gone) <==> k.blocks[p].joinStatus == -1
  {
  }

  lemma LeftCanGo(k: State, more: seq<Step>, p: Block, ec: int)
    requires Inv(k) && Past(k) && Awaited(k) && IsRun(k, more) && Left(k, p, ec)
    ensures CanGo(After(k, more), p) <==> At(k, p, Gone) || ec == 0
  {
    StaysLeft(k, more, p, ec);
    RunKeepsInv(k, more);
    RunKeepsAwaited(k, more);
    var k' := After(k, more);
    if At(k', p, Gone) {
      CanGoNow(k', p);
    } else if ec == 0 {
      ZeroCanGo(k', p);
    } else if CanGo(k', p) {
      var rest :| GoneAfter(k', rest, p);
      StaysLeft(k', rest, p, ec);
    }
  }

  /** Whether a process goes away is decided when it calls Exit.  If nobody has joined it, it goes at once.  If
      somebody has and its code is not 0, it waits in Exit for ever and keeps its slot.  If somebody has and its
      code is 0, then whatever happens afterwards it has gone or can still go. */
  lemma GoesExactly(k: State, steps: seq<Step>, p: Block, ec: int, more: seq<Step>)
    requires Initial(k) && IsRun(k, steps) && Enabled(After(k, steps), Exit(p, ec))
    requires IsRun(Apply(After(k, steps), Exit(p, ec)), more)
    ensures var k0 := After(k, steps);
      var k1 := Apply(k0, Exit(p, ec));
      var k2, joined := After(k1, more), k0.blocks[p].joinStatus != -1;
      && (At(k1, p, Gone) <==> !joined)
      && (joined && ec != 0 ==> At(k2, p, Exiting) && p in k2.blocks && k2.procs[p].pid in k2.marked)
      && (CanGo(k2, p) <==> !joined || ec == 0)
  {
    InitialInv(k);
    InitialAwaited(k);
    RunKeepsInv(k, steps);
    RunKeepsAwaited(k, steps);
    var k0 := After(k, steps);
    var k1 := Apply(k0, Exit(p, ec));
    StepKeepsInv(k0, Exit(p, ec));
    StepKeepsPast(k0, Exit(p, ec));
    AwaitedStep(k0, Exit(p, ec));
    ExitLeaves(k0, p, ec);
    StaysLeft(k1, more, p, ec);
    LeftCanGo(k1, more, p, ec);
    RunKeepsInv(k1, more);
    if At(After(k1, more), p, Exiting) {
      ExitingKeepsSlot(After(k1, more), p);
    }
  }

  lemma InitialAwaited(k: State)
    requires Initial(k)
    ensures Awaited(k)
  {
  }

  /** While it waits there, a process is signalled exactly when a Join on it has returned 0. */
  lemma SignalledExactly(k: State, steps: seq<Step>, b: Block)
    requires Initial(k) && IsRun(k, steps) && At(After(k, steps), b, Exiting)
    ensures var k' := After(k, steps);
      && b in k'.codes
      && (Enabled(k', ExitWake(b)) <==> b in LetGo(k'))
      && (b in LetGo(k') ==> k'.codes[b] == 0)
  {
    InitialInv(k);
    RunKeepsInv(k, steps);
    ExitingGoes(After(k, steps), b);
  }

  lemma ExitingGoes(k: State, b: Block)
    requires Inv(k) && Past(k) && At(k, b, Exiting)
    ensures b in k.codes && (Enabled(k, ExitWake(b)) <==> b in LetGo(k)) && (b in LetGo(k) ==> k.codes[b] == 0)
  {
    assert b in k.blocks && HandshakeOk(k, b) && TokenOk(k, b);
    if b in LetGo(k) {
      LetGoGaveZero(k, b);
    }
  }

  lemma LetGoGaveZero(k: State, b: Block)
    requires JoinsOk(k) && b in LetGo(k)
    ensures b in k.codes && k.codes[b] == 0
  {
    var j :| j in k.joins && j.result == 0 && j.child == b;
    var i :| 0 <= i < |k.joins| && k.joins[i] == j;
    assert Truthful(k, k.joins[i]);
  }

  /** The parentID test compares numbers, and numbers are used again: a process let into Join is the one that
      made the child if and only if the maker has not gone. */
  lemma JoinerIsMaker(k: State, steps: seq<Step>, p: Block, id: int)
    requires Initial(k) && IsRun(k, steps)
    ensures var k' := After(k, steps);
      At(k', p, Running) && |k'.slots| == MAX_PROCESS && MayJoin(k', p, id) ==>
        var c := k'.slots[id].value;
        c in k'.makers && k'.makers[c] in k'.procs && (p == k'.makers[c] <==> k'.procs[k'.makers[c]].pc != Gone)
  {
    InitialInv(k);
    RunKeepsInv(k, steps);
    var k' := After(k, steps);
    if At(k', p, Running) && |k'.slots| == MAX_PROCESS && MayJoin(k', p, id) {
      AdmittedIsMaker(k', p, id);
    }
  }

  lemma AdmittedIsMaker(k: State, p: Block, id: int)
    requires TableOk(k) && PeopleOk(k) && At(k, p, Running) && MayJoin(k, p, id)
    ensures var c := k.slots[id].value;
      c in k.makers && k.makers[c] in k.procs && (p == k.makers[c] <==> k.procs[k.makers[c]].pc != Gone)
  {
    var c := k.slots[id].value;
    assert MadeOk(k, c);
    var m := k.makers[c];
    if k.procs[m].pc != Gone {
      OnePerPid(k, p, m);
    }
  }

  // ---- runs in which it matters -------------------------------------------------------------------

  lemma {:induction false} Chained(k: State, a: seq<Step>, b: seq<Step>)
    requires IsRun(k, a) && IsRun(After(k, a), b)
    ensures IsRun(k, a + b) && After(k, a + b) == After(After(k, a), b)
    decreases a
  {
    if a == [] {
      assert a + b == b;
    } else {
      assert (a + b)[1..] == a[1..] + b;
      Chained(Apply(k, a[0]), a[1..], b);
    }
  }

  lemma TwoSteps(k: State, x: Step, y: Step)
    requires Enabled(k, x) && Enabled(Apply(k, x), y)
    ensures IsRun(k, [x, y]) && After(k, [x, y]) == Apply(Apply(k, x), y)
  {
    assert [x, y][1..] == [y] && [y][1..] == [];
    assert IsRun(Apply(k, x), [y]) && After(Apply(k, x), [y]) == Apply(Apply(k, x), y);
  }

  /** Slots 0 .. 9, of which the first three may have been used. */
  function Slots(one: Option<Block>, two: Option<Block>): seq<Option<Block>> {
    [Some(0), one, two, None, None, None, None, None, None, None]
  }

  const MAIN := Pcb(0, 0, 0, -1, 0, 0)

  /** Process 0 waits for process 1. */
  function Waiting(): State {
    State(Slots(Some(1), None), {0, 1}, map[0 := MAIN, 1 := Pcb(1, 0, 0, 0, 0, 0)],
          map[0 := Proc(0, Joining(1, 1)), 1 := Proc(1, Running)], map[], [], 2, map[1 := 0])
  }

  /** Process 1 has exited and process 0 is about to read its code. */
  function Woken(): State {
    State(Slots(Some(1), None), {0, 1}, map[0 := MAIN, 1 := Pcb(1, 0, 0, 0, 0, 0)],
          map[0 := Proc(0, Reading(1, 1)), 1 := Proc(1, Exiting)], map[1 := 0], [], 2, map[1 := 0])
  }

  /** The first Join has returned, and process 0 waits again. */
  function WaitingAgain(): State {
    State(Slots(Some(1), None), {0, 1}, map[0 := MAIN, 1 := Pcb(1, 0, 0, 0, 0, 1)],
          map[0 := Proc(0, Joining(1, 1)), 1 := Proc(1, Exiting)], map[1 := 0], [Joined(1, 0, 0, 0)], 2, map[1 := 0])
  }

  lemma AgainWaits(k: State)
    requires Initial(k)
    ensures var s := [Exec(0, 1), Join(0, 1)]; IsRun(k, s) && After(k, s) == Waiting()
  {
    TwoSteps(k, Exec(0, 1), Join(0, 1));
  }

  lemma AgainWakes()
    ensures var s := [Exit(1, 0), JoinWake(0)]; IsRun(Waiting(), s) && After(Waiting(), s) == Woken()
  {
    TwoSteps(Waiting(), Exit(1, 0), JoinWake(0));
  }

  lemma AgainReads()
    ensures var s := [JoinRead(0), Join(0, 1)]; IsRun(Woken(), s) && After(Woken(), s) == WaitingAgain()
  {
    TwoSteps(Woken(), JoinRead(0), Join(0, 1));
  }

  lemma AgainGoes()
    ensures IsRun(WaitingAgain(), [ExitWake(1)])
    ensures var k := After(WaitingAgain(), [ExitWake(1)]); At(k, 0, Joining(1, 1)) && 1 !in k.blocks && 1 in Done(k)
  {
    var k := Apply(WaitingAgain(), ExitWake(1));
    assert [ExitWake(1)][1..] == [] && IsRun(k, []);
    assert k.joins[0] in k.joins;
  }

  /** The parent joins its child again before the child, let go by the first Join, has got to Remove: the
      test that the process exists is passed, and the parent waits on a semaphore that is then deleted. */
  lemma JoinAgain(k: State)
    requires Initial(k)
    ensures var s := [Exec(0, 1), Join(0, 1)] + [Exit(1, 0), JoinWake(0)] + [JoinRead(0), Join(0, 1)] + [ExitWake(1)];
      IsRun(k, s) && At(After(k, s), 0, Joining(1, 1)) && 1 !in After(k, s).blocks && 1 in Done(After(k, s))
  {
    AgainWaits(k);
    AgainWakes();
    AgainReads();
    AgainGoes();
    var a, b, c, d := [Exec(0, 1), Join(0, 1)], [Exit(1, 0), JoinWake(0)], [JoinRead(0), Join(0, 1)], [ExitWake(1)];
    Chained(k, a, b);
    Chained(k, a + b, c);
    Chained(k, a + b + c, d);
  }

  /** Process 1 has exited with the code 7 and process 0 is about to read it. */
  function WokenBySeven(): State {
    Woken().(blocks := map[0 := MAIN, 1 := Pcb(1, 0, 7, 0, 0, 0)], codes := map[1 := 7])
  }

  lemma SevenWakes()
    ensures var s := [Exit(1, 7), JoinWake(0)]; IsRun(Waiting(), s) && After(Waiting(), s) == WokenBySeven()
  {
    TwoSteps(Waiting(), Exit(1, 7), JoinWake(0));
  }

  lemma SevenStays()
    ensures IsRun(WokenBySeven(), [JoinRead(0)])
    ensures var k := After(WokenBySeven(), [JoinRead(0)]);
      At(k, 1, Exiting) && 1 in k.marked && At(k, 0, Running) && !Enabled(k, ExitWake(1))
  {
    var k := Apply(WokenBySeven(), JoinRead(0));
    assert [JoinRead(0)][1..] == [] && IsRun(k, []);
  }

  /** A run after which a process that has exited is there to stay: its parent joined it and got the code 7. */
  lemma NeverGoes(k: State)
    requires Initial(k)
    ensures var s := [Exec(0, 1), Join(0, 1)] + [Exit(1, 7), JoinWake(0)] + [JoinRead(0)];
      IsRun(k, s) && At(After(k, s), 1, Exiting) && 1 in After(k, s).marked && At(After(k, s), 0, Running) &&
      !Enabled(After(k, s), ExitWake(1))
  {
    AgainWaits(k);
    SevenWakes();
    SevenStays();
    var a, b, c := [Exec(0, 1), Join(0, 1)], [Exit(1, 7), JoinWake(0)], [JoinRead(0)];
    Chained(k, a, b);
    Chained(k, a + b, c);
  }

  /** Process 0 has made process 1, which has made process 2. */
  function Family(): State {
    State(Slots(Some(1), Some(2)), {0, 1, 2}, map[0 := MAIN, 1 := Pcb(1, 0, 0, -1, 0, 0), 2 := Pcb(2, 1, 0, -1, 0, 0)],
          map[0 := Proc(0, Running), 1 := Proc(1, Running), 2 := Proc(2, Running)], map[], [], 3, map[1 := 0, 2 := 1])
  }

  /** Process 1 has gone. */
  function Orphaned(): State {
    State(Slots(Some(1), Some(2)), {0, 2}, map[0 := MAIN, 2 := Pcb(2, 1, 0, -1, 0, 0)],
          map[0 := Proc(0, Running), 1 := Proc(1, Gone), 2 := Proc(2, Running)], map[1 := 0], [], 3, map[1 := 0, 2 := 1])
  }

  /** Process 3 has its number. */
  function Recycled(): State {
    State(Slots(Some(3), Some(2)), {0, 1, 2}, map[0 := MAIN, 3 := Pcb(1, 0, 0, -1, 0, 0), 2 := Pcb(2, 1, 0, -1, 0, 0)],
          map[0 := Proc(0, Running), 1 := Proc(1, Gone), 2 := Proc(2, Running), 3 := Proc(1, Running)],
          map[1 := 0], [], 4, map[1 := 0, 2 := 1, 3 := 0])
  }

  /** Process 3 waits for process 2, which has exited. */
  function StrangerWaits(): State {
    State(Slots(Some(3), Some(2)), {0, 1, 2}, map[0 := MAIN, 3 := Pcb(1, 0, 0, -1, 0, 0), 2 := Pcb(2, 1, 0, 1, 1, 0)],
          map[0 := Proc(0, Running), 1 := Proc(1, Gone), 2 := Proc(2, Exiting), 3 := Proc(1, Joining(2, 2))],
          map[1 := 0, 2 := 0], [], 4, map[1 := 0, 2 := 1, 3 := 0])
  }

  lemma StrangerFamily(k: State)
    requires Initial(k)
    ensures var s := [Exec(0, 1), Exec(1, 2)]; IsRun(k, s) && After(k, s) == Family()
  {
    TwoSteps(k, Exec(0, 1), Exec(1, 2));
  }

  lemma StrangerRecycles()
    ensures var s := [Exit(1, 0), Exec(0, 1)]; IsRun(Family(), s) && After(Family(), s) == Recycled()
  {
    ParentExits();
    NumberIsTaken();
    TwoSteps(Family(), Exit(1, 0), Exec(0, 1));
  }

  lemma ParentExits()
    ensures Enabled(Family(), Exit(1, 0)) && Apply(Family(), Exit(1, 0)) == Orphaned()
  {
  }

  lemma NumberIsTaken()
    ensures Enabled(Orphaned(), Exec(0, 1)) && Apply(Orphaned(), Exec(0, 1)) == Recycled()
  {
  }

  lemma StrangerEnters()
    ensures var s := [Join(3, 2), Exit(2, 0)]; IsRun(Recycled(), s) && After(Recycled(), s) == StrangerWaits()
  {
    TwoSteps(Recycled(), Join(3, 2), Exit(2, 0));
  }

  lemma StrangerReads()
    ensures IsRun(StrangerWaits(), [JoinWake(3), JoinRead(3)])
    ensures var k := After(StrangerWaits(), [JoinWake(3), JoinRead(3)]);
      k.joins == [Joined(2, 3, 0, 0)] && 2 in k.makers && k.makers[2] == 1
  {
    TwoSteps(StrangerWaits(), JoinWake(3), JoinRead(3));
  }

  /** A number used again lets a stranger in: process 1 makes process 2 and exits; process 3 gets the number 1
      and joins process 2, which it did not make. */
  lemma StrangerJoins(k: State)
    requires Initial(k)
    ensures var s := [Exec(0, 1), Exec(1, 2)] + [Exit(1, 0), Exec(0, 1)] + [Join(3, 2), Exit(2, 0)] + [JoinWake(3), JoinRead(3)];
      IsRun(k, s) && After(k, s).joins == [Joined(2, 3, 0, 0)] && 2 in After(k, s).makers && After(k, s).makers[2] == 1
  {
    StrangerFamily(k);
    StrangerRecycles();
    StrangerEnters();
    StrangerReads();
    var a, b, c, d := [Exec(0, 1), Exec(1, 2)], [Exit(1, 0), Exec(0, 1)], [Join(3, 2), Exit(2, 0)], [JoinWake(3), JoinRead(3)];
    Chained(k, a, b);
    Chained(k, a + b, c);
    Chained(k, a + b + c, d);
  }

  // ---- the same, counted from the steps -------------------------------------------------------------

  /** The Execs of a run: who made a process, and the number it got. */
  function Execs(steps: seq<Step>): seq<(Block, int)> {
    if steps == [] then [] else (if steps[0].Exec? then [(steps[0].p, steps[0].id)] else []) + Execs(steps[1..])
  }

  /** The processes whose Joins read an exit code, in order. */
  function Reads(steps: seq<Step>): seq<Block> {
    if steps == [] then [] else (if steps[0].JoinRead? then [steps[0].p] else []) + Reads(steps[1..])
  }

  function Joiners(joins: seq<Joined>): seq<Block> {
    if joins == [] then [] else Joiners(joins[..|joins| - 1]) + [joins[|joins| - 1].joiner]
  }

  lemma JoinersAppend(joins: seq<Joined>, j: Joined)
    ensures Joiners(joins + [j]) == Joiners(joins) + [j.joiner]
  {
    assert (joins + [j])[..|joins|] == joins;
  }

  lemma JoinersStep(k: State, step: Step)
    requires Inv(k) && Enabled(k, step)
    ensures Joiners(Apply(k, step).joins) == Joiners(k.joins) + (if step.JoinRead? then [step.p] else [])
  {
    if step.JoinRead? {
      JoinReadIs(k, step.p);
      var k' := Apply(k, step);
      assert k'.joins == k.joins + [k'.joins[|k.joins|]];
      JoinersAppend(k.joins, k'.joins[|k.joins|]);
    } else {
      assert Apply(k, step).joins == k.joins;
      assert Joiners(k.joins) + [] == Joiners(k.joins);
    }
  }

  lemma CodesStep(k: State, step: Step, b: Block)
    requires Enabled(k, step)
    ensures b in Apply(k, step).codes <==> b in k.codes || (step.Exit? && step.p == b)
    ensures b in Apply(k, step).codes ==>
      Apply(k, step).codes[b] == if step.Exit? && step.p == b then step.ec else k.codes[b]
  {
  }

  lemma MadeStep(k: State, step: Step, b: Block)
    requires Enabled(k, step)
    ensures Apply(k, step).made == k.made + (if step.Exec? then 1 else 0)
    ensures step.Exec? ==> var k' := Apply(k, step);
      k.made in k'.makers && k'.makers[k.made] == step.p && k.made in k'.procs && k'.procs[k.made].pid == step.id
    ensures b != k.made && b in k.makers ==> b in Apply(k, step).makers && Apply(k, step).makers[b] == k.makers[b]
    ensures b != k.made && b in k.procs ==> b in Apply(k, step).procs && Apply(k, step).procs[b].pid == k.procs[b].pid
  {
  }

  /** The code of a process's Exit in a run, if there is one. */
  function CodeIn(steps: seq<Step>, b: Block): Option<int> {
    if steps == [] then None
    else if steps[0].Exit? && steps[0].p == b then Some(steps[0].ec)
    else CodeIn(steps[1..], b)
  }

  lemma {:induction false} RunReads(k: State, steps: seq<Step>)
    requires Inv(k) && IsRun(k, steps)
    ensures Joiners(After(k, steps).joins) == Joiners(k.joins) + Reads(steps)
    decreases steps
  {
    if steps != [] {
      StepKeepsInv(k, steps[0]);
      JoinersStep(k, steps[0]);
      RunReads(Apply(k, steps[0]), steps[1..]);
      Regroup(Joiners(k.joins), if steps[0].JoinRead? then [steps[0].p] else [], Reads(steps[1..]));
    }
  }

  lemma Regroup(a: seq<Block>, b: seq<Block>, c: seq<Block>)
    ensures (a + b) + c == a + (b + c)
  {
  }

  /** A process has a code once it has called Exit, and it is the one it gave. */
  lemma {:induction false} RunCodes(k: State, steps: seq<Step>, b: Block)
    requires Inv(k) && IsRun(k, steps)
    ensures b in k.codes ==> b in After(k, steps).codes && After(k, steps).codes[b] == k.codes[b]
    ensures b !in k.codes ==> (b in After(k, steps).codes <==> CodeIn(steps, b).Some?)
    ensures b !in k.codes && CodeIn(steps, b).Some? ==> After(k, steps).codes[b] == CodeIn(steps, b).value
    decreases steps
  {
    if steps != [] {
      StepKeepsInv(k, steps[0]);
      CodesStep(k, steps[0], b);
      ExitsOnce(k, steps[0], b);
      RunCodes(Apply(k, steps[0]), steps[1..], b);
    }
  }

  lemma ExitsOnce(k: State, step: Step, b: Block)
    requires Inv(k) && Enabled(k, step)
    ensures step.Exit? && step.p == b ==> b !in k.codes
  {
    if step.Exit? && step.p == b {
      assert HandshakeOk(k, b);
    }
  }

  /** The processes are those of the Execs: the i-th one made, its maker and its number. */
  lemma {:induction false} RunMakes(k: State, steps: seq<Step>, i: nat)
    requires IsRun(k, steps) && i < |Execs(steps)|
    ensures var k', b := After(k, steps), k.made + i;
      && k'.made == k.made + |Execs(steps)|
      && b in k'.makers && k'.makers[b] == Execs(steps)[i].0 && b in k'.procs && k'.procs[b].pid == Execs(steps)[i].1
    decreases steps
  {
    var k1, rest := Apply(k, steps[0]), steps[1..];
    MadeStep(k, steps[0], 0);
    if steps[0].Exec? && i == 0 {
      MadeStays(k1, rest, k.made);
    } else {
      RunMakes(k1, rest, if steps[0].Exec? then i - 1 else i);
    }
  }

  lemma {:induction false} MadeStays(k: State, steps: seq<Step>, b: Block)
    requires IsRun(k, steps) && b < k.made
    ensures After(k, steps).made == k.made + |Execs(steps)|
    ensures b in k.makers ==> b in After(k, steps).makers && After(k, steps).makers[b] == k.makers[b]
    ensures b in k.procs ==> b in After(k, steps).procs && After(k, steps).procs[b].pid == k.procs[b].pid
    decreases steps
  {
    if steps != [] {
      MadeStep(k, steps[0], b);
      MadeStays(Apply(k, steps[0]), steps[1..], b);
    }
  }

  /** Over every run from the start: the i-th Exec made process i + 1, with that maker and that number. */
  lemma ProcessesAreLogged(k: State, steps: seq<Step>, i: nat)
    requires Initial(k) && IsRun(k, steps) && i < |Execs(steps)|
    ensures var k' := After(k, steps);
      && i + 1 in k'.makers && k'.makers[i + 1] == Execs(steps)[i].0
      && i + 1 in k'.procs && k'.procs[i + 1].pid == Execs(steps)[i].1
  {
    RunMakes(k, steps, i);
  }

  /** The i-th Join to return is that of the i-th reader; it saw the code its child gave to Exit, and returned 0
      exactly for 0. */
  lemma JoinsAreLogged(k: State, steps: seq<Step>, i: nat)
    requires Initial(k) && IsRun(k, steps)
    ensures |After(k, steps).joins| == |Reads(steps)|
    ensures i < |Reads(steps)| ==> var j := After(k, steps).joins[i];
      j.joiner == Reads(steps)[i] && CodeIn(steps, j.child) == Some(j.seen) && j.result == (if j.seen == 0 then 0 else -1)
  {
    InitialInv(k);
    RunReads(k, steps);
    JoinersLength(After(k, steps).joins, i);
    assert Joiners(k.joins) == [];
    if i < |Reads(steps)| {
      RunKeepsInv(k, steps);
      assert Truthful(After(k, steps), After(k, steps).joins[i]);
      RunCodes(k, steps, After(k, steps).joins[i].child);
    }
  }

  lemma {:induction false} JoinersLength(joins: seq<Joined>, i: nat)
    ensures |Joiners(joins)| == |joins| && (i < |joins| ==> Joiners(joins)[i] == joins[i].joiner)
  {
    if joins != [] {
      JoinersLength(joins[..|joins| - 1], i);
    }
  }

  /** Join lets a process in exactly if all tests are passed, and then for the process in that slot; otherwise it
      returns at once with nothing changed. */
  lemma JoinEnters(k: State, p: Block, id: int)
    requires Enabled(k, Join(p, id))
    ensures MayJoin(k, p, id) ==> At(Apply(k, Join(p, id)), p, Joining(id, k.slots[id].value))
    ensures !MayJoin(k, p, id) ==> Apply(k, Join(p, id)) == k
    ensures MayJoin(k, p, id) <==> 0 < id < MAX_PROCESS && id in k.marked && Deref(k, id).Some? && Deref(k, id).value.parentID == k.procs[p].pid
  {
  }

  /** What a process can do next. */
  lemma NextOf(k: State, p: Block, id: int, ec: int)
    requires Inv(k) && Past(k) && p in k.procs
    ensures Enabled(k, Exec(p, id)) <==> At(k, p, Running) && 0 <= id < MAX_PROCESS && id !in k.marked
    ensures Enabled(k, Join(p, id)) <==> At(k, p, Running)
    ensures Enabled(k, Exit(p, ec)) <==> At(k, p, Running) && k.procs[p].pid != 0
    ensures Enabled(k, JoinRead(p)) <==> k.procs[p].pc.Reading?
  {
  }
}
