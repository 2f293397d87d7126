/**
 The redo log of kernel/log.c as a state machine whose steps are single block
 writes, critical sections of log.lock, and crashes. A disk block is atomic: a
 crash falls between two block writes and loses everything but the disk.
 */
module RedoLog {

  /** A block as the array of words that the log header overlays. */
  type Block = seq<nat>

  /**
   Geometry of the disk and of the log. `start` and `nlog` are the superblock's
   logstart and nlog, `logSize` and `maxOp` are LOGSIZE and MAXOPBLOCKS.
   */
  datatype Layout = Layout(size: nat, start: nat, nlog: nat, logSize: nat, maxOp: nat) {
    predicate Valid() {
      1 <= nlog && start + nlog <= size && 1 <= maxOp <= logSize
    }

    /** A block outside the log area. */
    predicate Home(b: int) {
      0 <= b < size && !(start <= b < start + nlog)
    }

    /** The number of data blocks that both guards of log_write allow. */
    function Capacity(): nat
      requires Valid()
    {
      if logSize <= nlog - 1 then logSize else nlog - 1
    }
  }

  /** One FS operation between begin_op and end_op, with the blocks it has appended. */
  datatype Op = Op(id: nat, used: nat)

  /** One log_write: which operation wrote what where. */
  datatype Write = Write(op: nat, block: nat, data: Block)

  /**
   Where the log code is. `Copy` is write_log, `Install` is install_trans(0),
   `Finish` is the tail of end_op; `Boot` to `Redo` are recover_from_log.
   */
  datatype Phase =
    | Running
    | Copy(tail: nat)
    | Install(tail: nat)
    | Finish
    | Boot
    | Redo(tail: nat)

  /**
   `disk` survives a crash. `mem` is what bread returns for home blocks, `lh`
   the in-memory header, `pins` the blocks that bpin holds in the cache. `base`, `hist`
   and `durable` are history: the home blocks at the first boot, every
   log_write since then that was not lost, and how many of those a header
   write has made durable.
   */
  datatype State = State(
    disk: seq<Block>,
    mem: seq<Block>,
    lh: seq<nat>,
    pins: set<nat>,
    active: seq<Op>,
    committing: bool,
    sleepers: set<nat>,
    phase: Phase,
    nextOp: nat,
    base: seq<Block>,
    hist: seq<Write>,
    durable: nat)

  // ----- The on-disk header -----

  /** The block list that read_head finds in the header block. */
  function Header(L: Layout, disk: seq<Block>): (h: seq<nat>)
    requires L.Valid() && |disk| == L.size
  {
    var w := disk[L.start];
    if |w| == 0 || w[0] >= |w| then [] else w[1..1 + w[0]]
  }

  /** What write_head leaves in the header block that held `prior`. */
  function EncodeHead(prior: Block, lh: seq<nat>): (w: Block)
    requires |lh| < |prior|
  {
    [|lh|] + lh + prior[1 + |lh|..]
  }

  lemma HeaderRoundTrip(L: Layout, disk: seq<Block>, lh: seq<nat>)
    requires L.Valid() && |disk| == L.size && |lh| < |disk[L.start]|
    ensures Header(L, disk[L.start := EncodeHead(disk[L.start], lh)]) == lh
  {
    var w := EncodeHead(disk[L.start], lh);
    assert w[1..1 + |lh|] == lh;
  }

  /** The log block that holds the `i`th listed block. */
  function LogBlock(L: Layout, disk: seq<Block>, i: int): Block
    requires L.Valid() && |disk| == L.size && 0 <= i < L.nlog - 1
  {
    disk[L.start + 1 + i]
  }

  predicate Distinct(s: seq<nat>) {
    forall i, j :: 0 <= i < j < |s| ==> s[i] != s[j]
  }

  function Elems(s: seq<nat>): set<nat> {
    set x | x in s
  }

  /** A block list that log_write can have produced. */
  predicate GoodList(L: Layout, h: seq<nat>)
    requires L.Valid()
  {
    |h| <= L.Capacity() && Distinct(h) && forall i :: 0 <= i < |h| ==> L.Home(h[i])
  }

  // ----- What a disk means -----

  /** Block `b` of the disk after the listed log blocks are copied home in order. */
  function Value(L: Layout, disk: seq<Block>, h: seq<nat>, b: nat): (v: Block)
    requires L.Valid() && |disk| == L.size && |h| <= L.nlog - 1 && b < L.size
    decreases |h|
  {
    if h == [] then disk[b]
    else if h[|h| - 1] == b then disk[L.start + |h|]
    else Value(L, disk, h[..|h| - 1], b)
  }

  /** Home block `b` as recovery from this disk would leave it. */
  function Recovered(L: Layout, disk: seq<Block>, b: nat): (v: Block)
    requires L.Valid() && |disk| == L.size && GoodList(L, Header(L, disk)) && b < L.size
  {
    Value(L, disk, Header(L, disk), b)
  }

  /** The home blocks after a sequence of writes. */
  function Apply(base: seq<Block>, ws: seq<Write>): (r: seq<Block>)
    requires forall i :: 0 <= i < |ws| ==> ws[i].block < |base|
    ensures |r| == |base|
  {
    if ws == [] then base
    else
      var w := ws[|ws| - 1];
      Apply(base, ws[..|ws| - 1])[w.block := w.data]
  }

  lemma ApplyAppend(base: seq<Block>, ws: seq<Write>, w: Write)
    requires forall i :: 0 <= i < |ws| ==> ws[i].block < |base|
    requires w.block < |base|
    ensures Apply(base, ws + [w]) == Apply(base, ws)[w.block := w.data]
  {
    assert (ws + [w])[..|ws|] == ws;
  }

  /** Replay never looks at the home copy of a block that the list names. */
  lemma {:induction false} ValueOfListed(L: Layout, disk: seq<Block>, h: seq<nat>, i: nat)
    requires L.Valid() && |disk| == L.size && GoodList(L, h) && i < |h|
    ensures Value(L, disk, h, h[i]) == LogBlock(L, disk, i)
    decreases |h|
  {
    if i < |h| - 1 {
      assert h[..|h| - 1][i] == h[i];
      ValueOfListed(L, disk, h[..|h| - 1], i);
    }
  }

  lemma {:induction false} ValueOfUnlisted(L: Layout, disk: seq<Block>, h: seq<nat>, b: nat)
    requires L.Valid() && |disk| == L.size && |h| <= L.nlog - 1 && b < L.size && b !in h
    ensures Value(L, disk, h, b) == disk[b]
    decreases |h|
  {
    if h != [] {
      assert h[|h| - 1] in h;
      ValueOfUnlisted(L, disk, h[..|h| - 1], b);
    }
  }

  /** Two disks that agree on the log blocks and on unlisted home blocks replay alike. */
  lemma ValueAgrees(L: Layout, d: seq<Block>, e: seq<Block>, h: seq<nat>, b: nat)
    requires L.Valid() && |d| == |e| == L.size && GoodList(L, h) && L.Home(b)
    requires forall i :: 0 <= i < |h| ==> LogBlock(L, d, i) == LogBlock(L, e, i)
    requires b !in h ==> d[b] == e[b]
    ensures Value(L, d, h, b) == Value(L, e, h, b)
  {
    if b in h {
      var i :| 0 <= i < |h| && h[i] == b;
      ValueOfListed(L, d, h, i);
      ValueOfListed(L, e, h, i);
    } else {
      ValueOfUnlisted(L, d, h, b);
      ValueOfUnlisted(L, e, h, b);
    }
  }

  // ----- Steps -----

  /** Log space that outstanding operations may still claim. */
  function Unused(L: Layout, ops: seq<Op>): int {
    if ops == [] then 0 else Unused(L, ops[..|ops| - 1]) + (L.maxOp - ops[|ops| - 1].used)
  }

  /** The admission test of begin_op. */
  predicate Admits(L: Layout, s: State) {
    !s.committing && |s.lh| + (|s.active| + 1) * L.maxOp <= L.logSize
  }

  /** The guards on which log_write panics. */
  predicate LogWritePanics(L: Layout, s: State) {
    |s.lh| >= L.logSize || |s.lh| >= L.nlog - 1 || |s.active| < 1
  }

  ghost predicate Init(L: Layout, s: State) {
    && L.Valid()
    && |s.disk| == L.size && L.logSize < |s.disk[L.start]|
    && GoodList(L, Header(L, s.disk))
    && |s.base| == L.size
    && (forall b {:trigger L.Home(b)} :: L.Home(b) ==> s.base[b] == Recovered(L, s.disk, b))
    && s == State(s.disk, s.disk, [], {}, [], false, {}, Boot, s.nextOp, s.base, [], 0)
  }

  /** begin_op passes its admission test. */
  predicate BeginOp(L: Layout, s: State, s': State) {
    && !s.phase.Boot? && !s.phase.Redo?
    && Admits(L, s)
    && s' == s.(active := s.active + [Op(s.nextOp, 0)], nextOp := s.nextOp + 1)
  }

  /** begin_op fails its admission test and sleeps on the log. */
  predicate BeginSleep(L: Layout, s: State, s': State, pid: nat) {
    && !s.phase.Boot? && !s.phase.Redo?
    && !Admits(L, s)
    && s' == s.(sleepers := s.sleepers + {pid})
  }

  /**
   log_write of block `b` with new contents `v` by the `k`th outstanding
   operation, which does not append more than maxOp blocks.
   */
  predicate LogWrite(L: Layout, s: State, s': State, k: nat, b: nat, v: Block) {
    && s.phase.Running?
    && k < |s.active| && L.Home(b) && b < |s.mem|
    && !LogWritePanics(L, s)
    && var t := s.(mem := s.mem[b := v], hist := s.hist + [Write(s.active[k].id, b, v)]);
       if b in s.lh then s' == t
       else
         && s.active[k].used < L.maxOp
         && s' == t.(lh := s.lh + [b],
                     pins := s.pins + {b},
                     active := s.active[k := Op(s.active[k].id, s.active[k].used + 1)])
  }

  /** end_op of the `k`th operation while others are outstanding. */
  predicate EndOp(s: State, s': State, k: nat) {
    && s.phase.Running?
    && k < |s.active| && |s.active| > 1 && !s.committing
    && s' == s.(active := s.active[..k] + s.active[k + 1..], sleepers := {})
  }

  /** end_op of the last operation: start the commit, if there is anything to commit. */
  predicate EndLastOp(s: State, s': State) {
    && s.phase.Running? && |s.active| == 1 && !s.committing
    && s' == s.(active := [], committing := true, phase := if |s.lh| > 0 then Copy(0) else Finish)
  }

  /** One iteration of write_log. */
  predicate CopyBlock(L: Layout, s: State, s': State) {
    && s.phase.Copy? && s.phase.tail < |s.lh|
    && var t := s.phase.tail;
    && s.lh[t] < |s.mem| && L.start + 1 + t < |s.disk|
    && s' == s.(disk := s.disk[L.start + 1 + t := s.mem[s.lh[t]]], phase := Copy(t + 1))
  }

  /** The header write that commits. */
  predicate CommitHead(L: Layout, s: State, s': State) {
    && s.phase.Copy? && s.phase.tail == |s.lh|
    && L.start < |s.disk| && |s.lh| < |s.disk[L.start]|
    && s' == s.(disk := s.disk[L.start := EncodeHead(s.disk[L.start], s.lh)],
                phase := Install(0), durable := |s.hist|)
  }

  /** One iteration of install_trans(0). */
  predicate InstallBlock(L: Layout, s: State, s': State) {
    && s.phase.Install? && s.phase.tail < |s.lh|
    && var t := s.phase.tail;
    && s.lh[t] < |s.disk| && s.lh[t] < |s.mem| && L.start + 1 + t < |s.disk|
    && var v := s.disk[L.start + 1 + t];
    && s' == s.(disk := s.disk[s.lh[t] := v], mem := s.mem[s.lh[t] := v],
                pins := s.pins - {s.lh[t]}, phase := Install(t + 1))
  }

  /** The header write that erases the transaction. */
  predicate EraseHead(L: Layout, s: State, s': State) {
    && s.phase.Install? && s.phase.tail == |s.lh|
    && L.start < |s.disk| && 0 < |s.disk[L.start]|
    && s' == s.(disk := s.disk[L.start := EncodeHead(s.disk[L.start], [])], lh := [], phase := Finish)
  }

  /** end_op after commit() returns. */
  predicate FinishCommit(s: State, s': State) {
    && s.phase.Finish?
    && s' == s.(committing := false, sleepers := {}, phase := Running)
  }

  /** A crash: only the disk survives, and writes that were not durable are gone. */
  predicate Crash(s: State, s': State) {
    && s.durable <= |s.hist|
    && s' == State(s.disk, s.disk, [], {}, [], false, {}, Boot, s.nextOp,
                   s.base, s.hist[..s.durable], s.durable)
  }

  /** read_head during recovery. */
  predicate ReadHead(L: Layout, s: State, s': State) {
    && s.phase.Boot?
    && L.Valid() && |s.disk| == L.size
    && s' == s.(lh := Header(L, s.disk), phase := Redo(0))
  }

  /** One iteration of install_trans(1). */
  predicate RedoBlock(L: Layout, s: State, s': State) {
    && s.phase.Redo? && s.phase.tail < |s.lh|
    && var t := s.phase.tail;
    && s.lh[t] < |s.disk| && s.lh[t] < |s.mem| && L.start + 1 + t < |s.disk|
    && var v := s.disk[L.start + 1 + t];
    && s' == s.(disk := s.disk[s.lh[t] := v], mem := s.mem[s.lh[t] := v], phase := Redo(t + 1))
  }

  /** The last step of recover_from_log. */
  predicate RedoDone(L: Layout, s: State, s': State) {
    && s.phase.Redo? && s.phase.tail == |s.lh|
    && L.start < |s.disk| && 0 < |s.disk[L.start]|
    && s' == s.(disk := s.disk[L.start := EncodeHead(s.disk[L.start], [])], lh := [], phase := Running)
  }

  /** What happened in a step. */
  datatype Event =
    | BeginEvent
    | SleepEvent(pid: nat)
    | WriteEvent(k: nat, b: nat, v: Block)
    | EndEvent(op: nat)
    | EndLastEvent
    | CopyEvent
    | CommitEvent
    | InstallEvent
    | EraseEvent
    | FinishEvent
    | CrashEvent
    | ReadHeadEvent
    | RedoEvent
    | RedoDoneEvent

  predicate Next(L: Layout, s: State, s': State, e: Event) {
    || (e.BeginEvent? && BeginOp(L, s, s'))
    || (e.SleepEvent? && BeginSleep(L, s, s', e.pid))
    || (e.WriteEvent? && LogWrite(L, s, s', e.k, e.b, e.v))
    || (e.EndEvent? && EndOp(s, s', e.op))
    || (e.EndLastEvent? && EndLastOp(s, s'))
    || (e.CopyEvent? && CopyBlock(L, s, s'))
    || (e.CommitEvent? && CommitHead(L, s, s'))
    || (e.InstallEvent? && InstallBlock(L, s, s'))
    || (e.EraseEvent? && EraseHead(L, s, s'))
    || (e.FinishEvent? && FinishCommit(s, s'))
    || (e.CrashEvent? && Crash(s, s'))
    || (e.ReadHeadEvent? && ReadHead(L, s, s'))
    || (e.RedoEvent? && RedoBlock(L, s, s'))
    || (e.RedoDoneEvent? && RedoDone(L, s, s'))
  }

  ghost predicate Step(L: Layout, s: State, s': State) {
    exists e :: Next(L, s, s', e)
  }

  /** Every interleaving of operations, commits, crashes and recoveries. */
  ghost predicate IsRun(L: Layout, run: seq<State>) {
    |run| > 0 && forall i :: 0 <= i < |run| ==> StepAt(L, run, i)
  }

  ghost predicate StepAt(L: Layout, run: seq<State>, i: int)
    requires 0 <= i < |run|
  {
    if i == 0 then Init(L, run[0]) else Step(L, run[i - 1], run[i])
  }

  // ----- The invariant -----

  predicate Shape(L: Layout, s: State) {
    && L.Valid()
    && |s.disk| == |s.mem| == |s.base| == L.size
    && L.logSize < |s.disk[L.start]|
    && s.durable <= |s.hist|
    && (forall i :: 0 <= i < |s.hist| ==> L.Home(s.hist[i].block))
    && GoodList(L, s.lh)
    && GoodList(L, Header(L, s.disk))
  }

  /** Recovery from the present disk would leave exactly the durable writes. */
  ghost predicate Redoable(L: Layout, s: State)
    requires Shape(L, s)
  {
    forall b {:trigger L.Home(b)} :: L.Home(b) ==> Recovered(L, s.disk, b) == Apply(s.base, s.hist[..s.durable])[b]
  }

  /** bread sees every write that has not been lost. */
  ghost predicate Current(L: Layout, s: State)
    requires Shape(L, s)
  {
    forall b {:trigger L.Home(b)} :: L.Home(b) ==> s.mem[b] == Apply(s.base, s.hist)[b]
  }

  /** Operation ids are fresh, and no operation has writes on both sides of `durable`. */
  predicate OpsWhole(s: State)
    requires s.durable <= |s.hist|
  {
    && (forall k, m :: 0 <= k < m < |s.active| ==> s.active[k].id != s.active[m].id)
    && (forall k :: 0 <= k < |s.active| ==> s.active[k].id < s.nextOp)
    && (forall i :: 0 <= i < |s.hist| ==> s.hist[i].op < s.nextOp)
    && (forall i, k :: 0 <= i < s.durable && 0 <= k < |s.active| ==> s.hist[i].op != s.active[k].id)
    && (forall i, j :: 0 <= i < s.durable <= j < |s.hist| ==> s.hist[i].op != s.hist[j].op)
  }

  /** Space is reserved, and nobody sleeps who could be admitted. */
  predicate Reserved(L: Layout, s: State) {
    && (forall k :: 0 <= k < |s.active| ==> s.active[k].used <= L.maxOp)
    && (s.active != [] ==> |s.lh| + Unused(L, s.active) <= L.logSize)
    && (s.sleepers != {} ==> !Admits(L, s))
    && (s.committing ==> s.active == [])
  }

  /** The home blocks outside the list are clean. */
  ghost predicate CleanOutside(L: Layout, s: State)
    requires |s.disk| == |s.mem| == L.size
  {
    forall b {:trigger L.Home(b)} :: L.Home(b) && b !in s.lh ==> s.mem[b] == s.disk[b]
  }

  /** The first `n` log blocks hold the listed blocks as bread sees them. */
  predicate Copied(L: Layout, s: State, n: nat)
    requires Shape(L, s) && n <= |s.lh|
  {
    forall i :: 0 <= i < n ==> LogBlock(L, s.disk, i) == s.mem[s.lh[i]]
  }

  predicate Installed(L: Layout, s: State, n: nat)
    requires Shape(L, s) && n <= |s.lh|
  {
    forall i :: 0 <= i < n ==> s.disk[s.lh[i]] == s.mem[s.lh[i]]
  }

  ghost predicate AtPhase(L: Layout, s: State)
    requires Shape(L, s)
  {
    match s.phase
    case Running =>
      && !s.committing && s.pins == Elems(s.lh)
      && Header(L, s.disk) == [] && CleanOutside(L, s)
      && (s.lh == [] ==> s.durable == |s.hist|)
    case Copy(n) =>
      && s.committing && s.pins == Elems(s.lh)
      && Header(L, s.disk) == [] && CleanOutside(L, s)
      && n <= |s.lh| && Copied(L, s, n)
    case Install(n) =>
      && s.committing && n <= |s.lh| && s.pins == Elems(s.lh[n..])
      && Header(L, s.disk) == s.lh && CleanOutside(L, s)
      && Copied(L, s, |s.lh|) && Installed(L, s, n) && s.durable == |s.hist|
    case Finish =>
      && s.committing && s.pins == {} && s.lh == []
      && Header(L, s.disk) == [] && CleanOutside(L, s) && s.durable == |s.hist|
    case Boot =>
      && !s.committing && s.pins == {} && s.active == [] && s.sleepers == {} && s.lh == []
      && s.mem == s.disk && s.durable == |s.hist|
    case Redo(n) =>
      && !s.committing && s.pins == {} && s.active == [] && s.sleepers == {}
      && n <= |s.lh| && Header(L, s.disk) == s.lh && s.mem == s.disk
      && (forall i :: 0 <= i < n ==> s.disk[s.lh[i]] == LogBlock(L, s.disk, i))
      && s.durable == |s.hist|
  }

  ghost predicate Inv(L: Layout, s: State) {
    && Shape(L, s)
    && Redoable(L, s)
    && (s.phase.Boot? || s.phase.Redo? || Current(L, s))
    && OpsWhole(s)
    && Reserved(L, s)
    && AtPhase(L, s)
  }

  // ----- Every step keeps the invariant -----

  lemma InitInv(L: Layout, s: State)
    requires Init(L, s)
    ensures Inv(L, s)
  {
  }

  lemma {:induction false} UnusedSplit(L: Layout, a: seq<Op>, b: seq<Op>)
    ensures Unused(L, a + b) == Unused(L, a) + Unused(L, b)
    decreases |b|
  {
    if b == [] {
      assert a + b == a;
    } else {
      assert (a + b)[..|a + b| - 1] == a + b[..|b| - 1];
      UnusedSplit(L, a, b[..|b| - 1]);
    }
  }

  lemma {:induction false} UnusedBounds(L: Layout, ops: seq<Op>)
    requires forall k :: 0 <= k < |ops| ==> ops[k].used <= L.maxOp
    ensures 0 <= Unused(L, ops) <= |ops| * L.maxOp
  {
    if ops != [] {
      UnusedBounds(L, ops[..|ops| - 1]);
      assert |ops| * L.maxOp == (|ops| - 1) * L.maxOp + L.maxOp;
    }
  }

  lemma UnusedAt(L: Layout, ops: seq<Op>, k: nat)
    requires k < |ops|
    ensures Unused(L, ops) == Unused(L, ops[..k]) + (L.maxOp - ops[k].used) + Unused(L, ops[k + 1..])
  {
    assert ops == ops[..k] + ([ops[k]] + ops[k + 1..]);
    UnusedSplit(L, ops[..k], [ops[k]] + ops[k + 1..]);
    UnusedSplit(L, [ops[k]], ops[k + 1..]);
    assert [ops[k]][..0] == [];
  }

  lemma BeginOpInv(L: Layout, s: State, s': State)
    requires Inv(L, s) && BeginOp(L, s, s')
    ensures Inv(L, s')
  {
    UnusedBounds(L, s.active);
    UnusedSplit(L, s.active, [Op(s.nextOp, 0)]);
    assert [Op(s.nextOp, 0)][..0] == [];
    assert (|s.active| + 1) * L.maxOp == |s.active| * L.maxOp + L.maxOp;
  }

  lemma BeginSleepInv(L: Layout, s: State, s': State, pid: nat)
    requires Inv(L, s) && BeginSleep(L, s, s', pid)
    ensures Inv(L, s')
  {
  }

  lemma LogWriteReserved(L: Layout, s: State, s': State, k: nat, b: nat, v: Block)
    requires Shape(L, s) && Reserved(L, s) && LogWrite(L, s, s', k, b, v)
    ensures Reserved(L, s')
  {
    if b !in s.lh {
      UnusedAt(L, s.active, k);
      UnusedAt(L, s'.active, k);
      assert s'.active[..k] == s.active[..k] && s'.active[k + 1..] == s.active[k + 1..];
    }
  }

  lemma LogWriteOps(L: Layout, s: State, s': State, k: nat, b: nat, v: Block)
    requires Shape(L, s) && OpsWhole(s) && LogWrite(L, s, s', k, b, v)
    ensures s'.durable <= |s'.hist| && OpsWhole(s')
  {
    assert forall m :: 0 <= m < |s.active| ==> s'.active[m].id == s.active[m].id;
  }

  lemma LogWritePhase(L: Layout, s: State, s': State, k: nat, b: nat, v: Block)
    requires Shape(L, s) && AtPhase(L, s) && LogWrite(L, s, s', k, b, v)
    ensures Shape(L, s') && AtPhase(L, s')
  {
  }

  lemma LogWriteInv(L: Layout, s: State, s': State, k: nat, b: nat, v: Block)
    requires Inv(L, s) && LogWrite(L, s, s', k, b, v)
    ensures Inv(L, s')
  {
    LogWriteReserved(L, s, s', k, b, v);
    LogWriteOps(L, s, s', k, b, v);
    LogWritePhase(L, s, s', k, b, v);
    ApplyAppend(s.base, s.hist, Write(s.active[k].id, b, v));
    assert s'.hist[..s.durable] == s.hist[..s.durable];
  }

  lemma EndOpInv(L: Layout, s: State, s': State, k: nat)
    requires Inv(L, s) && EndOp(s, s', k)
    ensures Inv(L, s')
  {
    EndOpKeepsOps(s, s', k);
    UnusedAt(L, s.active, k);
    UnusedSplit(L, s.active[..k], s.active[k + 1..]);
  }

  lemma EndOpKeepsOps(s: State, s': State, k: nat)
    requires s.durable <= |s.hist| && OpsWhole(s) && EndOp(s, s', k)
    ensures OpsWhole(s')
  {
    assert forall m :: 0 <= m < |s'.active| ==> s'.active[m] == s.active[if m < k then m else m + 1];
  }

  lemma EndLastOpInv(L: Layout, s: State, s': State)
    requires Inv(L, s) && EndLastOp(s, s')
    ensures Inv(L, s')
  {
  }

  /** A write inside the log area but not to the header cannot be seen by recovery while the header is empty. */
  lemma CopyBlockInv(L: Layout, s: State, s': State)
    requires Inv(L, s) && CopyBlock(L, s, s')
    ensures Inv(L, s')
  {
    assert Header(L, s'.disk) == Header(L, s.disk) == [];
    assert forall b {:trigger L.Home(b)} :: L.Home(b) ==> s'.disk[b] == s.disk[b];
    assert Redoable(L, s') by {
      forall b | L.Home(b)
        ensures Recovered(L, s'.disk, b) == Apply(s'.base, s'.hist[..s'.durable])[b]
      {
        assert Recovered(L, s.disk, b) == Apply(s.base, s.hist[..s.durable])[b];
      }
    }
  }

  lemma CommitHeadPhase(L: Layout, s: State, s': State)
    requires Shape(L, s) && AtPhase(L, s) && CommitHead(L, s, s')
    ensures Shape(L, s') && AtPhase(L, s')
  {
    HeaderRoundTrip(L, s.disk, s.lh);
    assert forall i :: 0 <= i < |s.lh| ==> LogBlock(L, s'.disk, i) == LogBlock(L, s.disk, i);
    assert s.lh[0..] == s.lh;
  }

  lemma CommitKeepsCurrent(L: Layout, s: State, e: seq<Block>, b: nat)
    requires Shape(L, s) && |e| == L.size && L.Home(b) && CleanOutside(L, s) && e[b] == s.disk[b]
    requires forall i :: 0 <= i < |s.lh| ==> LogBlock(L, e, i) == s.mem[s.lh[i]]
    ensures Value(L, e, s.lh, b) == s.mem[b]
  {
    if b in s.lh {
      var i :| 0 <= i < |s.lh| && s.lh[i] == b;
      ValueOfListed(L, e, s.lh, i);
    } else {
      ValueOfUnlisted(L, e, s.lh, b);
    }
  }

  /** The commit point: one block write turns the whole group durable. */
  lemma CommitHeadInv(L: Layout, s: State, s': State)
    requires Inv(L, s) && CommitHead(L, s, s')
    ensures Inv(L, s')
  {
    CommitHeadPhase(L, s, s');
    assert s.hist[..|s.hist|] == s.hist;
    forall b | L.Home(b)
      ensures Recovered(L, s'.disk, b) == s.mem[b]
    {
      CommitKeepsCurrent(L, s, s'.disk, b);
    }
  }

  lemma InstallKeepsRecovered(L: Layout, d: seq<Block>, h: seq<nat>, t: nat, e: seq<Block>)
    requires L.Valid() && |d| == L.size && GoodList(L, h) && t < |h| && Header(L, d) == h
    requires e == d[h[t] := LogBlock(L, d, t)]
    ensures Header(L, e) == h
    ensures forall i :: 0 <= i < |h| ==> LogBlock(L, e, i) == LogBlock(L, d, i)
    ensures forall b {:trigger L.Home(b)} :: L.Home(b) ==> Recovered(L, e, b) == Recovered(L, d, b)
  {
    assert L.Home(h[t]);
    forall b | L.Home(b)
      ensures Recovered(L, e, b) == Recovered(L, d, b)
    {
      ValueAgrees(L, e, d, h, b);
    }
  }

  lemma UnpinOne(h: seq<nat>, t: nat)
    requires t < |h| && Distinct(h)
    ensures Elems(h[t..]) - {h[t]} == Elems(h[t + 1..])
  {
    assert h[t..] == [h[t]] + h[t + 1..];
    assert h[t] !in h[t + 1..];
  }

  lemma InstallBlockLists(L: Layout, s: State, s': State)
    requires Shape(L, s) && s.phase.Install? && Header(L, s.disk) == s.lh && Copied(L, s, |s.lh|)
    requires InstallBlock(L, s, s')
    ensures Shape(L, s') && Header(L, s'.disk) == s.lh && s'.mem == s.mem && Copied(L, s', |s.lh|)
    ensures forall b {:trigger L.Home(b)} :: L.Home(b) ==> Recovered(L, s'.disk, b) == Recovered(L, s.disk, b)
  {
    var t := s.phase.tail;
    assert LogBlock(L, s.disk, t) == s.mem[s.lh[t]];
    InstallKeepsRecovered(L, s.disk, s.lh, t, s'.disk);
  }

  lemma InstallBlockPhase(L: Layout, s: State, s': State)
    requires Shape(L, s) && AtPhase(L, s) && InstallBlock(L, s, s')
    requires Shape(L, s') && Header(L, s'.disk) == s.lh && s'.mem == s.mem && Copied(L, s', |s.lh|)
    ensures AtPhase(L, s')
  {
    var t := s.phase.tail;
    assert LogBlock(L, s.disk, t) == s.mem[s.lh[t]];
    UnpinOne(s.lh, t);
  }

  lemma InstallBlockInv(L: Layout, s: State, s': State)
    requires Inv(L, s) && InstallBlock(L, s, s')
    ensures Inv(L, s')
  {
    InstallBlockLists(L, s, s');
    InstallBlockPhase(L, s, s');
  }

  lemma EraseKeepsRecovered(L: Layout, d: seq<Block>, h: seq<nat>)
    requires L.Valid() && |d| == L.size && GoodList(L, h) && Header(L, d) == h && 0 < |d[L.start]|
    requires forall i :: 0 <= i < |h| ==> d[h[i]] == LogBlock(L, d, i)
    ensures var e := d[L.start := EncodeHead(d[L.start], [])];
      && Header(L, e) == []
      && forall b {:trigger L.Home(b)} :: L.Home(b) ==> Recovered(L, e, b) == e[b] == d[b] == Recovered(L, d, b)
  {
    HeaderRoundTrip(L, d, []);
    forall b | L.Home(b)
      ensures d[b] == Recovered(L, d, b)
    {
      if b in h {
        var i :| 0 <= i < |h| && h[i] == b;
        ValueOfListed(L, d, h, i);
      } else {
        ValueOfUnlisted(L, d, h, b);
      }
    }
  }

  lemma EraseHeadInv(L: Layout, s: State, s': State)
    requires Inv(L, s) && EraseHead(L, s, s')
    ensures Inv(L, s')
  {
    EraseKeepsRecovered(L, s.disk, s.lh);
    assert CleanOutside(L, s') by {
      forall b | L.Home(b)
        ensures s'.mem[b] == s'.disk[b]
      {
        if b in s.lh {
          var i :| 0 <= i < |s.lh| && s.lh[i] == b;
        }
      }
    }
  }

  lemma FinishCommitInv(L: Layout, s: State, s': State)
    requires Inv(L, s) && FinishCommit(s, s')
    ensures Inv(L, s')
  {
  }

  lemma CrashInv(L: Layout, s: State, s': State)
    requires Inv(L, s) && Crash(s, s')
    ensures Inv(L, s')
  {
    assert s'.hist[..s'.durable] == s.hist[..s.durable];
    assert Redoable(L, s);
    assert forall b {:trigger L.Home(b)} :: L.Home(b) ==> Recovered(L, s'.disk, b) == Recovered(L, s.disk, b);
  }

  lemma ReadHeadInv(L: Layout, s: State, s': State)
    requires Inv(L, s) && ReadHead(L, s, s')
    ensures Inv(L, s')
  {
  }

  lemma RedoBlockInv(L: Layout, s: State, s': State)
    requires Inv(L, s) && RedoBlock(L, s, s')
    ensures Inv(L, s')
  {
    var t := s.phase.tail;
    InstallKeepsRecovered(L, s.disk, s.lh, t, s'.disk);
    assert L.Home(s.lh[t]);
  }

  lemma RedoDoneInv(L: Layout, s: State, s': State)
    requires Inv(L, s) && RedoDone(L, s, s')
    ensures Inv(L, s')
  {
    EraseKeepsRecovered(L, s.disk, s.lh);
    assert s'.hist[..s'.durable] == s'.hist;
  }

  lemma StepInv(L: Layout, s: State, s': State, e: Event)
    requires Inv(L, s) && Next(L, s, s', e)
    ensures Inv(L, s')
  {
    match e
    case BeginEvent => BeginOpInv(L, s, s');
    case SleepEvent(pid) => BeginSleepInv(L, s, s', pid);
    case WriteEvent(k, b, v) => LogWriteInv(L, s, s', k, b, v);
    case EndEvent(k) => EndOpInv(L, s, s', k);
    case EndLastEvent => EndLastOpInv(L, s, s');
    case CopyEvent => CopyBlockInv(L, s, s');
    case CommitEvent => CommitHeadInv(L, s, s');
    case InstallEvent => InstallBlockInv(L, s, s');
    case EraseEvent => EraseHeadInv(L, s, s');
    case FinishEvent => FinishCommitInv(L, s, s');
    case CrashEvent => CrashInv(L, s, s');
    case ReadHeadEvent => ReadHeadInv(L, s, s');
    case RedoEvent => RedoBlockInv(L, s, s');
    case RedoDoneEvent => RedoDoneInv(L, s, s');
  }

  // ----- What every run guarantees -----

  lemma {:induction false} RunInv(L: Layout, run: seq<State>, i: nat)
    requires IsRun(L, run) && i < |run|
    ensures Inv(L, run[i])
  {
    assert StepAt(L, run, i);
    if i == 0 {
      InitInv(L, run[0]);
    } else {
      RunInv(L, run, i - 1);
      var e :| Next(L, run[i - 1], run[i], e);
      StepInv(L, run[i - 1], run[i], e);
    }
  }

  /** Either all writes of an operation are among the first `n`, or none of them is. */
  predicate AllOrNothing(hist: seq<Write>, n: nat) {
    forall i, j :: 0 <= i < |hist| && 0 <= j < |hist| && hist[i].op == hist[j].op ==> (i < n <==> j < n)
  }

  /**
   Crash atomicity. After every step of every run, recovery from the disk as it
   stands would produce the home blocks after exactly the durable writes, and no
   operation is half durable; once no recovery or commit is under way and
   nothing is logged, the disk itself holds that state.
   */
  lemma CrashAtomicity(L: Layout, run: seq<State>, i: nat)
    requires IsRun(L, run) && i < |run|
    ensures Inv(L, run[i])
    ensures AllOrNothing(run[i].hist, run[i].durable)
    ensures forall b {:trigger L.Home(b)} :: L.Home(b) ==>
      Recovered(L, run[i].disk, b) == Apply(run[i].base, run[i].hist[..run[i].durable])[b]
    ensures run[i].phase.Running? && run[i].lh == [] ==>
      forall b {:trigger L.Home(b)} ::
          L.Home(b) ==> run[i].disk[b] == run[i].mem[b] == Apply(run[i].base, run[i].hist)[b]
  {
    RunInv(L, run, i);
    var s := run[i];
    if s.phase.Running? && s.lh == [] {
      assert s.hist[..s.durable] == s.hist;
    }
  }

  /** The writes that are durable after the `i`th step. */
  function Durable(s: State): seq<Write>
    requires s.durable <= |s.hist|
  {
    s.hist[..s.durable]
  }

  lemma DurableStep(L: Layout, s: State, s': State, e: Event)
    requires s.durable <= |s.hist| && Next(L, s, s', e)
    ensures s'.durable <= |s'.hist| && s'.base == s.base
    ensures Durable(s') == if e.CommitEvent? then s.hist else Durable(s)
    ensures !e.CrashEvent? ==> s.hist <= s'.hist
  {
  }

  lemma {:induction false} DurableOk(L: Layout, run: seq<State>, i: nat)
    requires IsRun(L, run) && i < |run|
    ensures run[i].durable <= |run[i].hist|
  {
    assert StepAt(L, run, i);
    if i > 0 {
      DurableOk(L, run, i - 1);
      var e :| Next(L, run[i - 1], run[i], e);
      DurableStep(L, run[i - 1], run[i], e);
    }
  }

  /** A commit survives every later crash: the durable writes only ever grow. */
  lemma {:induction false} DurableGrows(L: Layout, run: seq<State>, i: nat, j: nat)
    requires IsRun(L, run) && i <= j < |run|
    ensures run[i].durable <= |run[i].hist| && run[j].durable <= |run[j].hist|
    ensures Durable(run[i]) <= Durable(run[j])
    ensures run[i].base == run[j].base
    decreases j
  {
    DurableOk(L, run, i);
    if i < j {
      DurableGrows(L, run, i, j - 1);
      assert StepAt(L, run, j);
      var e :| Next(L, run[j - 1], run[j], e);
      DurableStep(L, run[j - 1], run[j], e);
    }
  }

  /** While operations are outstanding there is room for all that they may still append. */
  lemma SpaceReserved(L: Layout, run: seq<State>, i: nat)
    requires IsRun(L, run) && i < |run|
    ensures run[i].active != [] ==> |run[i].lh| + Unused(L, run[i].active) <= L.logSize
    ensures run[i].committing ==> run[i].active == []
    ensures run[i].sleepers != {} ==> !Admits(L, run[i])
  {
    RunInv(L, run, i);
  }

  lemma UnusedPositive(L: Layout, ops: seq<Op>, k: nat)
    requires k < |ops| && ops[k].used < L.maxOp
    requires forall m :: 0 <= m < |ops| ==> ops[m].used <= L.maxOp
    ensures Unused(L, ops) >= 1
  {
    UnusedAt(L, ops, k);
    UnusedBounds(L, ops[..k]);
    UnusedBounds(L, ops[k + 1..]);
  }

  /** If the disk holds LOGSIZE log blocks besides the header, no append within budget panics. */
  lemma AppendFits(L: Layout, s: State, k: nat)
    requires Inv(L, s) && L.logSize + 1 <= L.nlog
    requires k < |s.active| && s.active[k].used < L.maxOp
    ensures !LogWritePanics(L, s)
  {
    UnusedPositive(L, s.active, k);
  }

  // ----- When the guards of log_write can trip -----

  /** No run reaches a state where an append within its operation's budget panics. */
  ghost predicate AppendsAreSafe(L: Layout) {
    forall run, k, b :: ReachesAppend(L, run, k, b) ==> !LogWritePanics(L, run[|run| - 1])
  }

  ghost predicate ReachesAppend(L: Layout, run: seq<State>, k: nat, b: nat) {
    IsRun(L, run) && AppendDue(L, run[|run| - 1], k, b)
  }

  /** The `k`th operation may append home block `b`. */
  predicate AppendDue(L: Layout, s: State, k: nat, b: nat) {
    && s.phase.Running? && k < |s.active| && s.active[k].used < L.maxOp
    && L.Home(b) && b !in s.lh
  }

  /** The `i`th home block in disk order. */
  function HomeBlock(L: Layout, i: nat): nat {
    if i < L.start then i else i + L.nlog
  }

  /** param.h's LOGSIZE = 3 * MAXOPBLOCKS, and more home blocks than LOGSIZE. */
  predicate Roomy(L: Layout) {
    L.Valid() && L.logSize == 3 * L.maxOp && L.nlog + L.logSize < L.size
  }

  /** The state after three begin_ops and `n` appends of distinct blocks. */
  predicate Filled(L: Layout, s: State, n: nat) {
    && s.phase.Running? && !s.committing
    && |s.lh| == n && |s.mem| == L.size
    && (forall i :: 0 <= i < n ==> s.lh[i] == HomeBlock(L, i))
    && (forall k :: 0 <= k < |s.active| ==> s.active[k].used <= L.maxOp)
    && s.active != [] && Unused(L, s.active) == L.logSize - n
  }

  lemma Extend(L: Layout, run: seq<State>, s': State, e: Event)
    requires IsRun(L, run) && Next(L, run[|run| - 1], s', e)
    ensures IsRun(L, run + [s'])
  {
    forall i | 0 <= i < |run + [s']|
      ensures StepAt(L, run + [s'], i)
    {
      if i < |run| {
        assert StepAt(L, run, i);
      }
    }
  }

  /** An operation with budget left exists while some reservation is unused. */
  lemma {:induction false} SomeBudget(L: Layout, ops: seq<Op>) returns (k: nat)
    requires Unused(L, ops) > 0
    ensures k < |ops| && ops[k].used < L.maxOp
  {
    k := |ops| - 1;
    if ops[k].used >= L.maxOp {
      k := SomeBudget(L, ops[..k]);
    }
  }

  /** A freshly made disk with an empty log, booted. */
  lemma BootRun(L: Layout) returns (run: seq<State>)
    requires Roomy(L)
    ensures IsRun(L, run)
    ensures var s := run[|run| - 1];
      s.phase.Running? && !s.committing && s.lh == [] && s.active == [] && |s.mem| == L.size
  {
    var blank: Block := seq(L.logSize + 1, _ => 0);
    var disk: seq<Block> := seq(L.size, _ => blank);
    var s0 := State(disk, disk, [], {}, [], false, {}, Boot, 0, disk, [], 0);
    assert Header(L, disk) == [];
    assert forall b {:trigger L.Home(b)} :: L.Home(b) ==> Recovered(L, disk, b) == disk[b];
    assert Init(L, s0);
    var s1 := s0.(lh := Header(L, s0.disk), phase := Redo(0));
    var s2 := s1.(disk := disk[L.start := EncodeHead(disk[L.start], [])], phase := Running);
    run := [s0];
    assert StepAt(L, run, 0);
    Extend(L, run, s1, ReadHeadEvent);
    Extend(L, run + [s1], s2, RedoDoneEvent);
    run := run + [s1] + [s2];
  }

  lemma BeginThree(L: Layout) returns (run: seq<State>)
    requires Roomy(L)
    ensures IsRun(L, run) && Filled(L, run[|run| - 1], 0)
  {
    run := BootRun(L);
    var s := run[|run| - 1];
    var s1 := s.(active := s.active + [Op(s.nextOp, 0)], nextOp := s.nextOp + 1);
    Extend(L, run, s1, BeginEvent);
    var s2 := s1.(active := s1.active + [Op(s1.nextOp, 0)], nextOp := s1.nextOp + 1);
    Extend(L, run + [s1], s2, BeginEvent);
    var s3 := s2.(active := s2.active + [Op(s2.nextOp, 0)], nextOp := s2.nextOp + 1);
    Extend(L, run + [s1] + [s2], s3, BeginEvent);
    run := run + [s1] + [s2] + [s3];
    var o := Op(s.nextOp, 0);
    UnusedSplit(L, s2.active, [Op(s2.nextOp, 0)]);
    UnusedSplit(L, s1.active, [Op(s1.nextOp, 0)]);
    UnusedSplit(L, s.active, [o]);
    assert forall p: Op :: [p][..0] == [];
  }

  /** Any fill level up to the guard is reachable. */
  lemma {:induction false} FillRun(L: Layout, n: nat) returns (run: seq<State>)
    requires Roomy(L) && n <= L.Capacity()
    ensures IsRun(L, run) && Filled(L, run[|run| - 1], n)
    decreases n
  {
    if n == 0 {
      run := BeginThree(L);
    } else {
      run := FillRun(L, n - 1);
      var s := run[|run| - 1];
      var k := SomeBudget(L, s.active);
      var s' := AppendOne(L, s, n - 1, k);
      Extend(L, run, s', WriteEvent(k, HomeBlock(L, n - 1), []));
      run := run + [s'];
    }
  }

  lemma AppendOne(L: Layout, s: State, n: nat, k: nat) returns (s': State)
    requires Roomy(L) && n < L.Capacity() && Filled(L, s, n)
    requires k < |s.active| && s.active[k].used < L.maxOp
    ensures LogWrite(L, s, s', k, HomeBlock(L, n), []) && Filled(L, s', n + 1)
  {
    var b := HomeBlock(L, n);
    var v: Block := [];
    s' := s.(mem := s.mem[b := v], hist := s.hist + [Write(s.active[k].id, b, v)],
             lh := s.lh + [b], pins := s.pins + {b},
             active := s.active[k := Op(s.active[k].id, s.active[k].used + 1)]);
    assert LogWrite(L, s, s', k, b, v);
    UnusedAt(L, s.active, k);
    UnusedAt(L, s'.active, k);
    assert s'.active[..k] == s.active[..k] && s'.active[k + 1..] == s.active[k + 1..];
  }

  /**
   begin_op reserves LOGSIZE blocks, log_write also stops at log.size - 1: the
   reservation is honoured exactly when the log area has LOGSIZE + 1 blocks.
   mkfs makes it LOGSIZE blocks long.
   */
  lemma ReservationHonoured(L: Layout)
    requires Roomy(L)
    ensures AppendsAreSafe(L) <==> L.logSize + 1 <= L.nlog
  {
    if L.logSize + 1 <= L.nlog {
      forall run, k, b | ReachesAppend(L, run, k, b)
        ensures !LogWritePanics(L, run[|run| - 1])
      {
        RunInv(L, run, |run| - 1);
        AppendFits(L, run[|run| - 1], k);
      }
    } else {
      var n := L.nlog - 1;
      var run := FillRun(L, n);
      var s := run[|run| - 1];
      var k := SomeBudget(L, s.active);
      assert ReachesAppend(L, run, k, HomeBlock(L, n));
      assert LogWritePanics(L, s);
    }
  }

  /** With the image that mkfs builds, three full operations overrun the log area. */
  lemma MkfsLogIsOneShort()
    ensures !AppendsAreSafe(Layout(2000, 2, 30, 30, 10))
  {
    ReservationHonoured(Layout(2000, 2, 30, 30, 10));
  }

  /** A full log is reachable, and then even a log_write that would be absorbed panics. */
  lemma AbsorbedWriteCanPanic(L: Layout) returns (run: seq<State>)
    requires Roomy(L) && 2 <= L.nlog
    ensures IsRun(L, run)
    ensures var s := run[|run| - 1];
      && s.phase.Running? && s.active != []
      && (exists b :: L.Home(b) && b in s.lh)
      && LogWritePanics(L, s)
  {
    run := FillRun(L, L.Capacity());
    var s := run[|run| - 1];
    assert L.Home(s.lh[0]) && s.lh[0] in s.lh;
  }

  /** In a running system log_write panics exactly when the log is full. */
  lemma PanicsWhenFull(L: Layout, s: State)
    requires Inv(L, s) && s.active != []
    ensures LogWritePanics(L, s) <==> |s.lh| == L.Capacity()
  {
  }
}

/**
 kernel/log.c itself. Each method is one critical section of log.lock or one
 call that no other process can interleave with (commit and recovery run while
 everyone else sleeps in begin_op); the ghost run records the machine step of
 every block write, so a crash inside a method is a crash of the machine.
 */
module LogCode {
  import opened RedoLog

  /** The bounds that the code's indexing relies on. */
  predicate InBounds(L: Layout, s: State) {
    && L.Valid()
    && |s.disk| == |s.mem| == L.size
    && L.logSize < |s.disk[L.start]|
    && |s.lh| <= L.logSize && |s.lh| <= L.nlog - 1
    && forall i :: 0 <= i < |s.lh| ==> L.Home(s.lh[i])
  }

  lemma NowInBounds(L: Layout, run: seq<State>)
    requires IsRun(L, run)
    ensures InBounds(L, run[|run| - 1])
  {
    RunInv(L, run, |run| - 1);
  }

  lemma NowIdle(L: Layout, run: seq<State>)
    requires IsRun(L, run) && run[|run| - 1].phase.Running?
    ensures var s := run[|run| - 1];
      && !s.committing && s.pins == Elems(s.lh)
      && s.durable <= |s.hist| && (s.lh == [] ==> s.durable == |s.hist|)
  {
    RunInv(L, run, |run| - 1);
  }

  lemma NowCommitted(L: Layout, run: seq<State>)
    requires IsRun(L, run) && run[|run| - 1].phase.Finish?
    ensures var s := run[|run| - 1];
      s.committing && s.active == [] && s.lh == [] && s.pins == {} && s.durable == |s.hist|
  {
    RunInv(L, run, |run| - 1);
  }

  lemma NowRedoing(L: Layout, run: seq<State>)
    requires IsRun(L, run) && (run[|run| - 1].phase.Boot? || run[|run| - 1].phase.Redo?)
    ensures var s := run[|run| - 1];
      && L.Valid() && |s.disk| == L.size && |Header(L, s.disk)| <= L.logSize
      && 0 < |s.disk[L.start]| && s.durable == |s.hist| && s.active == []
  {
    RunInv(L, run, |run| - 1);
  }

  class Log {
    const L: Layout
    const block: array<nat>
    var disk: seq<Block>
    var mem: seq<Block>
    var n: nat
    var pins: set<nat>
    var outstanding: nat
    var committing: bool
    var sleepers: set<nat>
    ghost var run: seq<State>

    ghost predicate Valid()
      reads this, block
    {
      && block.Length == L.logSize && n <= block.Length
      && IsRun(L, run)
      && var s := run[|run| - 1];
      && s.disk == disk && s.mem == mem && s.lh == block[..n] && s.pins == pins
      && |s.active| == outstanding && s.committing == committing && s.sleepers == sleepers
    }

    /** The machine state that the fields represent. */
    ghost function Now(): State
      reads this
      requires |run| > 0
    {
      run[|run| - 1]
    }

    ghost method Record(s: State, e: Event)
      requires IsRun(L, run) && Next(L, run[|run| - 1], s, e)
      modifies this`run
      ensures run == old(run) + [s] && IsRun(L, run)
    {
      Extend(L, run, s, e);
      run := run + [s];
    }

    /** Returns false when the caller has gone to sleep on the log and must try again. */
    method BeginOp(pid: nat) returns (ok: bool)
      requires Valid() && !Now().phase.Boot? && !Now().phase.Redo?
      modifies this`outstanding, this`sleepers, this`run
      ensures Valid() && |run| == |old(run)| + 1 && old(run) <= run
      ensures ok == Admits(L, old(Now()))
      ensures ok ==> RedoLog.BeginOp(L, old(Now()), Now())
      ensures outstanding == if ok then old(outstanding) + 1 else old(outstanding)
      ensures sleepers == if ok then old(sleepers) else old(sleepers) + {pid}
      ensures !ok ==> BeginSleep(L, old(Now()), Now(), pid)
    {
      ghost var s := Now();
      if committing || n + (outstanding + 1) * L.maxOp > L.logSize {
        sleepers := sleepers + {pid};
        ghost var t := s.(sleepers := s.sleepers + {pid});
        Record(t, SleepEvent(pid));
        ok := false;
      } else {
        outstanding := outstanding + 1;
        ghost var t := s.(active := s.active + [Op(s.nextOp, 0)], nextOp := s.nextOp + 1);
        Record(t, BeginEvent);
        ok := true;
      }
    }

    /** Returns false where the source panics. */
    method LogWrite(b: nat, v: Block, ghost k: nat) returns (ok: bool)
      requires Valid() && Now().phase.Running?
      requires L.Home(b) && k < outstanding
      requires b in Now().lh || Now().active[k].used < L.maxOp
      modifies this`mem, this`n, this`pins, this`run, block
      ensures Valid() && old(run) <= run
      ensures ok == !LogWritePanics(L, old(Now()))
      ensures ok ==> |run| == |old(run)| + 1 && RedoLog.LogWrite(L, old(Now()), Now(), k, b, v)
      ensures ok ==> mem == old(mem)[b := v] && b in block[..n] && pins == old(pins) + {b}
      ensures ok ==> n == if b in old(block[..n]) then old(n) else old(n) + 1
      ensures !ok ==> run == old(run)
    {
      if n >= L.logSize || n >= L.nlog - 1 || outstanding < 1 {
        return false;
      }
      NowInBounds(L, run);
      NowIdle(L, run);
      var i := FindSlot(b);
      ghost var s := Now();
      block[i] := b;
      mem := mem[b := v];
      ghost var t := s.(mem := mem, hist := s.hist + [Write(s.active[k].id, b, v)]);
      if i == n {
        pins := pins + {b};
        n := n + 1;
        t := t.(lh := s.lh + [b], pins := pins,
                active := s.active[k := Op(s.active[k].id, s.active[k].used + 1)]);
      }
      assert block[..n] == t.lh;
      Record(t, WriteEvent(k, b, v));
      ok := true;
    }

    /** The scan for log absorption: the slot that already holds `b`, else the next free one. */
    method FindSlot(b: nat) returns (i: nat)
      requires n <= block.Length
      ensures i <= n && b !in block[..i]
      ensures i < n ==> block[..n][i] == b
    {
      i := 0;
      while i < n && block[i] != b
        invariant i <= n && b !in block[..i]
      {
        i := i + 1;
      }
    }

    /** end_op: the last operation out commits the group and leaves nothing pending. */
    method EndOp(ghost k: nat)
      requires Valid() && Now().phase.Running? && k < outstanding
      modifies this
      ensures Valid() && old(run) <= run && Now().phase.Running?
      ensures Now().base == old(Now()).base && Now().hist == old(Now()).hist
      ensures old(outstanding) > 1 ==> |run| == |old(run)| + 1 && RedoLog.EndOp(old(Now()), Now(), k)
      ensures outstanding == old(outstanding) - 1 && sleepers == {}
      ensures old(outstanding) == 1 ==>
        n == 0 && outstanding == 0 && pins == {} && sleepers == {} && Now().durable == |Now().hist|
    {
      NowIdle(L, run);
      outstanding := outstanding - 1;
      if outstanding == 0 {
        EndLast();
      } else {
        sleepers := {};
        ghost var s := Now();
        Record(s.(active := s.active[..k] + s.active[k + 1..], sleepers := {}), EndEvent(k));
      }
    }

    /** end_op from the point where it has found outstanding to be zero. */
    method EndLast()
      requires |run| > 0 && Now().phase.Running? && |Now().active| == 1 && !Now().committing && outstanding == 0
      requires block.Length == L.logSize && n <= block.Length && IsRun(L, run)
      requires var s := Now();
        s.disk == disk && s.mem == mem && s.lh == block[..n] && s.pins == pins && s.sleepers == sleepers
      modifies this
      ensures Valid() && old(run) <= run && Now().phase.Running?
      ensures Now().base == old(Now()).base && Now().hist == old(Now()).hist
      ensures n == 0 && outstanding == 0 && pins == {} && sleepers == {} && Now().durable == |Now().hist|
    {
      committing := true;
      ghost var s := Now();
      Record(s.(active := [], committing := true, phase := if |s.lh| > 0 then Copy(0) else Finish), EndLastEvent);
      Commit();
      NowCommitted(L, run);
      committing, sleepers := false, {};
      Record(Now().(committing := false, sleepers := {}, phase := Running), FinishEvent);
    }

    method Commit()
      requires Valid() && Now().phase == (if n > 0 then Copy(0) else Finish)
      modifies this`disk, this`mem, this`n, this`pins, this`run
      ensures Valid() && old(run) <= run && Now().phase.Finish?
      ensures Now().base == old(Now()).base && Now().hist == old(Now()).hist
    {
      if n > 0 {
        WriteLog();
        WriteCommitHead();
        InstallTrans(false);
        EraseCommitHead();
      }
    }

    method WriteLog()
      requires Valid() && Now().phase == Copy(0)
      modifies this`disk, this`run
      ensures Valid() && old(run) <= run
      ensures Now().phase == Copy(n)
      ensures Now().base == old(Now()).base && Now().hist == old(Now()).hist
    {
      var tail := 0;
      while tail < n
        invariant 0 <= tail <= n
        invariant Valid() && old(run) <= run && Now().phase == Copy(tail)
        invariant Now().base == old(Now()).base && Now().hist == old(Now()).hist
      {
        NowInBounds(L, run);
        assert block[..n][tail] == block[tail];
        disk := disk[L.start + tail + 1 := mem[block[tail]]];
        ghost var t := Now().(disk := disk, phase := Copy(tail + 1));
        Record(t, CopyEvent);
        tail := tail + 1;
      }
    }

    /** One block write; the callers record which step it is. */
    method WriteHead()
      requires L.Valid() && |disk| == L.size && L.logSize < |disk[L.start]|
      requires n <= block.Length == L.logSize
      modifies this`disk
      ensures disk == old(disk)[L.start := EncodeHead(old(disk)[L.start], block[..n])]
    {
      var hb := disk[L.start];
      hb := hb[0 := n];
      for i := 0 to n
        invariant |hb| == |disk[L.start]| && hb[0] == n
        invariant hb[1..1 + i] == block[..i]
        invariant hb[1 + i..] == disk[L.start][1 + i..]
      {
        hb := hb[1 + i := block[i]];
        assert hb[1..1 + (i + 1)] == hb[1..1 + i] + [block[i]];
        assert hb[1 + (i + 1)..] == disk[L.start][1 + i..][1..];
      }
      assert hb == [hb[0]] + hb[1..1 + n] + hb[1 + n..];
      disk := disk[L.start := hb];
    }

    /** The first write_head of commit. */
    method WriteCommitHead()
      requires Valid() && Now().phase == Copy(n)
      modifies this`disk, this`run
      ensures Valid() && |run| == |old(run)| + 1 && old(run) <= run
      ensures CommitHead(L, old(Now()), Now())
    {
      NowInBounds(L, run);
      WriteHead();
      ghost var t := Now().(disk := disk, phase := Install(0), durable := |Now().hist|);
      Record(t, CommitEvent);
    }

    /** The last two statements of commit. */
    method EraseCommitHead()
      requires Valid() && Now().phase == Install(n)
      modifies this`disk, this`n, this`run
      ensures Valid() && |run| == |old(run)| + 1 && old(run) <= run
      ensures EraseHead(L, old(Now()), Now())
    {
      NowInBounds(L, run);
      n := 0;
      WriteHead();
      assert block[..0] == [];
      ghost var t := Now().(disk := disk, lh := [], phase := Finish);
      Record(t, EraseEvent);
    }

    method InstallTrans(recovering: bool)
      requires Valid() && Now().phase == (if recovering then Redo(0) else Install(0))
      modifies this`disk, this`mem, this`pins, this`run
      ensures Valid() && old(run) <= run
      ensures Now().phase == if recovering then Redo(n) else Install(n)
      ensures Now().base == old(Now()).base && Now().hist == old(Now()).hist
    {
      var tail := 0;
      while tail < n
        invariant 0 <= tail <= n
        invariant Valid() && old(run) <= run
        invariant Now().phase == if recovering then Redo(tail) else Install(tail)
        invariant Now().base == old(Now()).base && Now().hist == old(Now()).hist
      {
        if recovering {
          InstallRecovering(tail);
        } else {
          InstallAndUnpin(tail);
        }
        tail := tail + 1;
      }
    }

    /** The loop body of install_trans(0). */
    method InstallAndUnpin(tail: nat)
      requires Valid() && tail < n && Now().phase == Install(tail)
      modifies this`disk, this`mem, this`pins, this`run
      ensures Valid() && old(run) <= run && Now().phase == Install(tail + 1)
      ensures Now().base == old(Now()).base && Now().hist == old(Now()).hist
    {
      NowInBounds(L, run);
      ghost var s := Now();
      assert s.lh[tail] == block[tail];
      CopyHome(tail);
      pins := pins - {block[tail]};
      Record(s.(disk := disk, mem := mem, pins := pins, phase := Install(tail + 1)), InstallEvent);
    }

    /** The loop body of install_trans(1). */
    method InstallRecovering(tail: nat)
      requires Valid() && tail < n && Now().phase == Redo(tail)
      modifies this`disk, this`mem, this`run
      ensures Valid() && old(run) <= run && Now().phase == Redo(tail + 1)
      ensures Now().base == old(Now()).base && Now().hist == old(Now()).hist
    {
      NowInBounds(L, run);
      ghost var s := Now();
      assert s.lh[tail] == block[tail];
      CopyHome(tail);
      Record(s.(disk := disk, mem := mem, phase := Redo(tail + 1)), RedoEvent);
    }

    /** The copying part of install_trans's loop body: one block write. */
    method CopyHome(tail: nat)
      requires L.Valid() && |disk| == |mem| == L.size && tail < n <= block.Length
      requires n <= L.nlog - 1 && L.Home(block[tail])
      modifies this`disk, this`mem
      ensures disk == old(disk)[block[tail] := old(disk)[L.start + 1 + tail]]
      ensures mem == old(mem)[block[tail] := old(disk)[L.start + 1 + tail]]
    {
      var lbuf := disk[L.start + tail + 1];
      mem := mem[block[tail] := lbuf];
      disk := disk[block[tail] := lbuf];
    }

    /** initlog: whatever run the disk comes from, a crash ends it and recovery follows. */
    constructor (L: Layout, disk: seq<Block>, ghost past: seq<State>)
      requires IsRun(L, past) && past[|past| - 1].disk == disk
      ensures Valid() && past <= run && this.L == L
      ensures Now().phase.Running? && n == 0 && outstanding == 0
      ensures Now().base == past[|past| - 1].base
      ensures past[|past| - 1].durable <= |past[|past| - 1].hist|
      ensures Now().hist == Durable(past[|past| - 1]) && Now().durable == |Now().hist|
    {
      DurableOk(L, past, |past| - 1);
      ghost var s := past[|past| - 1];
      ghost var s' := State(disk, disk, [], {}, [], false, {}, Boot, s.nextOp,
                            s.base, s.hist[..s.durable], s.durable);
      Extend(L, past, s', CrashEvent);
      this.L := L;
      this.block := new nat[L.logSize];
      this.disk, this.mem, this.n := disk, disk, 0;
      this.pins, this.outstanding, this.committing, this.sleepers := {}, 0, false, {};
      this.run := past + [s'];
      new;
      RecoverFromLog();
    }

    method RecoverFromLog()
      requires Valid() && Now().phase.Boot? && n == 0
      modifies this`disk, this`mem, this`n, this`pins, this`run, block
      ensures Valid() && old(run) <= run && Now().phase.Running?
      ensures n == 0 && outstanding == 0
      ensures Now().base == old(Now()).base && Now().hist == old(Now()).hist
      ensures Now().durable == |Now().hist|
    {
      ReadHead();
      InstallTrans(true);
      NowInBounds(L, run);
      NowRedoing(L, run);
      n := 0;
      WriteHead();
      assert block[..0] == [];
      ghost var t := Now().(disk := disk, lh := [], phase := Running);
      Record(t, RedoDoneEvent);
    }

    method ReadHead()
      requires Valid() && Now().phase.Boot? && n == 0
      modifies this`n, this`run, block
      ensures Valid() && |run| == |old(run)| + 1 && old(run) <= run
      ensures RedoLog.ReadHead(L, old(Now()), Now())
    {
      NowRedoing(L, run);
      var lh := disk[L.start];
      ghost var h := Header(L, disk);
      n := if lh[0] < |lh| then lh[0] else 0;
      var i := 0;
      while i < n
        invariant 0 <= i <= n == |h| <= block.Length
        invariant block[..i] == h[..i]
        modifies block
      {
        block[i] := lh[1 + i];
        i := i + 1;
      }
      ghost var t := Now().(lh := h, phase := Redo(0));
      Record(t, ReadHeadEvent);
    }
  }
}
