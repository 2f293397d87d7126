/**
 The reference counts when system calls of several processes interleave. A step
 is what one process does to the tables in one critical section; a system call
 is a sequence of steps, with steps of other processes in between.
 */
module RefRuns {
  import opened RefCounts
  import opened RefCode

  /** What the kernel code of one process holds in its local variables; less than nothing is what it owes. */
  datatype Held = Held(files: map<int, int>, inodes: map<int, int>)

  /** The tables, and what each process holds. The table's own counts are the sums. */
  datatype World = World(t: Table, held: seq<Held>)

  function SumFiles(held: seq<Held>, f: int): int {
    if held == [] then 0 else SumFiles(held[..|held| - 1], f) + Of(held[|held| - 1].files, f)
  }

  function SumInodes(held: seq<Held>, ip: int): int {
    if held == [] then 0 else SumInodes(held[..|held| - 1], ip) + Of(held[|held| - 1].inodes, ip)
  }

  predicate IsProc(w: World, p: int) {
    0 <= p < |w.held| && |w.t.cwds| == |w.held| && |w.t.slots| == NOFILE * |w.held|
  }

  /** The descriptors of process `p`. */
  function SlotsOf(slots: seq<int>, p: int): seq<int>
    requires 0 <= p && NOFILE * (p + 1) <= |slots|
  {
    slots[NOFILE * p..NOFILE * (p + 1)]
  }

  /** The references to `f` that are due to process `p`: those of its descriptors and those it holds. */
  function Share(w: World, p: int, f: int): int
    requires IsProc(w, p)
  {
    Count(SlotsOf(w.t.slots, p), f) + Of(w.held[p].files, f)
  }

  predicate ShareOk(w: World, p: int, f: int)
    requires IsProc(w, p)
  {
    IsFile(w.t, f) ==> 0 <= Share(w, p, f)
  }

  ghost predicate Agrees(w: World) {
    && (forall f {:trigger Of(w.t.heldF, f)} :: Of(w.t.heldF, f) == SumFiles(w.held, f))
    && (forall ip {:trigger Of(w.t.heldI, ip)} :: Of(w.t.heldI, ip) == SumInodes(w.held, ip))
  }

  /** The counts are exact, and no process has given away more than it had. */
  ghost predicate WorldInv(w: World) {
    && Inv(w.t) && |w.t.cwds| == |w.held| && |w.t.slots| == NOFILE * |w.held| && Agrees(w)
    && forall p, f {:trigger ShareOk(w, p, f)} :: IsProc(w, p) ==> ShareOk(w, p, f)
  }

  // ----- Sums -----

  lemma {:induction false} SumFilesSet(held: seq<Held>, p: int, h: Held, f: int)
    requires 0 <= p < |held|
    ensures SumFiles(held[p := h], f) == SumFiles(held, f) - Of(held[p].files, f) + Of(h.files, f)
  {
    var n := |held| - 1;
    if p < n {
      assert held[p := h][..n] == held[..n][p := h];
      SumFilesSet(held[..n], p, h, f);
    } else {
      assert held[p := h][..n] == held[..n];
    }
  }

  lemma {:induction false} SumInodesSet(held: seq<Held>, p: int, h: Held, ip: int)
    requires 0 <= p < |held|
    ensures SumInodes(held[p := h], ip) == SumInodes(held, ip) - Of(held[p].inodes, ip) + Of(h.inodes, ip)
  {
    var n := |held| - 1;
    if p < n {
      assert held[p := h][..n] == held[..n][p := h];
      SumInodesSet(held[..n], p, h, ip);
    } else {
      assert held[p := h][..n] == held[..n];
    }
  }

  lemma {:induction false} CountAppend(a: seq<int>, b: seq<int>, x: int)
    ensures Count(a + b, x) == Count(a, x) + Count(b, x)
  {
    if a == [] {
      assert a + b == b;
    } else {
      assert (a + b)[1..] == a[1..] + b;
      CountAppend(a[1..], b, x);
    }
  }

  /** A process's share is no more than the references there are to the file. */
  lemma {:induction false} ShareWithin(w: World, n: nat, f: int)
    requires n <= |w.held| && |w.t.cwds| == |w.held| && |w.t.slots| == NOFILE * |w.held| && IsFile(w.t, f)
    requires forall p {:trigger ShareOk(w, p, f)} :: IsProc(w, p) ==> ShareOk(w, p, f)
    ensures 0 <= Count(w.t.slots[..NOFILE * n], f) + SumFiles(w.held[..n], f)
    ensures forall p {:trigger Share(w, p, f)} :: 0 <= p < n ==>
      Share(w, p, f) <= Count(w.t.slots[..NOFILE * n], f) + SumFiles(w.held[..n], f)
  {
    if n > 0 {
      ShareWithin(w, n - 1, f);
      assert IsProc(w, n - 1) && ShareOk(w, n - 1, f);
      var before := w.t.slots[..NOFILE * (n - 1)];
      assert w.t.slots[..NOFILE * n] == before + SlotsOf(w.t.slots, n - 1);
      CountAppend(before, SlotsOf(w.t.slots, n - 1), f);
      assert w.held[..n][..n - 1] == w.held[..n - 1];
    }
  }

  /** So the panics of filedup and fileclose are unreachable: a process that has a file has a reference to it. */
  lemma HasReference(w: World, p: int, f: int)
    requires WorldInv(w) && IsProc(w, p) && IsFile(w.t, f) && Share(w, p, f) >= 1
    ensures w.t.files[f].ref >= 1
  {
    ShareWithin(w, |w.held|, f);
    assert w.t.slots[..NOFILE * |w.held|] == w.t.slots && w.held[..|w.held|] == w.held;
    assert FileOk(w.t, f);
    assert Share(w, p, f) <= Count(w.t.slots, f) + SumFiles(w.held, f);
  }

  // ----- Steps -----

  function HoldFile(h: Held, f: int, d: int): Held {
    h.(files := Add(h.files, f, d))
  }

  function HoldInode(h: Held, ip: int, d: int): Held {
    h.(inodes := Add(h.inodes, ip, d))
  }

  /** filealloc by process `p`. */
  predicate Alloc(w: World, w': World, p: int, f: int) {
    && IsProc(w, p) && IsFile(w.t, f) && w.t.files[f] == File(0, NoTarget)
    && w' == World(NewRef(w.t, f), w.held[p := HoldFile(w.held[p], f, 1)])
  }

  /** filedup of a file that `p` has. */
  predicate DupFile(w: World, w': World, p: int, f: int) {
    && IsProc(w, p) && IsFile(w.t, f) && Share(w, p, f) >= 1
    && w' == World(NewRef(w.t, f), w.held[p := HoldFile(w.held[p], f, 1)])
  }

  /** `p` stores a file that it has in an empty descriptor, its own or, in fork, that of its child `q`. */
  predicate Store(w: World, w': World, p: int, q: int, fd: int, f: int) {
    && IsProc(w, p) && IsProc(w, q) && 0 <= fd < NOFILE && IsFile(w.t, f) && Share(w, p, f) >= 1
    && w.t.slots[Slot(q, fd)] == 0
    && w' == World(PutSlot(w.t, Slot(q, fd), f), w.held[p := HoldFile(w.held[p], f, -1)])
  }

  /** `p` empties one of its descriptors. */
  predicate Empty(w: World, w': World, p: int, fd: int) {
    && IsProc(w, p) && 0 <= fd < NOFILE && w.t.slots[Slot(p, fd)] != 0
    && w' == World(TakeSlot(w.t, Slot(p, fd)), w.held[p := HoldFile(w.held[p], w.t.slots[Slot(p, fd)], 1)])
  }

  /** fileclose of a file that `p` has, when others have it too. */
  predicate CloseShared(w: World, w': World, p: int, f: int) {
    && IsProc(w, p) && IsFile(w.t, f) && Share(w, p, f) >= 1 && w.t.files[f].ref > 1
    && var g := w.t.files[f].(ref := w.t.files[f].ref - 1);
    && w' == World(w.t.(files := w.t.files[f := g], heldF := Add(w.t.heldF, f, -1)),
                   w.held[p := HoldFile(w.held[p], f, -1)])
  }

  /** The last fileclose; `p` then holds the inode, or closes the pipe end. */
  predicate CloseLast(w: World, w': World, p: int, f: int) {
    && IsProc(w, p) && IsFile(w.t, f) && Share(w, p, f) >= 1 && w.t.files[f].ref == 1
    && var x := w.t.files[f].target;
    && (x.PipeEnd? ==> x.page in w.t.pipes)
    && var h := HoldFile(w.held[p], f, -1);
    && w' == World(Cleared(w.t, f), w.held[p := if x.Inode? then HoldInode(h, x.ip, 1) else h])
  }

  /** sys_open gives a new file the inode that `p` holds. */
  predicate SetInode(w: World, w': World, p: int, f: int, ip: int) {
    && IsProc(w, p) && IsFile(w.t, f) && Share(w, p, f) >= 1 && w.t.files[f].target.NoTarget? && ip != 0
    && w' == World(WithInode(w.t, f, ip), w.held[p := HoldInode(w.held[p], ip, -1)])
  }

  /** pipealloc makes two new files the ends of a pipe. */
  predicate SetPipe(w: World, w': World, p: int, f0: int, f1: int, page: int) {
    && IsProc(w, p) && IsFile(w.t, f0) && IsFile(w.t, f1) && f0 != f1 && page !in w.t.pipes
    && Share(w, p, f0) >= 1 && Share(w, p, f1) >= 1
    && w.t.files[f0].target.NoTarget? && w.t.files[f1].target.NoTarget?
    && w' == w.(t := WithPipe(w.t, f0, f1, page))
  }

  /** iget and idup, or iput. */
  predicate CountInode(w: World, w': World, p: int, ip: int, d: int) {
    && IsProc(w, p) && (d == 1 || d == -1)
    && w' == World(InodeRef(w.t, ip, d), w.held[p := HoldInode(w.held[p], ip, d)])
  }

  /** `p` sets a current directory, its own or, in fork, that of its child `q`. */
  predicate SetDirectory(w: World, w': World, p: int, q: int, ip: int) {
    && IsProc(w, p) && IsProc(w, q)
    && w' == World(WithCwd(w.t, q, ip), w.held[p := HoldInode(HoldInode(w.held[p], w.t.cwds[q], 1), ip, -1)])
  }

  /** What process `p` does in a step. */
  datatype Event =
    | AllocEvent(p: int, f: int)
    | DupEvent(p: int, f: int)
    | StoreEvent(p: int, q: int, fd: int, f: int)
    | EmptyEvent(p: int, fd: int)
    | CloseSharedEvent(p: int, f: int)
    | CloseLastEvent(p: int, f: int)
    | SetInodeEvent(p: int, f: int, ip: int)
    | SetPipeEvent(p: int, f0: int, f1: int, page: int)
    | CountInodeEvent(p: int, ip: int, d: int)
    | SetDirectoryEvent(p: int, q: int, ip: int)

  predicate Next(w: World, w': World, e: Event) {
    match e
    case AllocEvent(p, f) => Alloc(w, w', p, f)
    case DupEvent(p, f) => DupFile(w, w', p, f)
    case StoreEvent(p, q, fd, f) => Store(w, w', p, q, fd, f)
    case EmptyEvent(p, fd) => Empty(w, w', p, fd)
    case CloseSharedEvent(p, f) => CloseShared(w, w', p, f)
    case CloseLastEvent(p, f) => CloseLast(w, w', p, f)
    case SetInodeEvent(p, f, ip) => SetInode(w, w', p, f, ip)
    case SetPipeEvent(p, f0, f1, page) => SetPipe(w, w', p, f0, f1, page)
    case CountInodeEvent(p, ip, d) => CountInode(w, w', p, ip, d)
    case SetDirectoryEvent(p, q, ip) => SetDirectory(w, w', p, q, ip)
  }

  // ----- Every step keeps the invariant -----

  /** What `p` holds changes as the table's sums do. */
  lemma AgreesStep(w: World, t': Table, p: int, h: Held)
    requires Agrees(w) && 0 <= p < |w.held|
    requires forall f {:trigger Of(t'.heldF, f)} ::
               Of(t'.heldF, f) - Of(w.t.heldF, f) == Of(h.files, f) - Of(w.held[p].files, f)
    requires forall ip {:trigger Of(t'.heldI, ip)} ::
               Of(t'.heldI, ip) - Of(w.t.heldI, ip) == Of(h.inodes, ip) - Of(w.held[p].inodes, ip)
    ensures Agrees(World(t', w.held[p := h]))
  {
    var w' := World(t', w.held[p := h]);
    forall f
      ensures Of(w'.t.heldF, f) == SumFiles(w'.held, f)
    {
      SumFilesSet(w.held, p, h, f);
      assert Of(w.t.heldF, f) == SumFiles(w.held, f);
    }
    forall ip
      ensures Of(w'.t.heldI, ip) == SumInodes(w'.held, ip)
    {
      SumInodesSet(w.held, p, h, ip);
      assert Of(w.t.heldI, ip) == SumInodes(w.held, ip);
    }
  }

  /** The slots are as they were, and only the share of `p` in `f` has changed. */
  lemma SharesStep(w: World, w': World, p: int, f: int, d: int)
    requires WorldInv(w) && IsProc(w, p) && |w'.t.files| == |w.t.files| && w'.t.slots == w.t.slots
    requires |w'.t.cwds| == |w.t.cwds| && |w'.held| == |w.held| && w'.held == w.held[p := w'.held[p]]
    requires forall x {:trigger Of(w'.held[p].files, x)} ::
               Of(w'.held[p].files, x) == Of(w.held[p].files, x) + if x == f then d else 0
    requires d >= 0 || (d == -1 && Share(w, p, f) >= 1)
    ensures forall q, x {:trigger ShareOk(w', q, x)} :: IsProc(w', q) ==> ShareOk(w', q, x)
  {
    forall q, x | IsProc(w', q)
      ensures ShareOk(w', q, x)
    {
      assert IsProc(w, q) && ShareOk(w, q, x);
      assert Of(w'.held[q].files, x) == Of(w.held[q].files, x) + if q == p && x == f then d else 0;
    }
  }

  lemma SliceSet(s: seq<int>, lo: int, hi: int, k: int, z: int)
    requires 0 <= lo <= hi <= |s| && 0 <= k < |s|
    ensures s[k := z][lo..hi] == if lo <= k < hi then s[lo..hi][k - lo := z] else s[lo..hi]
  {
  }

  /** One slot of process `q` changes from `y` to `z`. */
  lemma SlotsStep(slots: seq<int>, n: nat, q: int, fd: int, z: int, p: int, x: int)
    requires |slots| == NOFILE * n && 0 <= q < n && 0 <= p < n && 0 <= fd < NOFILE
    ensures var y := slots[Slot(q, fd)];
            Count(SlotsOf(slots[Slot(q, fd) := z], p), x) == Count(SlotsOf(slots, p), x) +
              if p != q then 0 else (if z == x then 1 else 0) - (if y == x then 1 else 0)
  {
    SliceSet(slots, NOFILE * p, NOFILE * (p + 1), Slot(q, fd), z);
    if p == q {
      CountSet(SlotsOf(slots, p), fd, z, x);
    }
  }

  lemma NewRefStep(w: World, w': World, p: int, f: int)
    requires WorldInv(w) && (Alloc(w, w', p, f) || DupFile(w, w', p, f))
    ensures WorldInv(w')
  {
    NewRefInv(w.t, f);
    AgreesStep(w, w'.t, p, w'.held[p]);
    SharesStep(w, w', p, f, 1);
  }

  lemma StoreStep(w: World, w': World, p: int, q: int, fd: int, f: int)
    requires WorldInv(w) && Store(w, w', p, q, fd, f)
    ensures WorldInv(w')
  {
    PutSlotInv(w.t, Slot(q, fd), f);
    AgreesStep(w, w'.t, p, w'.held[p]);
    forall r, x | IsProc(w', r)
      ensures ShareOk(w', r, x)
    {
      assert IsProc(w, r) && ShareOk(w, r, x);
      SlotsStep(w.t.slots, |w.held|, q, fd, f, r, x);
      assert Of(w'.held[r].files, x) == Of(w.held[r].files, x) - if r == p && x == f then 1 else 0;
    }
  }

  lemma EmptyStep(w: World, w': World, p: int, fd: int)
    requires WorldInv(w) && Empty(w, w', p, fd)
    ensures WorldInv(w')
  {
    var f := w.t.slots[Slot(p, fd)];
    TakeSlotInv(w.t, Slot(p, fd));
    AgreesStep(w, w'.t, p, w'.held[p]);
    forall r, x | IsProc(w', r)
      ensures ShareOk(w', r, x)
    {
      assert IsProc(w, r) && ShareOk(w, r, x);
      SlotsStep(w.t.slots, |w.held|, p, fd, 0, r, x);
      assert Of(w'.held[r].files, x) == Of(w.held[r].files, x) + if r == p && x == f then 1 else 0;
    }
  }

  lemma CloseSharedStep(w: World, w': World, p: int, f: int)
    requires WorldInv(w) && CloseShared(w, w', p, f)
    ensures WorldInv(w')
  {
    RefInv(w.t, f, w.t.files[f].(ref := w.t.files[f].ref - 1), -1);
    AgreesStep(w, w'.t, p, w'.held[p]);
    SharesStep(w, w', p, f, -1);
  }

  lemma CloseLastStep(w: World, w': World, p: int, f: int)
    requires WorldInv(w) && CloseLast(w, w', p, f)
    ensures WorldInv(w')
  {
    ClearInv(w.t, f);
    AgreesStep(w, w'.t, p, w'.held[p]);
    SharesStep(w, w', p, f, -1);
  }

  lemma SetInodeStep(w: World, w': World, p: int, f: int, ip: int)
    requires WorldInv(w) && SetInode(w, w', p, f, ip)
    ensures WorldInv(w')
  {
    HasReference(w, p, f);
    WithInodeInv(w.t, f, ip);
    AgreesStep(w, w'.t, p, w'.held[p]);
    SharesStep(w, w', p, f, 0);
  }

  lemma SetPipeStep(w: World, w': World, p: int, f0: int, f1: int, page: int)
    requires WorldInv(w) && SetPipe(w, w', p, f0, f1, page)
    ensures WorldInv(w')
  {
    HasReference(w, p, f0);
    HasReference(w, p, f1);
    WithPipeInv(w.t, f0, f1, page);
    SharesStep(w, w', p, f0, 0);
  }

  lemma CountInodeStep(w: World, w': World, p: int, ip: int, d: int)
    requires WorldInv(w) && CountInode(w, w', p, ip, d)
    ensures WorldInv(w')
  {
    InodeRefInv(w.t, ip, d);
    AgreesStep(w, w'.t, p, w'.held[p]);
    SharesStep(w, w', p, 0, 0);
  }

  lemma SetDirectoryStep(w: World, w': World, p: int, q: int, ip: int)
    requires WorldInv(w) && SetDirectory(w, w', p, q, ip)
    ensures WorldInv(w')
  {
    WithCwdInv(w.t, q, ip);
    AgreesStep(w, w'.t, p, w'.held[p]);
    SharesStep(w, w', p, 0, 0);
  }

  lemma StepInv(w: World, w': World, e: Event)
    requires WorldInv(w) && Next(w, w', e)
    ensures WorldInv(w')
  {
    match e
    case AllocEvent(p, f) => NewRefStep(w, w', p, f);
    case DupEvent(p, f) => NewRefStep(w, w', p, f);
    case StoreEvent(p, q, fd, f) => StoreStep(w, w', p, q, fd, f);
    case EmptyEvent(p, fd) => EmptyStep(w, w', p, fd);
    case CloseSharedEvent(p, f) => CloseSharedStep(w, w', p, f);
    case CloseLastEvent(p, f) => CloseLastStep(w, w', p, f);
    case SetInodeEvent(p, f, ip) => SetInodeStep(w, w', p, f, ip);
    case SetPipeEvent(p, f0, f1, page) => SetPipeStep(w, w', p, f0, f1, page);
    case CountInodeEvent(p, ip, d) => CountInodeStep(w, w', p, ip, d);
    case SetDirectoryEvent(p, q, ip) => SetDirectoryStep(w, w', p, q, ip);
  }

  // ----- Runs -----

  /** Before the first process. */
  predicate Init(w: World) {
    && 0 < |w.t.files| && (forall i :: 0 <= i < |w.t.files| ==> w.t.files[i] == File(0, NoTarget))
    && |w.t.cwds| == |w.held| && (forall i :: 0 <= i < |w.t.cwds| ==> w.t.cwds[i] == 0)
    && |w.t.slots| == NOFILE * |w.held| && (forall i :: 0 <= i < |w.t.slots| ==> w.t.slots[i] == 0)
    && w.t.iref == map[] && w.t.pipes == map[] && w.t.heldF == map[] && w.t.heldI == map[]
    && (forall p :: 0 <= p < |w.held| ==> w.held[p] == Held(map[], map[]))
  }

  ghost predicate Step(w: World, w': World) {
    exists e :: Next(w, w', e)
  }

  ghost predicate StepAt(run: seq<World>, i: int)
    requires 0 <= i < |run|
  {
    if i == 0 then Init(run[0]) else Step(run[i - 1], run[i])
  }

  /** Every interleaving of steps of all processes. */
  ghost predicate IsRun(run: seq<World>) {
    |run| > 0 && forall i {:trigger StepAt(run, i)} :: 0 <= i < |run| ==> StepAt(run, i)
  }

  /** Process `p` is between two system calls: it holds nothing and owes nothing. */
  ghost predicate IsIdle(w: World, p: int)
    requires 0 <= p < |w.held|
  {
    && (forall f {:trigger Of(w.held[p].files, f)} :: Of(w.held[p].files, f) == 0)
    && (forall ip {:trigger Of(w.held[p].inodes, ip)} :: ip != 0 ==> Of(w.held[p].inodes, ip) == 0)
  }

  lemma {:induction false} IdleSums(held: seq<Held>, f: int)
    requires forall p :: 0 <= p < |held| ==> Of(held[p].files, f) == 0
    ensures SumFiles(held, f) == 0
  {
    if held != [] {
      IdleSums(held[..|held| - 1], f);
    }
  }

  lemma {:induction false} IdleInodeSums(held: seq<Held>, ip: int)
    requires forall p :: 0 <= p < |held| ==> Of(held[p].inodes, ip) == 0
    ensures SumInodes(held, ip) == 0
  {
    if held != [] {
      IdleInodeSums(held[..|held| - 1], ip);
    }
  }

  lemma InitInv(w: World)
    requires Init(w)
    ensures WorldInv(w)
  {
    EmptyInv(w.t);
    forall f
      ensures Of(w.t.heldF, f) == SumFiles(w.held, f)
    {
      IdleSums(w.held, f);
    }
    forall ip
      ensures Of(w.t.heldI, ip) == SumInodes(w.held, ip)
    {
      IdleInodeSums(w.held, ip);
    }
  }

  lemma {:induction false} RunInv(run: seq<World>, i: nat)
    requires IsRun(run) && i < |run|
    ensures WorldInv(run[i])
  {
    assert StepAt(run, i);
    if i == 0 {
      InitInv(run[0]);
    } else {
      RunInv(run, i - 1);
      var e :| Next(run[i - 1], run[i], e);
      StepInv(run[i - 1], run[i], e);
    }
  }

  /** In every interleaving, whenever no system call is in progress, references balance. */
  lemma BalancedWhenIdle(run: seq<World>, i: nat)
    requires IsRun(run) && i < |run|
    requires forall p :: 0 <= p < |run[i].held| ==> IsIdle(run[i], p)
    ensures Balanced(run[i].t)
  {
    RunInv(run, i);
    var w := run[i];
    forall f
      ensures Of(w.t.heldF, f) == 0
    {
      forall p | 0 <= p < |w.held|
        ensures Of(w.held[p].files, f) == 0
      {
        assert IsIdle(w, p);
      }
      IdleSums(w.held, f);
    }
    forall ip | ip != 0
      ensures Of(w.t.heldI, ip) == 0
    {
      forall p | 0 <= p < |w.held|
        ensures Of(w.held[p].inodes, ip) == 0
      {
        assert IsIdle(w, p);
      }
      IdleInodeSums(w.held, ip);
    }
    HeldNothing(w.t);
  }

  /** In every interleaving, a process that has a file, in a descriptor or a variable, finds it referenced. */
  lemma NeverDangling(run: seq<World>, i: nat, p: int, f: int)
    requires IsRun(run) && i < |run| && IsProc(run[i], p) && IsFile(run[i].t, f) && Share(run[i], p, f) >= 1
    ensures run[i].t.files[f].ref >= 1
  {
    RunInv(run, i);
    HasReference(run[i], p, f);
  }
}
