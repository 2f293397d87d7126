/**
 Reference counts of kernel/file.c, kernel/sysfile.c, kernel/pipe.c and
 kernel/proc.c: open files are counted by descriptor slots, inodes by open files
 and current directories. References that kernel code holds in its local
 variables between two steps are counted as held.
 */
module RefCounts {

  /** What an open file refers to: nothing yet, an inode (or device), or one end of a pipe. */
  datatype Target = NoTarget | Inode(ip: int) | PipeEnd(page: int, writable: bool)

  /** struct file. */
  datatype File = File(ref: int, target: Target)

  /** struct pipe, as far as its page is concerned. */
  datatype Ends = Ends(readopen: bool, writeopen: bool)

  /**
   ftable, the descriptor slots of all processes one after another (0 for an
   empty slot), their current directories (0 for none), the reference counts of
   the inodes in memory, and the pipe pages in use. `heldF` and `heldI` count
   the references that kernel code holds.
   */
  datatype Table = Table(files: seq<File>, slots: seq<int>, cwds: seq<int>, iref: map<int, int>, pipes: map<int, Ends>,
                         heldF: map<int, int>, heldI: map<int, int>)

  function Count(s: seq<int>, x: int): (n: int)
    ensures 0 <= n && (n > 0 <==> x in s)
  {
    if s == [] then 0 else (if s[0] == x then 1 else 0) + Count(s[1..], x)
  }

  /** How many open files refer to `x`. */
  function Uses(files: seq<File>, x: Target): (n: int)
    ensures 0 <= n
  {
    if files == [] then 0 else (if files[0].target == x then 1 else 0) + Uses(files[1..], x)
  }

  function Of(m: map<int, int>, x: int): int {
    if x in m then m[x] else 0
  }

  function Add(m: map<int, int>, x: int, d: int): (r: map<int, int>)
    ensures forall y {:trigger Of(r, y)} :: Of(r, y) == Of(m, y) + if y == x then d else 0
  {
    m[x := Of(m, x) + d]
  }

  predicate IsFile(t: Table, f: int) {
    1 <= f < |t.files|
  }

  /** ref counts the slots that hold the file; a file without references refers to nothing. */
  predicate FileOk(t: Table, f: int)
    requires IsFile(t, f)
  {
    && t.files[f].ref == Count(t.slots, f) + Of(t.heldF, f) && 0 <= t.files[f].ref
    && (t.files[f].ref == 0 ==> t.files[f].target.NoTarget?)
  }

  /** An inode's ref counts the open files and current directories. */
  predicate InodeOk(t: Table, ip: int) {
    ip != 0 ==> Of(t.iref, ip) == Uses(t.files, Inode(ip)) + Count(t.cwds, ip) + Of(t.heldI, ip)
  }

  /**
   A pipe page is in use exactly while an open file refers to one of its ends,
   and there is one file for each open end.
   */
  predicate PipeOk(t: Table, page: int) {
    var r, w := Uses(t.files, PipeEnd(page, false)), Uses(t.files, PipeEnd(page, true));
    && r <= 1 && w <= 1 && (page in t.pipes <==> r + w > 0)
    && (page in t.pipes ==> t.pipes[page] == Ends(r == 1, w == 1))
  }

  ghost predicate Inv(t: Table) {
    && (forall f {:trigger FileOk(t, f)} :: IsFile(t, f) ==> FileOk(t, f))
    && (forall ip {:trigger InodeOk(t, ip)} :: InodeOk(t, ip))
    && (forall page {:trigger PipeOk(t, page)} :: PipeOk(t, page))
    && (forall i {:trigger t.slots[i]} :: 0 <= i < |t.slots| ==> t.slots[i] == 0 || IsFile(t, t.slots[i]))
    && 0 < |t.files| && t.files[0] == File(0, NoTarget)
  }

  // ----- Counting -----

  lemma {:induction false} CountSet(s: seq<int>, i: int, y: int, x: int)
    requires 0 <= i < |s|
    ensures Count(s[i := y], x) == Count(s, x) - (if s[i] == x then 1 else 0) + (if y == x then 1 else 0)
  {
    if i == 0 {
      assert s[0 := y][1..] == s[1..];
    } else {
      assert s[i := y][1..] == s[1..][i - 1 := y];
      CountSet(s[1..], i - 1, y, x);
    }
  }

  lemma {:induction false} UsesSet(files: seq<File>, i: int, g: File, x: Target)
    requires 0 <= i < |files|
    ensures Uses(files[i := g], x) == Uses(files, x) - (if files[i].target == x then 1
      else 0) + (if g.target == x then 1 else 0)
  {
    if i == 0 {
      assert files[0 := g][1..] == files[1..];
    } else {
      assert files[i := g][1..] == files[1..][i - 1 := g];
      UsesSet(files[1..], i - 1, g, x);
    }
  }

  // ----- Steps -----

  /** An empty slot takes over a held reference. */
  function PutSlot(t: Table, i: int, f: int): Table
    requires 0 <= i < |t.slots|
  {
    t.(slots := t.slots[i := f], heldF := Add(t.heldF, f, -1))
  }

  lemma PutSlotInv(t: Table, i: int, f: int)
    requires Inv(t) && 0 <= i < |t.slots| && t.slots[i] == 0 && IsFile(t, f)
    ensures Inv(PutSlot(t, i, f))
  {
    SlotInv(t, i, f, f, -1);
  }

  /** A slot is emptied, and its reference is held. */
  function TakeSlot(t: Table, i: int): Table
    requires 0 <= i < |t.slots|
  {
    t.(slots := t.slots[i := 0], heldF := Add(t.heldF, t.slots[i], 1))
  }

  lemma TakeSlotInv(t: Table, i: int)
    requires Inv(t) && 0 <= i < |t.slots| && t.slots[i] != 0
    ensures IsFile(t, t.slots[i]) && Inv(TakeSlot(t, i))
  {
    SlotInv(t, i, 0, t.slots[i], 1);
  }

  lemma SlotInv(t: Table, i: int, y: int, f: int, d: int)
    requires Inv(t) && 0 <= i < |t.slots| && IsFile(t, f) &&
      ((t.slots[i] == 0 && y == f && d == -1) || (t.slots[i] == f && y == 0 && d == 1))
    ensures Inv(t.(slots := t.slots[i := y], heldF := Add(t.heldF, f, d)))
  {
    var t' := t.(slots := t.slots[i := y], heldF := Add(t.heldF, f, d));
    forall g | IsFile(t', g)
      ensures FileOk(t', g)
    {
      assert FileOk(t, g);
      CountSet(t.slots, i, y, g);
    }
    forall ip
      ensures InodeOk(t', ip)
    {
      assert InodeOk(t, ip);
    }
    forall page
      ensures PipeOk(t', page)
    {
      assert PipeOk(t, page);
    }
    forall k | 0 <= k < |t'.slots|
      ensures t'.slots[k] == 0 || IsFile(t', t'.slots[k])
    {
      assert k != i ==> t'.slots[k] == t.slots[k];
    }
  }

  /** filedup and filealloc: one more reference, held. */
  function NewRef(t: Table, f: int): Table
    requires IsFile(t, f)
  {
    t.(files := t.files[f := t.files[f].(ref := t.files[f].ref + 1)], heldF := Add(t.heldF, f, 1))
  }

  lemma NewRefInv(t: Table, f: int)
    requires Inv(t) && IsFile(t, f)
    ensures Inv(NewRef(t, f))
  {
    assert FileOk(t, f);
    RefInv(t, f, t.files[f].(ref := t.files[f].ref + 1), 1);
  }

  /** A file's count and its held references change together; what it refers to does not. */
  lemma RefInv(t: Table, f: int, g: File, d: int)
    requires Inv(t) && IsFile(t, f) && g == File(t.files[f].ref + d, t.files[f].target) && 0 <= g.ref &&
      (g.ref == 0 ==> g.target.NoTarget?)
    ensures Inv(t.(files := t.files[f := g], heldF := Add(t.heldF, f, d)))
  {
    var t' := t.(files := t.files[f := g], heldF := Add(t.heldF, f, d));
    forall h | IsFile(t', h)
      ensures FileOk(t', h)
    {
      assert FileOk(t, h);
    }
    forall ip
      ensures InodeOk(t', ip)
    {
      assert InodeOk(t, ip);
      UsesSet(t.files, f, g, Inode(ip));
    }
    forall page
      ensures PipeOk(t', page)
    {
      assert PipeOk(t, page);
      UsesSet(t.files, f, g, PipeEnd(page, false));
      UsesSet(t.files, f, g, PipeEnd(page, true));
    }
  }

  /** pipeclose; the page is given back when both ends are closed. */
  function PipeClosed(pipes: map<int, Ends>, page: int, writable: bool): map<int, Ends>
    requires page in pipes
  {
    var e := if writable then pipes[page].(writeopen := false) else pipes[page].(readopen := false);
    if !e.readopen && !e.writeopen then pipes - {page} else pipes[page := e]
  }

  /** The last reference to a file goes: what it referred to is held by fileclose, or its pipe end is closed. */
  function Cleared(t: Table, f: int): Table
    requires IsFile(t, f) && (t.files[f].target.PipeEnd? ==> t.files[f].target.page in t.pipes)
  {
    var x := t.files[f].target;
    t.(files := t.files[f := File(0, NoTarget)], heldF := Add(t.heldF, f, -1),
       heldI := if x.Inode? then Add(t.heldI, x.ip, 1) else t.heldI,
       pipes := if x.PipeEnd? then PipeClosed(t.pipes, x.page, x.writable) else t.pipes)
  }

  lemma PipeInUse(t: Table, f: int)
    requires Inv(t) && IsFile(t, f) && t.files[f].target.PipeEnd?
    ensures t.files[f].target.page in t.pipes
  {
    var x := t.files[f].target;
    assert PipeOk(t, x.page);
    UsesSet(t.files, f, File(0, NoTarget), x);
  }

  lemma ClearInv(t: Table, f: int)
    requires Inv(t) && IsFile(t, f) && t.files[f].ref == 1
    ensures t.files[f].target.PipeEnd? ==> t.files[f].target.page in t.pipes
    ensures Inv(Cleared(t, f))
  {
    var x, g := t.files[f].target, File(0, NoTarget);
    if x.PipeEnd? {
      PipeInUse(t, f);
    }
    var t' := Cleared(t, f);
    forall h | IsFile(t', h)
      ensures FileOk(t', h)
    {
      assert FileOk(t, h);
    }
    forall ip
      ensures InodeOk(t', ip)
    {
      assert InodeOk(t, ip);
      UsesSet(t.files, f, g, Inode(ip));
    }
    forall page
      ensures PipeOk(t', page)
    {
      assert PipeOk(t, page);
      UsesSet(t.files, f, g, PipeEnd(page, false));
      UsesSet(t.files, f, g, PipeEnd(page, true));
    }
  }

  /** A new file gets the inode that its creator holds. */
  function WithInode(t: Table, f: int, ip: int): Table
    requires IsFile(t, f)
  {
    t.(files := t.files[f := t.files[f].(target := Inode(ip))], heldI := Add(t.heldI, ip, -1))
  }

  lemma WithInodeInv(t: Table, f: int, ip: int)
    requires Inv(t) && IsFile(t, f) && t.files[f].ref > 0 && t.files[f].target.NoTarget? && ip != 0
    ensures Inv(WithInode(t, f, ip))
  {
    var t' := WithInode(t, f, ip);
    var g := t'.files[f];
    forall h | IsFile(t', h)
      ensures FileOk(t', h)
    {
      assert FileOk(t, h);
    }
    forall i
      ensures InodeOk(t', i)
    {
      assert InodeOk(t, i);
      UsesSet(t.files, f, g, Inode(i));
    }
    forall page
      ensures PipeOk(t', page)
    {
      assert PipeOk(t, page);
      UsesSet(t.files, f, g, PipeEnd(page, false));
      UsesSet(t.files, f, g, PipeEnd(page, true));
    }
  }

  /** Two new files become the ends of a new pipe. */
  function WithPipe(t: Table, f0: int, f1: int, page: int): Table
    requires IsFile(t, f0) && IsFile(t, f1)
  {
    var g0, g1 := t.files[f0].(target := PipeEnd(page, false)), t.files[f1].(target := PipeEnd(page, true));
    t.(files := t.files[f0 := g0][f1 := g1], pipes := t.pipes[page := Ends(true, true)])
  }

  lemma WithPipeInv(t: Table, f0: int, f1: int, page: int)
    requires Inv(t) && IsFile(t, f0) && IsFile(t, f1) && f0 != f1 && page !in t.pipes
    requires t.files[f0].ref > 0 && t.files[f0].target.NoTarget? && t.files[f1].ref > 0 && t.files[f1].target.NoTarget?
    ensures Inv(WithPipe(t, f0, f1, page))
  {
    var t' := WithPipe(t, f0, f1, page);
    var g0, g1 := t'.files[f0], t'.files[f1];
    forall h | IsFile(t', h)
      ensures FileOk(t', h)
    {
      assert FileOk(t, h);
    }
    forall i
      ensures InodeOk(t', i)
    {
      assert InodeOk(t, i);
      UsesSet(t.files, f0, g0, Inode(i));
      UsesSet(t.files[f0 := g0], f1, g1, Inode(i));
    }
    forall q
      ensures PipeOk(t', q)
    {
      assert PipeOk(t, q);
      UsesSet(t.files, f0, g0, PipeEnd(q, false));
      UsesSet(t.files[f0 := g0], f1, g1, PipeEnd(q, false));
      UsesSet(t.files, f0, g0, PipeEnd(q, true));
      UsesSet(t.files[f0 := g0], f1, g1, PipeEnd(q, true));
    }
  }

  /** iget, idup and iput: the count and the held references change together. */
  function InodeRef(t: Table, ip: int, d: int): Table {
    t.(iref := Add(t.iref, ip, d), heldI := Add(t.heldI, ip, d))
  }

  lemma InodeRefInv(t: Table, ip: int, d: int)
    requires Inv(t)
    ensures Inv(InodeRef(t, ip, d))
  {
    var t' := InodeRef(t, ip, d);
    forall h | IsFile(t', h)
      ensures FileOk(t', h)
    {
      assert FileOk(t, h);
    }
    forall i
      ensures InodeOk(t', i)
    {
      assert InodeOk(t, i);
    }
    forall page
      ensures PipeOk(t', page)
    {
      assert PipeOk(t, page);
    }
  }

  /** A current directory is replaced: the new one was held, the old one is held now. */
  function WithCwd(t: Table, p: int, ip: int): Table
    requires 0 <= p < |t.cwds|
  {
    t.(cwds := t.cwds[p := ip], heldI := Add(Add(t.heldI, t.cwds[p], 1), ip, -1))
  }

  lemma WithCwdInv(t: Table, p: int, ip: int)
    requires Inv(t) && 0 <= p < |t.cwds|
    ensures Inv(WithCwd(t, p, ip))
  {
    var t' := WithCwd(t, p, ip);
    forall h | IsFile(t', h)
      ensures FileOk(t', h)
    {
      assert FileOk(t, h);
    }
    forall i
      ensures InodeOk(t', i)
    {
      assert InodeOk(t, i);
      CountSet(t.cwds, p, ip, i);
    }
    forall page
      ensures PipeOk(t', page)
    {
      assert PipeOk(t, page);
    }
  }

  /** fileclose: one reference less; with the last one go the inode or the pipe end. */
  function Closed(t: Table, f: int): Table
    requires IsFile(t, f) && (t.files[f].target.PipeEnd? ==> t.files[f].target.page in t.pipes)
  {
    if t.files[f].ref > 1 then
      t.(files := t.files[f := t.files[f].(ref := t.files[f].ref - 1)], heldF := Add(t.heldF, f, -1))
    else if t.files[f].target.Inode? then InodeRef(Cleared(t, f), t.files[f].target.ip, -1)
    else Cleared(t, f)
  }

  /** Nothing has changed that a system call or another process could see. */
  ghost predicate Same(t: Table, t': Table) {
    && t'.files == t.files && t'.slots == t.slots && t'.cwds == t.cwds && t'.pipes == t.pipes
    && SameHeld(t, t') && forall x {:trigger Of(t'.iref, x)} :: Of(t'.iref, x) == Of(t.iref, x)
  }

  /** Files may have more references than before, and refer to what they referred to. */
  ghost predicate OnlyShared(files: seq<File>, files': seq<File>) {
    && |files'| == |files|
    && forall f {:trigger files'[f]} ::
        0 <= f < |files| ==> files'[f].ref >= files[f].ref && files'[f].target == files[f].target
  }

  /** Files may have lost references; one that is still in use refers to what it referred to. */
  ghost predicate OnlyClosed(files: seq<File>, files': seq<File>) {
    && |files'| == |files|
    && forall f {:trigger files'[f]} ::
        0 <= f < |files| ==> || files'[f] == files[f] || files'[f] == File(0, NoTarget)
                             || (0 < files'[f].ref < files[f].ref && files'[f].target == files[f].target)
  }

  /** The caller holds what it held before. */
  ghost predicate SameHeld(t: Table, t': Table) {
    && (forall x {:trigger Of(t'.heldF, x)} :: Of(t'.heldF, x) == Of(t.heldF, x))
    && (forall x {:trigger Of(t'.heldI, x)} :: Of(t'.heldI, x) == Of(t.heldI, x))
  }

  /** fileclose uses up one held reference and no other. */
  lemma ClosedHeld(t: Table, f: int)
    requires IsFile(t, f) && (t.files[f].target.PipeEnd? ==> t.files[f].target.page in t.pipes)
    ensures var t' := Closed(t, f);
            && (forall x {:trigger Of(t'.heldF, x)} :: Of(t'.heldF, x) == Of(t.heldF, x) - if x == f then 1 else 0)
            && (forall x {:trigger Of(t'.heldI, x)} :: Of(t'.heldI, x) == Of(t.heldI, x))
  {
  }

  /** Emptying a slot and closing its file leaves nothing held. */
  lemma CloseSlotHeld(t: Table, i: int, f: int)
    requires 0 <= i < |t.slots| && f == t.slots[i] && IsFile(t, f) &&
      (t.files[f].target.PipeEnd? ==> t.files[f].target.page in t.pipes)
    ensures SameHeld(t, Closed(TakeSlot(t, i), f))
  {
    ClosedHeld(TakeSlot(t, i), f);
  }

  /** Closing a new file that never got a slot or a target undoes filealloc. */
  lemma CloseNew(t: Table, f: int)
    requires IsFile(t, f) && t.files[f] == File(0, NoTarget)
    ensures Same(t, Closed(NewRef(t, f), f))
  {
    var t' := Closed(NewRef(t, f), f);
    assert t'.files == t.files;
  }

  /** No kernel code holds a reference; there is no inode 0. */
  ghost predicate NothingHeld(t: Table) {
    && (forall x {:trigger Of(t.heldF, x)} :: Of(t.heldF, x) == 0)
    && (forall x {:trigger Of(t.heldI, x)} :: x != 0 ==> Of(t.heldI, x) == 0)
  }

  /**
   Each file's ref is the number of slots that hold it, each inode's ref the
   number of its open files and current directories, and a pipe page is in use
   exactly while one of its ends is open.
   */
  ghost predicate Balanced(t: Table) {
    && (forall f {:trigger t.files[f]} :: IsFile(t, f) ==> t.files[f].ref == Count(t.slots, f))
    && (forall ip {:trigger Of(t.iref, ip)} ::
        ip != 0 ==> Of(t.iref, ip) == Uses(t.files, Inode(ip)) + Count(t.cwds, ip))
    && (forall page {:trigger page in t.pipes} :: page in t.pipes <==> IsEnd(t, page))
  }

  /** Some open file is an end of the pipe. */
  ghost predicate IsEnd(t: Table, page: int) {
    exists f {:trigger t.files[f]} ::
        IsFile(t, f) && t.files[f].ref > 0 && t.files[f].target.PipeEnd? && t.files[f].target.page == page
  }

  /** When nothing is held, the counts balance. */
  lemma HeldNothing(t: Table)
    requires Inv(t) && NothingHeld(t)
    ensures Balanced(t)
  {
    forall f | IsFile(t, f)
      ensures t.files[f].ref == Count(t.slots, f)
    {
      assert FileOk(t, f);
    }
    forall ip | ip != 0
      ensures Of(t.iref, ip) == Uses(t.files, Inode(ip)) + Count(t.cwds, ip)
    {
      assert InodeOk(t, ip);
    }
    forall page
      ensures page in t.pipes <==> IsEnd(t, page)
    {
      PipeHasEnd(t, page);
    }
  }

  lemma PipeHasEnd(t: Table, page: int)
    requires Inv(t)
    ensures page in t.pipes <==> IsEnd(t, page)
  {
    assert PipeOk(t, page);
    if page in t.pipes {
      var f := FindUse(t.files, PipeEnd(page, Uses(t.files, PipeEnd(page, false)) == 0));
      assert IsFile(t, f) && FileOk(t, f);
    }
    if IsEnd(t, page) {
      var f :| IsFile(t, f) && t.files[f].ref > 0 && t.files[f].target.PipeEnd? && t.files[f].target.page == page;
      PipeInUse(t, f);
    }
  }

  lemma {:induction false} FindUse(files: seq<File>, x: Target) returns (f: int)
    requires Uses(files, x) > 0
    ensures 0 <= f < |files| && files[f].target == x
  {
    if files[0].target == x {
      f := 0;
    } else {
      f := FindUse(files[1..], x);
      f := f + 1;
    }
  }
}

/** The system calls. */
module RefCode {
  import opened RefCounts

  const NOFILE: int := 16

  /** Where p->ofile[fd] is. */
  function Slot(p: int, fd: int): int {
    p * NOFILE + fd
  }

  /** No reference is missing: every slot's reference is counted. */
  ghost predicate NothingOwed(t: Table) {
    forall x {:trigger Of(t.heldF, x)} :: 0 <= Of(t.heldF, x)
  }

  /** A file in a slot has a reference. */
  lemma SlotHasRef(t: Table, i: int)
    requires Inv(t) && NothingOwed(t) && 0 <= i < |t.slots| && t.slots[i] != 0
    ensures IsFile(t, t.slots[i]) && t.files[t.slots[i]].ref >= 1
  {
    var f := t.slots[i];
    assert IsFile(t, f) && FileOk(t, f);
    assert f in t.slots && 0 <= Of(t.heldF, f);
  }

  /** Every open file is in use. */
  ghost predicate NoFile(t: Table) {
    forall f {:trigger t.files[f]} :: IsFile(t, f) ==> t.files[f].ref != 0
  }

  /** Every descriptor of process `p` is in use. */
  ghost predicate NoSlot(t: Table, p: int) {
    forall fd {:trigger Slot(p, fd)} :: 0 <= fd < NOFILE && 0 <= Slot(p, fd) < |t.slots| ==> t.slots[Slot(p, fd)] != 0
  }

  /** Process `p` has two free descriptors. */
  ghost predicate TwoSlots(t: Table, p: int) {
    exists i, j {:trigger Slot(p, i), Slot(p, j)} ::
      0 <= i < j < NOFILE && 0 <= Slot(p, i) && Slot(p, j) < |t.slots| && t.slots[Slot(p, i)] == 0 &&
          t.slots[Slot(p, j)] == 0
  }

  /** Descriptor `fd` of process `p` is open. */
  predicate IsOpen(t: Table, p: int, fd: int) {
    0 <= fd < NOFILE && 0 <= Slot(p, fd) < |t.slots| && t.slots[Slot(p, fd)] != 0
  }

  /** A process without a current directory has no open file. */
  ghost predicate NoStrays(t: Table) {
    forall p, fd {:trigger Slot(p, fd)} ::
      0 <= p < |t.cwds| && t.cwds[p] == 0 && 0 <= fd < NOFILE && Slot(p, fd) < |t.slots| ==> t.slots[Slot(p, fd)] == 0
  }

  /** Only the slots of a process with a current directory have changed. */
  lemma NoStraysOf(t: Table, t': Table, p: int)
    requires NoStrays(t) && 0 <= p < |t.cwds| && t.cwds[p] != 0 && |t'.slots| == |t.slots| && t'.cwds == t.cwds
    requires forall j {:trigger t'.slots[j]} ::
               0 <= j < |t.slots| && !(Slot(p, 0) <= j < Slot(p, NOFILE)) ==> t'.slots[j] == t.slots[j]
    ensures NoStrays(t')
  {
    forall q, fd | 0 <= q < |t'.cwds| && t'.cwds[q] == 0 && 0 <= fd < NOFILE && Slot(q, fd) < |t'.slots|
      ensures t'.slots[Slot(q, fd)] == 0
    {
      assert t'.slots[Slot(q, fd)] == t.slots[Slot(q, fd)];
    }
  }

  /**
   A system call of process `p` with what it depends on, or the start of the
   first process with the root directory.
   */
  datatype SysCall =
    | Start(p: int, ip: int)
    | Dup(p: int, fd: int)
    | Close(p: int, fd: int)
    | Open(p: int, creating: bool, found: Lookup, missing: bool, dirWrite: bool, bad: bool)
    | Chdir(p: int, missing: bool, ip: int, isDir: bool)
    | NewPipe(p: int, page: int, copyFails: bool)
    | Fork(p: int, np: int)
    | Exit(p: int)

  /** How path resolution in create goes: `dp` is the parent directory and `ip` the inode. */
  datatype Lookup =
    | NoParent(dp: int, ip: int)
    | Exists(dp: int, ip: int, usable: bool)
    | NoInode(dp: int, ip: int)
    | LinkFails(dp: int, ip: int)
    | Made(dp: int, ip: int)

  predicate CreateGives(found: Lookup) {
    (found.Exists? && found.usable) || found.Made?
  }

  /** One more reference to `ip`, which the caller holds. */
  ghost predicate GotInode(t: Table, t': Table, ip: int) {
    Same(InodeRef(t, ip, 1), t')
  }

  /** The references that create gets and puts, on each way through it. */
  lemma CreateRefs(t: Table, a: int, b: int)
    ensures var t1 := InodeRef(t, a, 1); var t2 := InodeRef(t1, b, 1);
            && Same(t, InodeRef(t1, a, -1))
            && GotInode(t, InodeRef(t2, a, -1), b)
            && Same(t, InodeRef(InodeRef(t2, a, -1), b, -1))
            && Same(t, InodeRef(InodeRef(t2, b, -1), a, -1))
  {
    PutBack(t, a);
    PutBackFirst(t, a, b);
    PutBackBoth(t, a, b);
    PutBackLast(t, a, b);
  }

  lemma PutBack(t: Table, a: int)
    ensures Same(t, InodeRef(InodeRef(t, a, 1), a, -1))
  {
  }

  lemma PutBackFirst(t: Table, a: int, b: int)
    ensures GotInode(t, InodeRef(InodeRef(InodeRef(t, a, 1), b, 1), a, -1), b)
  {
  }

  lemma PutBackBoth(t: Table, a: int, b: int)
    ensures Same(t, InodeRef(InodeRef(InodeRef(InodeRef(t, a, 1), b, 1), a, -1), b, -1))
  {
  }

  lemma PutBackLast(t: Table, a: int, b: int)
    ensures Same(t, InodeRef(InodeRef(InodeRef(InodeRef(t, a, 1), b, 1), b, -1), a, -1))
  {
  }

  /** Slot `i` holds a new file for the inode that was held. */
  ghost predicate Opened(t: Table, t': Table, i: int, ip: int) {
    && 0 <= i < |t.slots| && |t'.slots| == |t.slots| && t.slots[i] == 0 && IsFile(t, t'.slots[i])
    && t.files[t'.slots[i]] == File(0, NoTarget)
    && t'.slots == t.slots[i := t'.slots[i]] && t'.files == t.files[t'.slots[i] := File(1, Inode(ip))]
    && t'.cwds == t.cwds && t'.pipes == t.pipes && t'.iref == t.iref
    && (forall x {:trigger Of(t'.heldF, x)} :: Of(t'.heldF, x) == Of(t.heldF, x))
    && (forall x {:trigger Of(t'.heldI, x)} :: Of(t'.heldI, x) == Of(t.heldI, x) - if x == ip then 1 else 0)
  }

  /** The same, with a new reference to the inode. */
  ghost predicate OpenedNew(t: Table, t': Table, i: int, ip: int) {
    && 0 <= i < |t.slots| && |t'.slots| == |t.slots| && t.slots[i] == 0 && IsFile(t, t'.slots[i])
    && t.files[t'.slots[i]] == File(0, NoTarget)
    && t'.slots == t.slots[i := t'.slots[i]] && t'.files == t.files[t'.slots[i] := File(1, Inode(ip))]
    && t'.cwds == t.cwds && t'.pipes == t.pipes && SameHeld(t, t')
    && (forall x {:trigger Of(t'.iref, x)} :: Of(t'.iref, x) == Of(t.iref, x) + if x == ip then 1 else 0)
  }

  lemma OpenEnds(t: Table, t1: Table, t2: Table, fd: int, i: int, ip: int)
    requires GotInode(t, t1, ip)
    requires if fd == -1 then Same(InodeRef(t1, ip, -1), t2) else Opened(t1, t2, i, ip)
    ensures if fd == -1 then Same(t, t2) else OpenedNew(t, t2, i, ip)
  {
  }

  lemma OpenedIs(t: Table, i: int, f: int, ip: int)
    requires IsFile(t, f) && 0 <= i < |t.slots| && t.slots[i] == 0 && t.files[f] == File(0, NoTarget)
    ensures Opened(t, WithInode(PutSlot(NewRef(t, f), i, f), f, ip), i, ip)
  {
    var t' := WithInode(PutSlot(NewRef(t, f), i, f), f, ip);
    assert t'.files == t.files[f := File(1, Inode(ip))];
  }

  /** Two different files that were free. */
  predicate NewFiles(t: Table, f: int, g: int) {
    IsFile(t, f) && IsFile(t, g) && f != g && t.files[f] == File(0, NoTarget) && t.files[g] == File(0, NoTarget)
  }

  /** There are two free files. */
  ghost predicate TwoFiles(t: Table) {
    exists f, g :: NewFiles(t, f, g)
  }

  /** If none is free once `f` is taken, there were not two. */
  lemma OnlyFile(t: Table, f: int)
    requires IsFile(t, f) && NoFile(NewRef(t, f))
    ensures !TwoFiles(t)
  {
    forall x | IsFile(t, x) && x != f
      ensures t.files[x].ref != 0
    {
      assert NewRef(t, f).files[x] == t.files[x];
    }
  }

  lemma TakePut(t: Table, i: int, f: int)
    requires 0 <= i < |t.slots| && t.slots[i] == 0
    ensures Same(t, TakeSlot(PutSlot(t, i, f), i))
  {
    assert TakeSlot(PutSlot(t, i, f), i).slots == t.slots;
  }

  lemma TakePutTwo(t: Table, i: int, f: int, j: int, g: int)
    requires 0 <= i < |t.slots| && 0 <= j < |t.slots| && i != j && t.slots[i] == 0 && t.slots[j] == 0
    ensures Same(t, TakeSlot(TakeSlot(PutSlot(PutSlot(t, i, f), j, g), i), j))
  {
    assert TakeSlot(TakeSlot(PutSlot(PutSlot(t, i, f), j, g), i), j).slots == t.slots;
  }

  lemma CloseNewTwo(t: Table, f: int, g: int)
    requires NewFiles(t, f, g)
    ensures var t1 := NewRef(NewRef(t, f), g);
      !t1.files[f].target.PipeEnd? && !t1.files[g].target.PipeEnd? && Same(t, Closed(Closed(t1, f), g))
  {
    var t' := Closed(Closed(NewRef(NewRef(t, f), g), f), g);
    assert t'.files == t.files;
  }

  /** Closing both ends of a new pipe gives its page back and leaves everything as it was. */
  lemma PipeUndone(t: Table, f: int, g: int, page: int, t3: Table)
    requires NewFiles(t, f, g) && page !in t.pipes && Same(WithPipe(NewRef(NewRef(t, f), g), f, g, page), t3)
    ensures page in t3.pipes && page in Closed(t3, f).pipes && Same(t, Closed(Closed(t3, f), g))
  {
    var t4 := Closed(t3, f);
    assert t3.files[f] == File(1, PipeEnd(page, false)) && t3.files[g] == File(1, PipeEnd(page, true));
    assert t4.pipes == t.pipes[page := Ends(false, true)];
    var t5 := Closed(t4, g);
    assert t5.pipes == t.pipes;
    assert t5.files == t.files;
    ClosedHeld(t3, f);
    ClosedHeld(t4, g);
  }

  lemma {:induction false} NoneUsed(files: seq<File>, x: Target)
    requires !x.NoTarget? && forall i :: 0 <= i < |files| ==> files[i] == File(0, NoTarget)
    ensures Uses(files, x) == 0
  {
    if files != [] {
      NoneUsed(files[1..], x);
    }
  }

  lemma EmptyInv(t: Table)
    requires 0 < |t.files| && (forall i :: 0 <= i < |t.files| ==> t.files[i] == File(0, NoTarget)) &&
      (forall i :: 0 <= i < |t.slots| ==> t.slots[i] == 0)
    requires (forall i :: 0 <= i < |t.cwds| ==> t.cwds[i] == 0) && t.iref == map[] && t.pipes == map[] &&
      t.heldF == map[] && t.heldI == map[]
    ensures Inv(t)
  {
    forall ip
      ensures InodeOk(t, ip)
    {
      NoneUsed(t.files, Inode(ip));
    }
    forall page
      ensures PipeOk(t, page)
    {
      NoneUsed(t.files, PipeEnd(page, false));
      NoneUsed(t.files, PipeEnd(page, true));
    }
  }

  /** There is no inode 0: what is held of it does not matter. */
  lemma NoDirectory(t: Table)
    requires Inv(t)
    ensures forall d {:trigger Add(t.heldI, 0, d)} :: Inv(t.(heldI := Add(t.heldI, 0, d)))
  {
    forall d
      ensures Inv(t.(heldI := Add(t.heldI, 0, d)))
    {
      var t' := t.(heldI := Add(t.heldI, 0, d));
      forall h | IsFile(t', h)
        ensures FileOk(t', h)
      {
        assert FileOk(t, h);
      }
      forall i
        ensures InodeOk(t', i)
      {
        assert InodeOk(t, i);
      }
      forall page
        ensures PipeOk(t', page)
      {
        assert PipeOk(t, page);
      }
    }
  }

  class FileTable {
    const file: array<File>
    const ofile: array<int>
    const cwd: array<int>
    var iref: map<int, int>
    var pipes: map<int, Ends>
    ghost var heldF: map<int, int>
    ghost var heldI: map<int, int>

    ghost function View(): Table
      reads this, file, ofile, cwd
    {
      Table(file[..], ofile[..], cwd[..], iref, pipes, heldF, heldI)
    }

    ghost predicate Valid()
      reads this, file, ofile, cwd
    {
      ofile != cwd && Inv(View()) && ofile.Length == NOFILE * cwd.Length
    }

    /** Between two system calls: no reference is held, and the counts balance. */
    ghost predicate Boundary()
      reads this, file, ofile, cwd
    {
      Valid() && NothingHeld(View()) && NoStrays(View())
    }

    /** Before the first process: no file is open, no slot is taken, no directory is held. */
    constructor (nfile: int, nproc: int)
      requires 0 <= nfile && 0 <= nproc
      ensures Boundary() && iref == map[] && pipes == map[] && cwd.Length == nproc && file.Length == nfile + 1
      ensures heldF == map[] && heldI == map[]
      ensures fresh(file) && fresh(ofile) && fresh(cwd)
    {
      file := new File[nfile + 1](_ => File(0, NoTarget));
      ofile := new int[NOFILE * nproc](_ => 0);
      cwd := new int[nproc](_ => 0);
      iref, pipes, heldF, heldI := map[], map[], map[], map[];
      new;
      EmptyInv(View());
    }

    method FileAlloc() returns (f: int)
      requires Valid()
      modifies this`heldF, file
      ensures Valid()
      ensures f == 0 <==> NoFile(old(View()))
      ensures f == 0 ==> View() == old(View())
      ensures f != 0 ==> IsFile(old(View()), f) && old(file[f]) == File(0, NoTarget) && View() == NewRef(old(View()), f)
    {
      f := 1;
      while f < file.Length
        invariant 1 <= f && View() == old(View())
        invariant forall g {:trigger file[g]} :: 1 <= g < f && g < file.Length ==> file[g].ref != 0
        decreases file.Length - f
      {
        if file[f].ref == 0 {
          assert FileOk(View(), f);
          NewRefInv(View(), f);
          file[f] := file[f].(ref := 1);
          heldF := Add(heldF, f, 1);
          assert View() == NewRef(old(View()), f);
          return;
        }
        f := f + 1;
      }
      f := 0;
    }

    /** filedup; its panic is the precondition. */
    method FileDup(f: int)
      requires Valid() && IsFile(View(), f) && file[f].ref >= 1
      modifies this`heldF, file
      ensures Valid() && View() == NewRef(old(View()), f)
    {
      NewRefInv(View(), f);
      file[f] := file[f].(ref := file[f].ref + 1);
      heldF := Add(heldF, f, 1);
      assert View() == NewRef(old(View()), f);
    }

    /** fileclose; its panic is the precondition. */
    method FileClose(f: int)
      requires Valid() && IsFile(View(), f) && file[f].ref >= 1
      modifies this`heldF, this`heldI, this`iref, this`pipes, file
      ensures old(file[f].target.PipeEnd? ==> file[f].target.page in pipes)
      ensures Valid() && View() == Closed(old(View()), f)
    {
      ghost var t := View();
      assert FileOk(t, f);
      if t.files[f].target.PipeEnd? {
        PipeInUse(t, f);
      }
      var ff := file[f];
      if ff.ref > 1 {
        RefInv(t, f, ff.(ref := ff.ref - 1), -1);
        file[f] := ff.(ref := ff.ref - 1);
        heldF := Add(heldF, f, -1);
        assert View() == Closed(t, f);
        return;
      }
      ClearInv(t, f);
      file[f] := File(0, NoTarget);
      heldF := Add(heldF, f, -1);
      if ff.target.PipeEnd? {
        pipes := PipeClosed(pipes, ff.target.page, ff.target.writable);
        assert View() == Cleared(t, f);
      } else if ff.target.Inode? {
        heldI := Add(heldI, ff.target.ip, 1);
        assert View() == Cleared(t, f);
        InodeRefInv(Cleared(t, f), ff.target.ip, -1);
        Iput(ff.target.ip);
        assert View() == Closed(t, f);
      } else {
        assert View() == Cleared(t, f);
      }
    }

    /** The reference count of iput. */
    method Iput(ip: int)
      requires Valid()
      modifies this`iref, this`heldI
      ensures Valid() && View() == InodeRef(old(View()), ip, -1)
    {
      InodeRefInv(View(), ip, -1);
      iref := Add(iref, ip, -1);
      heldI := Add(heldI, ip, -1);
    }

    /** The reference count of iget and idup. */
    method Iget(ip: int)
      requires Valid()
      modifies this`iref, this`heldI
      ensures Valid() && View() == InodeRef(old(View()), ip, 1)
    {
      InodeRefInv(View(), ip, 1);
      iref := Add(iref, ip, 1);
      heldI := Add(heldI, ip, 1);
    }

    /** fdalloc for process `p`: the slot takes over the reference. */
    method FdAlloc(p: int, f: int) returns (fd: int)
      requires Valid() && 0 <= p < cwd.Length && IsFile(View(), f)
      modifies this`heldF, ofile
      ensures Valid() && -1 <= fd < NOFILE
      ensures fd == -1 <==> NoSlot(old(View()), p)
      ensures fd == -1 ==> View() == old(View())
      ensures forall i {:trigger Slot(p, i)} :: 0 <= i < fd ==> old(ofile[Slot(p, i)]) != 0
      ensures fd != -1 ==> old(ofile[Slot(p, fd)]) == 0 && View() == PutSlot(old(View()), Slot(p, fd), f)
    {
      fd := 0;
      while fd < NOFILE
        invariant 0 <= fd <= NOFILE && View() == old(View())
        invariant forall i {:trigger Slot(p, i)} :: 0 <= i < fd ==> ofile[Slot(p, i)] != 0
      {
        if ofile[Slot(p, fd)] == 0 {
          PutSlotInv(View(), Slot(p, fd), f);
          ofile[Slot(p, fd)] := f;
          heldF := Add(heldF, f, -1);
          assert View() == PutSlot(old(View()), Slot(p, fd), f);
          return;
        }
        fd := fd + 1;
      }
      fd := -1;
    }

    /** argfd: the file in descriptor `fd` of process `p`, or 0. */
    method ArgFd(p: int, fd: int) returns (f: int)
      requires Valid() && 0 <= p < cwd.Length && NothingOwed(View())
      ensures f == 0 <==> !IsOpen(View(), p, fd)
      ensures f != 0 ==> f == ofile[Slot(p, fd)] && IsFile(View(), f) && file[f].ref >= 1
    {
      if fd < 0 || fd >= NOFILE {
        return 0;
      }
      f := ofile[Slot(p, fd)];
      if f != 0 {
        SlotHasRef(View(), Slot(p, fd));
      }
    }

    method SysDup(p: int, fd: int) returns (r: int)
      requires Valid() && 0 <= p < cwd.Length && NothingOwed(View())
      modifies this`heldF, file, ofile
      ensures Valid() && SameHeld(old(View()), View())
      ensures r == -1 <==> !IsOpen(old(View()), p, fd) || NoSlot(old(View()), p)
      ensures r == -1 ==> Same(old(View()), View())
      ensures r != -1 ==> 0 <= fd < NOFILE && 0 <= r < NOFILE && old(ofile[Slot(p, r)]) == 0
      ensures forall i {:trigger Slot(p, i)} :: 0 <= i < r ==> old(ofile[Slot(p, i)]) != 0
      ensures r != -1 ==> var f := old(ofile[Slot(p, fd)]);
        IsFile(old(View()), f) && View() == NewRef(PutSlot(old(View()), Slot(p, r), f), f)
      ensures r != -1 ==> var f := old(ofile[Slot(p, fd)]);
        ofile[..] == old(ofile[..])[Slot(p, r) := f] &&
        file[..] == old(file[..])[f := File(old(file[f].ref) + 1, old(file[f].target))]
    {
      var f := ArgFd(p, fd);
      if f == 0 {
        return -1;
      }
      r := FdAlloc(p, f);
      if r == -1 {
        return -1;
      }
      FileDup(f);
    }

    method SysClose(p: int, fd: int) returns (r: int)
      requires Valid() && 0 <= p < cwd.Length && NothingOwed(View())
      modifies this`heldF, this`heldI, this`iref, this`pipes, file, ofile
      ensures Valid() && SameHeld(old(View()), View())
      ensures r == if IsOpen(old(View()), p, fd) then 0 else -1
      ensures r == -1 ==> Same(old(View()), View())
      ensures r != -1 ==> var f, t := old(ofile[Slot(p, fd)]), TakeSlot(old(View()), Slot(p, fd));
                IsFile(t, f) && (t.files[f].target.PipeEnd? ==> t.files[f].target.page in t.pipes) &&
                    View() == Closed(t, f)
      ensures r != -1 ==> var f := old(ofile[Slot(p, fd)]);
        ofile[..] == old(ofile[..])[Slot(p, fd) := 0] &&
        file[..] == old(file[..])[f := if old(file[f].ref) > 1 then File(old(file[f].ref) - 1, old(file[f].target))
                                       else File(0, NoTarget)]
    {
      var f := ArgFd(p, fd);
      if f == 0 {
        return -1;
      }
      ghost var t := View();
      ClearSlot(p, fd);
      FileClose(f);
      CloseSlotHeld(t, Slot(p, fd), f);
      return 0;
    }

    /** p->ofile[fd] = 0 */
    method ClearSlot(p: int, fd: int)
      requires Valid() && 0 <= p < cwd.Length && 0 <= fd < NOFILE && ofile[Slot(p, fd)] != 0
      modifies this`heldF, ofile
      ensures Valid() && View() == TakeSlot(old(View()), Slot(p, fd))
    {
      ghost var t := View();
      TakeSlotInv(t, Slot(p, fd));
      heldF := Add(heldF, ofile[Slot(p, fd)], 1);
      ofile[Slot(p, fd)] := 0;
      assert View() == TakeSlot(t, Slot(p, fd));
    }

    /** create, for each way it can end; returns a held inode, or 0. */
    method Create(found: Lookup) returns (ip: int)
      requires Valid() && found.dp != 0 && found.ip != 0
      modifies this`iref, this`heldI
      ensures Valid()
      ensures ip == 0 ==> Same(old(View()), View())
      ensures ip != 0 ==> ip == found.ip && GotInode(old(View()), View(), ip)
      ensures ip != 0 <==> CreateGives(found)
    {
      CreateRefs(View(), found.dp, found.ip);
      if found.NoParent? {
        return 0;
      }
      Iget(found.dp);
      if found.Exists? {
        Iget(found.ip);
        Iput(found.dp);
        if found.usable {
          return found.ip;
        }
        Iput(found.ip);
        return 0;
      }
      if found.NoInode? {
        Iput(found.dp);
        return 0;
      }
      Iget(found.ip);
      if found.LinkFails? {
        Iput(found.ip);
        Iput(found.dp);
        return 0;
      }
      Iput(found.dp);
      return found.ip;
    }

    /** sys_open after path resolution gave the held inode `ip`; `bad` is a device number out of range. */
    method OpenInode(p: int, ip: int, bad: bool) returns (fd: int)
      requires Valid() && 0 <= p < cwd.Length && ip != 0
      modifies this`heldF, this`heldI, this`iref, this`pipes, file, ofile
      ensures Valid() && -1 <= fd < NOFILE
      ensures fd == -1 <==> bad || NoFile(old(View())) || NoSlot(old(View()), p)
      ensures fd == -1 ==> Same(InodeRef(old(View()), ip, -1), View())
      ensures fd != -1 ==> Opened(old(View()), View(), Slot(p, fd), ip)
    {
      ghost var t := View();
      if bad {
        Iput(ip);
        return -1;
      }
      var f := FileAlloc();
      fd := -1;
      if f != 0 {
        fd := FdAlloc(p, f);
      }
      if fd == -1 {
        if f != 0 {
          FileClose(f);
          CloseNew(t, f);
        }
        Iput(ip);
        return -1;
      }
      ghost var t1 := View();
      WithInodeInv(t1, f, ip);
      file[f] := file[f].(target := Inode(ip));
      heldI := Add(heldI, ip, -1);
      assert View() == WithInode(t1, f, ip);
      OpenedIs(t, Slot(p, fd), f, ip);
    }

    /**
     sys_open: with O_CREATE through create, and otherwise through namei, which may
     find nothing, or a directory opened for writing.
     */
    method SysOpen(p: int, creating: bool, found: Lookup, missing: bool, dirWrite: bool, bad: bool) returns (fd: int)
      requires Valid() && 0 <= p < cwd.Length && found.dp != 0 && found.ip != 0
      modifies this`heldF, this`heldI, this`iref, this`pipes, file, ofile
      ensures Valid() && -1 <= fd < NOFILE
      ensures fd == -1 <==> || (if creating then !CreateGives(found) else missing || dirWrite)
                            || bad || NoFile(old(View())) || NoSlot(old(View()), p)
      ensures fd == -1 ==> Same(old(View()), View())
      ensures fd != -1 ==> OpenedNew(old(View()), View(), Slot(p, fd), found.ip)
    {
      ghost var t := View();
      var ip;
      if creating {
        ip := Create(found);
        if ip == 0 {
          return -1;
        }
      } else {
        if missing {
          return -1;
        }
        ip := found.ip;
        Iget(ip);
        if dirWrite {
          Iput(ip);
          PutBack(t, ip);
          return -1;
        }
      }
      ghost var t1 := View();
      fd := OpenInode(p, ip, bad);
      OpenEnds(t, t1, View(), fd, Slot(p, fd), ip);
    }

    /** sys_chdir: namei finds nothing, or `ip`, which may not be a directory. */
    method SysChdir(p: int, missing: bool, ip: int, isDir: bool) returns (r: int)
      requires Valid() && 0 <= p < cwd.Length && ip != 0 && cwd[p] != 0
      modifies this`heldI, this`iref, cwd
      ensures Valid() && (r == 0 <==> !missing && isDir) && SameHeld(old(View()), View())
      ensures r != 0 ==> Same(old(View()), View())
      ensures r == 0 ==> cwd[..] == old(cwd[..])[p := ip]
    {
      ghost var t := View();
      if missing {
        return -1;
      }
      Iget(ip);
      if !isDir {
        Iput(ip);
        PutBack(t, ip);
        return -1;
      }
      var was := cwd[p];
      Iput(was);
      ghost var t1 := View();
      WithCwdInv(t1, p, ip);
      cwd[p] := ip;
      heldI := Add(Add(heldI, was, 1), ip, -1);
      assert View() == WithCwd(t1, p, ip);
      return 0;
    }

    /** pipealloc, where kalloc gives `page`, or 0; on failure it returns 0 and everything is as before. */
    method PipeAlloc(page: int) returns (rf: int, wf: int)
      requires Valid() && page !in pipes
      modifies this`heldF, this`heldI, this`iref, this`pipes, file
      ensures Valid()
      ensures rf == 0 <==> page == 0 || !TwoFiles(old(View()))
      ensures rf == 0 ==> Same(old(View()), View())
      ensures rf != 0 ==>
        NewFiles(old(View()), rf, wf) && View() == WithPipe(NewRef(NewRef(old(View()), rf), wf), rf, wf, page)
    {
      ghost var t := View();
      rf := FileAlloc();
      if rf == 0 {
        return 0, 0;
      }
      wf := FileAlloc();
      if wf == 0 {
        OnlyFile(t, rf);
        FileClose(rf);
        CloseNew(t, rf);
        return 0, 0;
      }
      if page == 0 {
        FileClose(rf);
        FileClose(wf);
        CloseNewTwo(t, rf, wf);
        return 0, 0;
      }
      ghost var t1 := View();
      assert NewFiles(t, rf, wf);
      WithPipeInv(t1, rf, wf, page);
      file[rf] := file[rf].(target := PipeEnd(page, false));
      file[wf] := file[wf].(target := PipeEnd(page, true));
      pipes := pipes[page := Ends(true, true)];
      assert View() == WithPipe(t1, rf, wf, page);
    }

    /** sys_pipe; `copyFails` says that copyout of the descriptors fails. */
    method SysPipe(p: int, page: int, copyFails: bool) returns (r: int, fd0: int, fd1: int)
      requires Valid() && 0 <= p < cwd.Length && page !in pipes
      modifies this`heldF, this`heldI, this`iref, this`pipes, file, ofile
      ensures Valid() && SameHeld(old(View()), View())
      ensures r == if page != 0 && TwoFiles(old(View())) && TwoSlots(old(View()), p) && !copyFails then 0 else -1
      ensures r == -1 ==> Same(old(View()), View())
      ensures r != -1 ==> 0 <= fd0 < NOFILE && 0 <= fd1 < NOFILE && fd0 != fd1 && page in pipes
      ensures r != -1 ==> NewFiles(old(View()), ofile[Slot(p, fd0)], ofile[Slot(p, fd1)])
      ensures r != -1 ==>
        file[ofile[Slot(p, fd0)]] == File(1, PipeEnd(page, false)) &&
        file[ofile[Slot(p, fd1)]] == File(1, PipeEnd(page, true))
      ensures r != -1 ==>
        ofile[..] == old(ofile[..])[Slot(p, fd0) := ofile[Slot(p, fd0)]][Slot(p, fd1) := ofile[Slot(p, fd1)]]
    {
      ghost var t := View();
      fd0, fd1 := -1, -1;
      var rf, wf := PipeAlloc(page);
      if rf == 0 {
        return -1, fd0, fd1;
      }
      ghost var t2 := View();
      var ok;
      ok, fd0, fd1 := TwoFds(p, rf, wf, copyFails);
      if !ok {
        ClosePipe(rf, wf, page, t, t2);
        return -1, fd0, fd1;
      }
      return 0, fd0, fd1;
    }

    /** The two calls of fdalloc in sys_pipe, and what it undoes if one of them or copyout fails. */
    method TwoFds(p: int, rf: int, wf: int, copyFails: bool) returns (ok: bool, fd0: int, fd1: int)
      requires Valid() && 0 <= p < cwd.Length && IsFile(View(), rf) && IsFile(View(), wf)
      modifies this`heldF, ofile
      ensures Valid() && (!ok ==> Same(old(View()), View()))
      ensures ok <==> TwoSlots(old(View()), p) && !copyFails
      ensures ok ==>
        0 <= fd0 < NOFILE && 0 <= fd1 < NOFILE && fd0 != fd1 &&
        View() == PutSlot(PutSlot(old(View()), Slot(p, fd0), rf), Slot(p, fd1), wf)
    {
      ghost var t := View();
      fd1 := -1;
      fd0 := FdAlloc(p, rf);
      if fd0 == -1 {
        return false, fd0, fd1;
      }
      fd1 := FdAlloc(p, wf);
      if fd1 == -1 {
        ClearSlot(p, fd0);
        TakePut(t, Slot(p, fd0), rf);
        return false, fd0, fd1;
      }
      if copyFails {
        ClearSlot(p, fd0);
        ClearSlot(p, fd1);
        TakePutTwo(t, Slot(p, fd0), rf, Slot(p, fd1), wf);
        return false, fd0, fd1;
      }
      return true, fd0, fd1;
    }

    /** The failure paths of sys_pipe: both files are closed, and with them the pipe. */
    method ClosePipe(rf: int, wf: int, page: int, ghost t: Table, ghost t2: Table)
      requires Valid() && Same(t2, View()) && NewFiles(t, rf, wf) && page !in t.pipes
      requires t2 == WithPipe(NewRef(NewRef(t, rf), wf), rf, wf, page)
      modifies this`heldF, this`heldI, this`iref, this`pipes, file
      ensures Valid() && Same(t, View())
    {
      ghost var t3 := View();
      assert t3.files == t2.files;
      FileClose(rf);
      FileClose(wf);
      PipeUndone(t, rf, wf, page, t3);
    }

    /** One turn of the loop of fork: the child's slot shares the parent's file. */
    method CopySlot(p: int, np: int, fd: int)
      requires Valid() && NothingOwed(View()) && 0 <= p < cwd.Length && 0 <= np < cwd.Length && p != np &&
        0 <= fd < NOFILE
      requires ofile[Slot(np, fd)] == 0
      modifies this`heldF, file, ofile
      ensures Valid() && SameHeld(old(View()), View())
      ensures ofile[..] == old(ofile[..])[Slot(np, fd) := ofile[Slot(p, fd)]] && OnlyShared(old(file[..]), file[..])
    {
      ghost var t := View();
      var f := ofile[Slot(p, fd)];
      if f != 0 {
        SlotHasRef(t, Slot(p, fd));
        FileDup(f);
        PutSlotInv(View(), Slot(np, fd), f);
        heldF := Add(heldF, f, -1);
        ofile[Slot(np, fd)] := f;
        assert View() == PutSlot(NewRef(t, f), Slot(np, fd), f);
      }
      assert ofile[..] == t.slots[Slot(np, fd) := ofile[Slot(p, fd)]];
    }

    /** fork's part: the child gets the parent's files and current directory. */
    method ForkFiles(p: int, np: int)
      requires Valid() && NothingOwed(View()) && 0 <= p < cwd.Length && 0 <= np < cwd.Length && p != np &&
        cwd[p] != 0 && cwd[np] == 0
      requires forall i {:trigger Slot(np, i)} :: 0 <= i < NOFILE ==> ofile[Slot(np, i)] == 0
      modifies this`heldF, this`heldI, this`iref, file, ofile, cwd
      ensures Valid() && SameHeld(old(View()), View())
      ensures forall i {:trigger Slot(np, i)} :: 0 <= i < NOFILE ==> ofile[Slot(np, i)] == old(ofile[Slot(p, i)])
      ensures forall j {:trigger ofile[j]} ::
        0 <= j < ofile.Length && !(Slot(np, 0) <= j < Slot(np, NOFILE)) ==> ofile[j] == old(ofile[j])
      ensures cwd[..] == old(cwd[..])[np := old(cwd[p])] && OnlyShared(old(file[..]), file[..])
    {
      ghost var t := View();
      var fd := 0;
      while fd < NOFILE
        invariant 0 <= fd <= NOFILE && Valid() && SameHeld(t, View()) && cwd[..] == old(cwd[..])
        invariant OnlyShared(old(file[..]), file[..])
        invariant forall i {:trigger Slot(np, i)} :: 0 <= i < fd ==> ofile[Slot(np, i)] == old(ofile[Slot(p, i)])
        invariant forall i {:trigger Slot(np, i)} :: fd <= i < NOFILE ==> ofile[Slot(np, i)] == 0
        invariant forall j {:trigger ofile[j]} ::
          0 <= j < ofile.Length && !(Slot(np, 0) <= j < Slot(np, NOFILE)) ==> ofile[j] == old(ofile[j])
      {
        CopySlot(p, np, fd);
        fd := fd + 1;
      }
      SetCwd(np, cwd[p]);
    }

    /** np->cwd = idup(p->cwd) */
    method SetCwd(np: int, ip: int)
      requires Valid() && 0 <= np < cwd.Length && cwd[np] == 0 && ip != 0
      modifies this`heldI, this`iref, cwd
      ensures Valid() && SameHeld(old(View()), View()) && cwd[..] == old(cwd[..])[np := ip] && heldF == old(heldF)
    {
      ghost var t := View();
      Iget(ip);
      ghost var t1 := View();
      WithCwdInv(t1, np, ip);
      cwd[np] := ip;
      heldI := Add(Add(heldI, 0, 1), ip, -1);
      assert View() == WithCwd(t1, np, ip);
      NoDirectory(View());
      heldI := Add(heldI, 0, -1);
    }

    /** One turn of the loop of exit. */
    method CloseSlot(p: int, fd: int)
      requires Valid() && NothingOwed(View()) && 0 <= p < cwd.Length && 0 <= fd < NOFILE
      modifies this`heldF, this`heldI, this`iref, this`pipes, file, ofile
      ensures Valid() && SameHeld(old(View()), View()) && ofile[..] == old(ofile[..])[Slot(p, fd) := 0]
      ensures OnlyClosed(old(file[..]), file[..])
    {
      ghost var t := View();
      var f := ofile[Slot(p, fd)];
      if f != 0 {
        SlotHasRef(t, Slot(p, fd));
        FileClose(f);
        ClosedHeld(t, f);
        ClearSlot(p, fd);
      }
      assert ofile[..] == t.slots[Slot(p, fd) := 0];
    }

    /** exit's part: all files are closed and the current directory is given up. */
    method ExitFiles(p: int)
      requires Valid() && NothingOwed(View()) && 0 <= p < cwd.Length && cwd[p] != 0
      modifies this`heldF, this`heldI, this`iref, this`pipes, file, ofile, cwd
      ensures Valid() && SameHeld(old(View()), View())
      ensures forall i {:trigger Slot(p, i)} :: 0 <= i < NOFILE ==> ofile[Slot(p, i)] == 0
      ensures forall j {:trigger ofile[j]} ::
        0 <= j < ofile.Length && !(Slot(p, 0) <= j < Slot(p, NOFILE)) ==> ofile[j] == old(ofile[j])
      ensures cwd[..] == old(cwd[..])[p := 0] && OnlyClosed(old(file[..]), file[..])
    {
      ghost var t := View();
      var fd := 0;
      while fd < NOFILE
        invariant 0 <= fd <= NOFILE && Valid() && SameHeld(t, View()) && cwd[..] == old(cwd[..])
        invariant OnlyClosed(old(file[..]), file[..])
        invariant forall i {:trigger Slot(p, i)} :: 0 <= i < fd ==> ofile[Slot(p, i)] == 0
        invariant forall j {:trigger ofile[j]} ::
          0 <= j < ofile.Length && !(Slot(p, 0) <= j < Slot(p, NOFILE)) ==> ofile[j] == old(ofile[j])
      {
        CloseSlot(p, fd);
        fd := fd + 1;
      }
      DropCwd(p);
    }

    /** iput(p->cwd); p->cwd = 0 */
    method DropCwd(p: int)
      requires Valid() && 0 <= p < cwd.Length && cwd[p] != 0
      modifies this`heldI, this`iref, cwd
      ensures Valid() && SameHeld(old(View()), View()) && cwd[..] == old(cwd[..])[p := 0] && heldF == old(heldF)
    {
      var ip := cwd[p];
      Iput(ip);
      ghost var t1 := View();
      WithCwdInv(t1, p, 0);
      cwd[p] := 0;
      heldI := Add(Add(heldI, ip, 1), 0, -1);
      assert View() == WithCwd(t1, p, 0);
      NoDirectory(View());
      heldI := Add(heldI, 0, 1);
    }

    /** Process `p` exists. */
    predicate IsLive(p: int)
      reads cwd
    {
      0 <= p < cwd.Length && cwd[p] != 0
    }

    /** Any system call of a process that exists, in any circumstances: afterwards no reference is held. */
    method Perform(c: SysCall)
      requires Boundary()
      modifies this, file, ofile, cwd
      ensures Boundary()
    {
      match c
      case Start(p, ip) => PerformStart(p, ip);
      case Dup(p, fd) => PerformDup(p, fd);
      case Close(p, fd) => PerformClose(p, fd);
      case Open(p, creating, found, missing, dirWrite, bad) =>
        PerformOpen(p, creating, found, missing, dirWrite, bad);
      case Chdir(p, missing, ip, isDir) =>
        if IsLive(p) && ip != 0 {
          var _ := SysChdir(p, missing, ip, isDir);
        }
      case NewPipe(p, page, copyFails) => PerformPipe(p, page, copyFails);
      case Fork(p, np) =>
        if IsLive(p) && 0 <= np < cwd.Length && cwd[np] == 0 {
          ForkFiles(p, np);
        }
      case Exit(p) =>
        if IsLive(p) {
          ExitFiles(p);
        }
    }

    method PerformStart(p: int, ip: int)
      requires Boundary()
      modifies this, cwd
      ensures Boundary()
    {
      if 0 <= p < cwd.Length && cwd[p] == 0 && ip != 0 {
        SetCwd(p, ip);
      }
    }

    method PerformDup(p: int, fd: int)
      requires Boundary()
      modifies this, file, ofile
      ensures Boundary()
    {
      if IsLive(p) {
        ghost var t := View();
        var _ := SysDup(p, fd);
        NoStraysOf(t, View(), p);
      }
    }

    method PerformClose(p: int, fd: int)
      requires Boundary()
      modifies this, file, ofile
      ensures Boundary()
    {
      if IsLive(p) {
        ghost var t := View();
        var _ := SysClose(p, fd);
        NoStraysOf(t, View(), p);
      }
    }

    method PerformOpen(p: int, creating: bool, found: Lookup, missing: bool, dirWrite: bool, bad: bool)
      requires Boundary()
      modifies this, file, ofile
      ensures Boundary()
    {
      if IsLive(p) && found.dp != 0 && found.ip != 0 {
        ghost var t := View();
        var _ := SysOpen(p, creating, found, missing, dirWrite, bad);
        NoStraysOf(t, View(), p);
      }
    }

    method PerformPipe(p: int, page: int, copyFails: bool)
      requires Boundary()
      modifies this, file, ofile
      ensures Boundary()
    {
      if IsLive(p) && page !in pipes {
        ghost var t := View();
        var _, _, _ := SysPipe(p, page, copyFails);
        NoStraysOf(t, View(), p);
      }
    }
  }

  /** After every sequence of system calls, whatever they run into, the counts balance. */
  method AfterAnyCalls(nfile: int, nproc: int, calls: seq<SysCall>) returns (table: FileTable)
    requires 0 <= nfile && 0 <= nproc
    ensures table.Boundary() && Balanced(table.View())
  {
    table := new FileTable(nfile, nproc);
    for i := 0 to |calls|
      invariant table.Boundary() && fresh(table) && fresh(table.file) && fresh(table.ofile) && fresh(table.cwd)
    {
      table.Perform(calls[i]);
    }
    HeldNothing(table.View());
  }
}
