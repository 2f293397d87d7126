/**
 kernel/fs.c's block allocator, block map, truncation, readi and writei, on the
 blocks as the buffer cache shows them. `logged` collects the blocks passed to
 log_write. Every method runs with the inode locked, so it is one atomic step.
 */
module FsCode {
  import opened FsBlocks
  import opened FsImage

  const MAXOPBLOCKS: nat := 10

  /** Everything logged since is a bitmap block of `bm`, or `a`, or `ind`, where 0 stands for none. */
  ghost predicate LoggedOnly(before: set<int>, after: set<int>, bm: seq<int>, a: int, ind: int) {
    forall b {:trigger b in after} ::
        b in after ==> b in before || b in bm || (b == a && a != 0) || (b == ind && ind != 0)
  }

  /** Block `b` has not changed, or it is logged. */
  predicate SavedAt(d: seq<Block>, d': seq<Block>, l': set<int>, b: int)
    requires 0 <= b < |d| == |d'|
  {
    d'[b] == d[b] || b in l'
  }

  /** Every block that differs between the two images is logged, and what was logged still is. */
  ghost predicate Saved(d: seq<Block>, l: set<int>, d': seq<Block>, l': set<int>) {
    && |d'| == |d| && l <= l'
    && forall b {:trigger SavedAt(d, d', l', b)} :: 0 <= b < |d| ==> SavedAt(d, d', l', b)
  }

  lemma SavedTwice(d: seq<Block>, l: set<int>, d': seq<Block>, l': set<int>, d'': seq<Block>, l'': set<int>)
    requires Saved(d, l, d', l') && Saved(d', l', d'', l'')
    ensures Saved(d, l, d'', l'')
  {
    forall b | 0 <= b < |d|
      ensures SavedAt(d, d'', l'', b)
    {
      assert SavedAt(d, d', l', b) && SavedAt(d', d'', l'', b);
    }
  }

  /** Logging the bitmap block of an allocated or freed block is enough; an allocated one is zeroed and logged too. */
  lemma SavedBitmap(sb: Superblock, d: seq<Block>, l: set<int>, b: int)
    requires sb.Valid() && Disk(sb, d) && sb.Data(b)
    ensures Saved(d, l, Allocated(sb, d, b), l + {sb.BitmapBlock(b), b}) &&
      Saved(d, l, Freed(sb, d, b), l + {sb.BitmapBlock(b)})
  {
  }

  /** A block that is written and logged after the others. */
  lemma SavedWrite(d: seq<Block>, l: set<int>, d': seq<Block>, l': set<int>, b: int, v: Block)
    requires Saved(d, l, d', l') && 0 <= b < |d'|
    ensures Saved(d, l, d'[b := v], l' + {b})
  {
    var e, m := d'[b := v], l' + {b};
    forall c | 0 <= c < |d|
      ensures SavedAt(d, e, m, c)
    {
      assert SavedAt(d, d', l', c);
    }
  }

  lemma SavedMoreLogged(d: seq<Block>, l: set<int>, d': seq<Block>, l': set<int>, b: int)
    requires Saved(d, l, d', l')
    ensures Saved(d, l, d', l' + {b})
  {
    forall c | 0 <= c < |d|
      ensures SavedAt(d, d', l' + {b}, c)
    {
      assert SavedAt(d, d', l', c);
    }
  }

  /** What is logged in addition are bitmap blocks. */
  ghost predicate OnlyBitmap(sb: Superblock, l: set<int>, l': set<int>) {
    forall b {:trigger b in l'} :: b in l' ==> b in l || sb.bmapstart <= b <= sb.bmapstart + (sb.size - 1) / BPB
  }

  /** The most blocks one itrunc can log: every bitmap block, and the inode block. */
  function TruncBound(sb: Superblock): int {
    (sb.size - 1) / BPB + 2
  }

  lemma BitmapBound(sb: Superblock, l: set<int>, l': set<int>, ib: int)
    requires sb.Valid() && OnlyBitmap(sb, l, l')
    ensures |l' + {ib} - l| <= TruncBound(sb)
  {
    var all := seq((sb.size - 1) / BPB + 1, k => sb.bmapstart + k) + [ib];
    var added := l' + {ib} - l;
    forall b | b in added
      ensures b in all
    {
      assert b != ib ==> all[b - sb.bmapstart] == b;
      assert all[|all| - 1] == ib;
    }
    SetWithin(added, all);
  }

  /** itrunc is within its log space on disks of up to 9 * BPB blocks; the larger disk of param.h is not one of them. */
  lemma TruncFits(sb: Superblock)
    requires sb.Valid()
    ensures TruncBound(sb) <= MAXOPBLOCKS <==> sb.size <= 9 * BPB
    ensures sb.size == 200000 ==> TruncBound(sb) == 26
  {
  }

  /** The number of file blocks that bytes [off, off + n) lie in. */
  function Span(off: nat, n: nat): nat {
    if n == 0 then 0 else (off + n - 1) / BSIZE - BlockNo(off) + 1
  }

  lemma SpanStep(off: nat, tot: nat, pos: nat, m: nat, n: nat)
    requires tot < n && (tot == 0 || BlockOff(pos) == 0) && pos == off + tot
    requires m == ChunkLen(pos, n - tot)
    ensures m > 0 && Span(off, tot + m) == Span(off, tot) + 1
    ensures tot + m < n ==> BlockOff(pos + m) == 0
  {
  }

  /**
   The most blocks one writei can log: every file block and a bitmap block for
   each that is new (an unaligned first block is not), the indirect block and
   its bitmap block, and the inode block.
   */
  function LogBound(off: nat, n: nat): nat {
    2 * Span(off, n) + if BlockOff(off) != 0 && n > 0 then 2 else 3
  }

  lemma SpanGrows(off: nat, m: nat, n: nat)
    requires m <= n
    ensures Span(off, m) <= Span(off, n)
  {
  }

  /**
   Log accounting for a write that has dealt with `blocks` file blocks: `bms`
   are bitmap blocks, one for each new file block and one for a new indirect
   block; `data` are file blocks; `ind` is the indirect block, if any. Of the
   file blocks at least `mapped` were mapped before.
   */
  ghost predicate Tallied(l0: set<int>, l: set<int>, bms: seq<int>, data: seq<int>, ind0: int, ind: int, blocks: nat,
      mapped: nat) {
    && (forall b {:trigger b in l} :: b in l ==> b in l0 || b in bms || b in data || (b == ind && ind != 0))
    && |data| <= blocks
    && |bms| + mapped <= blocks + (if ind0 == 0 && ind != 0 then 1 else 0)
  }

  lemma TallyStep(l0: set<int>, l: set<int>, l': set<int>, bms: seq<int>, data: seq<int>, ind0: int, ind: int,
      ind': int,
                  blocks: nat, mapped: nat, bm: seq<int>, ok: bool, a: int, isNew: bool)
    requires Tallied(l0, l, bms, data, ind0, ind, blocks, mapped)
    requires ind != 0 ==> ind' == ind
    requires ind0 != 0 ==> ind != 0
    requires LoggedOnly(l, l', bm, if ok then a else 0, ind')
    requires |bm| <= (if isNew && ok then 1 else 0) + (if ind == 0 && ind' != 0 then 1 else 0)
    ensures ok ==> Tallied(l0, l', bms + bm, data + [a], ind0, ind', blocks + 1, mapped + if isNew then 0 else 1)
    ensures !ok ==> Tallied(l0, l', bms + bm, data, ind0, ind', blocks, mapped)
  {
  }

  /** All files but `i` have the same inode and contents in both images. */
  ghost predicate OthersKept(d: seq<Block>, n: seq<Inode>, d': seq<Block>, n': seq<Inode>, i: nat) {
    && |n'| == |n|
    && forall j {:trigger n'[j]} :: 0 <= j < |n| && j != i ==>
         && n'[j] == n[j] && |n[j].addrs| == NDIRECT + 1 && n[j].size <= MAXFILE * BSIZE
         && Content(d', n', j) == Content(d, n, j)
  }

  /** All files are mapped below their sizes. */
  ghost predicate FilesOk(d: seq<Block>, n: seq<Inode>) {
    forall j {:trigger n[j]} :: 0 <= j < |n| ==> |n[j].addrs| == NDIRECT + 1 && FileOk(d, n, j)
  }

  /** Every file has the same size and contents in both images. */
  ghost predicate SameFiles(d: seq<Block>, n: seq<Inode>, d': seq<Block>, n': seq<Inode>)
    requires FilesOk(d, n) && FilesOk(d', n')
  {
    |n'| == |n| && forall j {:trigger n'[j]} :: 0 <= j < |n| ==> Content(d', n', j) == Content(d, n, j)
  }

  /** Growth changes no file. */
  lemma GrownFiles(sb: Superblock, d: seq<Block>, n: seq<Inode>, o: map<int, Slot>,
                   d': seq<Block>, n': seq<Inode>, o': map<int, Slot>, i: nat, ks: set<int>)
    requires Shape(sb, d, n) && Shape(sb, d', n') && i < |n| && Owned(sb, d, n, o) &&
      Grown(sb, d, n, o, d', n', o', i, ks)
    requires FilesOk(d, n)
    ensures FilesOk(d', n') && SameFiles(d, n, d', n')
  {
    forall j | 0 <= j < |n|
      ensures FileOk(d', n', j) && Content(d', n', j) == Content(d, n, j)
    {
      assert |n[j].addrs| == NDIRECT + 1;
      GrownFile(sb, d, n, o, d', n', o', i, ks, j);
    }
  }

  /** Truncating inode `i` keeps the other files. */
  lemma TruncKeeps(sb: Superblock, d: seq<Block>, n: seq<Inode>, o: map<int, Slot>, d': seq<Block>, n': seq<Inode>,
      i: nat)
    requires Shape(sb, d, n) && Shape(sb, d', n') && i < |n| && Owned(sb, d, n, o) && FilesOk(d, n)
    requires (forall j :: 0 <= j < |n| && j != i ==> n'[j] == n[j]) && n'[i].size == 0
    requires forall c :: sb.Data(c) ==> d'[c] == d[c]
    ensures FilesOk(d', n') && OthersKept(d, n, d', n', i)
  {
    forall j | 0 <= j < |n|
      ensures FileOk(d', n', j) && (j != i ==> Content(d', n', j) == Content(d, n, j))
    {
      assert |n[j].addrs| == NDIRECT + 1;
      if j != i {
        KeptFile(sb, d, n, o, d', n', j);
      }
    }
  }

  lemma OthersKeptTwice(d: seq<Block>, n: seq<Inode>, d': seq<Block>, n': seq<Inode>, d'': seq<Block>, n'': seq<Inode>,
      i: nat)
    requires OthersKept(d, n, d', n', i) && OthersKept(d', n', d'', n'', i)
    ensures OthersKept(d, n, d'', n'', i)
  {
    forall j | 0 <= j < |n| && j != i
      ensures n''[j] == n[j] && Content(d'', n'', j) == Content(d, n, j)
    {
      assert n'[j] == n[j];
    }
  }

  /** How far writei's loop is: at a block boundary unless at its start or end. */
  predicate AtBoundary(off: nat, tot: nat, n: nat, mapped: nat) {
    && tot <= n
    && (tot == 0 || tot == n || BlockOff(off + tot) == 0)
    && (BlockOff(off) == 0 || tot == 0 || mapped >= 1)
  }

  lemma BoundaryStep(off: nat, tot: nat, n: nat, m: nat, mapped: nat, mapped': nat)
    requires AtBoundary(off, tot, n, mapped) && tot < n && m == ChunkLen(off + tot, n - tot) && mapped <= mapped'
    requires tot == 0 && BlockOff(off) != 0 ==> mapped' >= 1
    ensures AtBoundary(off, tot + m, n, mapped') && Span(off, tot + m) == Span(off, tot) + 1
  {
    SpanStep(off, tot, off + tot, m, n);
  }

  /** The inode block closes the account. */
  lemma TallyBound(l0: set<int>, l: set<int>, bms: seq<int>, data: seq<int>, ind0: int, ind: int,
                   off: nat, tot: nat, n: nat, mapped: nat, ib: int)
    requires tot <= n && Tallied(l0, l, bms, data, ind0, ind, Span(off, tot), mapped)
    requires AtBoundary(off, tot, n, mapped)
    ensures |l + {ib} - l0| <= LogBound(off, n)
  {
    var all := bms + data + [ind, ib];
    var added := l + {ib} - l0;
    assert forall b :: b in added ==> b in all;
    SetWithin(added, all);
    SpanGrows(off, tot, n);
  }

  /** The chunk size of filewrite keeps every transaction within MAXOPBLOCKS. */
  lemma ChunkFits(off: nat, n: nat)
    requires n <= 3 * BSIZE
    ensures LogBound(off, n) <= MAXOPBLOCKS
  {
  }

  /** `c` is the file `c0` after the first `done` bytes of `src` were written at `off`, if `off` is within it. */
  predicate PatchedSoFar(c0: seq<Byte>, off: nat, src: seq<Byte>, done: nat, c: seq<Byte>) {
    && done <= |src|
    && (if off <= |c0| then off + done <= |c| && c == Patched(c0, off, src[..done]) else done == 0 && c == c0)
  }

  /** Writing `r` bytes after the first `done` extends the patch. */
  lemma PatchedFurther(c0: seq<Byte>, off: nat, src: seq<Byte>, done: nat, n: nat, r: nat, c: seq<Byte>, c': seq<Byte>)
    requires PatchedSoFar(c0, off, src, done, c) && done + n <= |src| && r <= n && off + done <= |c|
    requires c' == Patched(c, off + done, src[done..done + n][..r])
    ensures PatchedSoFar(c0, off, src, done + r, c')
  {
    assert src[done..done + n][..r] == src[done..done + r];
    assert src[..done + r] == src[..done] + src[done..done + r];
  }

  /** A set whose elements are all in a list is no larger than the list. */
  lemma {:induction false} SetWithin(a: set<int>, s: seq<int>)
    requires forall b :: b in a ==> b in s
    ensures |a| <= |s|
    decreases |s|
  {
    if s == [] {
      assert forall b :: b !in a;
    } else {
      SetWithin(a - {s[0]}, s[1..]);
      assert a <= (a - {s[0]}) + {s[0]};
      SubsetSize(a, (a - {s[0]}) + {s[0]});
    }
  }

  lemma SubsetSize(a: set<int>, b: set<int>)
    requires a <= b
    ensures |a| <= |b|
  {
    assert b == a + (b - a);
  }

  /** Every block that differs between the two images was logged by one of the transactions `ops`. */
  ghost predicate AllSaved(d: seq<Block>, d': seq<Block>, ops: seq<set<int>>) {
    |d'| == |d| && forall b {:trigger d'[b]} :: 0 <= b < |d| && d'[b] != d[b] ==> InSome(ops, b)
  }

  predicate InSome(ops: seq<set<int>>, b: int) {
    exists k :: 0 <= k < |ops| && b in ops[k]
  }

  lemma SavedMore(d: seq<Block>, d': seq<Block>, d'': seq<Block>, ops: seq<set<int>>, op: set<int>)
    requires AllSaved(d, d', ops) && Saved(d', {}, d'', op)
    ensures AllSaved(d, d'', ops + [op])
  {
    forall b | 0 <= b < |d| && d''[b] != d[b]
      ensures InSome(ops + [op], b)
    {
      assert SavedAt(d', d'', op, b);
      if d'[b] != d[b] {
        var k :| 0 <= k < |ops| && b in ops[k];
        assert b in (ops + [op])[k];
      } else {
        assert b in (ops + [op])[|ops|];
      }
    }
  }

  lemma SameFile(disk: seq<Block>, ino: seq<Inode>, ino': seq<Inode>, j: int)
    requires 0 <= j < |ino| == |ino'| && |ino[j].addrs| == NDIRECT + 1 && ino'[j] == ino[j] && FileOk(disk, ino, j)
    ensures FileOk(disk, ino', j) && Content(disk, ino', j) == Content(disk, ino, j)
  {
    assert forall k :: 0 <= k <= MAXFILE ==> Ref(disk, ino', j, k) == Ref(disk, ino, j, k);
    assert forall p :: 0 <= p < ino[j].size ==> ByteAt(disk, ino', j, p) == ByteAt(disk, ino, j, p);
  }

  predicate Distinct(blocks: seq<int>) {
    forall j, k :: 0 <= j < k < |blocks| ==> blocks[j] != blocks[k]
  }

  /** Blocks that the first inode may have as its direct blocks. */
  predicate AreDirect(sb: Superblock, blocks: seq<int>) {
    |blocks| <= NDIRECT && Distinct(blocks) && forall k :: 0 <= k < |blocks| ==> sb.Data(blocks[k])
  }

  function NoAddrs(n: nat): (a: seq<int>)
    ensures |a| == n && forall k :: 0 <= k < n ==> a[k] == 0
  {
    seq(n, _ => 0)
  }

  /** The first inode has `blocks`, the others are empty. */
  function OneFile(sb: Superblock, blocks: seq<int>): (ino: seq<Inode>)
    requires sb.Valid() && AreDirect(sb, blocks)
    ensures |ino| == sb.ninodes && forall i :: 0 <= i < |ino| ==> |ino[i].addrs| == NDIRECT + 1
  {
    var empty := Inode(NoAddrs(NDIRECT + 1), 0);
    [Inode(blocks + NoAddrs(NDIRECT + 1 - |blocks|), |blocks| * BSIZE)] + seq(sb.ninodes - 1, _ => empty)
  }

  /** The bitmap of such an image: the metadata, then the blocks of the file. */
  method MarkBlocks(sb: Superblock, blocks: seq<int>) returns (disk: seq<Block>)
    requires sb.Valid() && AreDirect(sb, blocks)
    ensures Disk(sb, disk) && forall c: nat {:trigger Used(sb, disk, c)} :: c < sb.size ==>
      (Used(sb, disk, c) <==> c < sb.data || c in blocks)
  {
    disk := seq(sb.size, _ => Zeroes());
    forall c: nat | c < sb.size
      ensures !Used(sb, disk, c)
    {
      NothingUsed(sb, disk, c);
    }
    for b := 0 to sb.data
      invariant Disk(sb, disk)
      invariant forall c: nat {:trigger Used(sb, disk, c)} :: c < sb.size ==> (Used(sb, disk, c) <==> c < b)
    {
      disk := MarkBlock(sb, disk, b);
    }
    for k := 0 to |blocks|
      invariant Disk(sb, disk)
      invariant forall c: nat {:trigger Used(sb, disk, c)} :: c < sb.size ==>
        (Used(sb, disk, c) <==> c < sb.data || c in blocks[..k])
    {
      disk := MarkBlock(sb, disk, blocks[k]);
      assert blocks[..k + 1] == blocks[..k] + [blocks[k]];
    }
    assert blocks[..|blocks|] == blocks;
  }

  method MarkBlock(sb: Superblock, disk: seq<Block>, b: int) returns (disk': seq<Block>)
    requires sb.Valid() && Disk(sb, disk) && 0 <= b < sb.size
    ensures Disk(sb, disk') && forall c: nat {:trigger Used(sb, disk', c)} :: c < sb.size ==>
      (Used(sb, disk', c) <==> c == b || Used(sb, disk, c))
  {
    disk' := disk[sb.BitmapBlock(b) := SetBit(disk[sb.BitmapBlock(b)], b % BPB)];
    forall c: nat | c < sb.size
      ensures Used(sb, disk', c) <==> c == b || Used(sb, disk, c)
    {
      MarkedBits(sb, disk, b, disk', c);
    }
  }

  lemma OneFileRefs(sb: Superblock, blocks: seq<int>, disk: seq<Block>, i: int, k: int)
    requires sb.Valid() && AreDirect(sb, blocks) && 0 <= i < sb.ninodes && 0 <= k <= MAXFILE
    ensures var ino := OneFile(sb, blocks);
            Ref(disk, ino, i, k) == if i == 0 && k < |blocks| then blocks[k] else 0
  {
  }

  /** The image of one file, or of none, is in order. */
  lemma OneFileOk(sb: Superblock, blocks: seq<int>, disk: seq<Block>, owner: map<int, Slot>)
    requires sb.Valid() && AreDirect(sb, blocks) && Disk(sb, disk)
    requires owner == map k | 0 <= k < |blocks| :: blocks[k] := Slot(0, k)
    requires forall c: nat {:trigger Used(sb, disk, c)} :: c < sb.size ==>
               (Used(sb, disk, c) <==> c < sb.data || c in blocks)
    ensures var ino := OneFile(sb, blocks);
            Shape(sb, disk, ino) && Owned(sb, disk, ino, owner) && BitmapIs(sb, disk, owner.Keys) && FilesOk(disk, ino)
  {
    var ino := OneFile(sb, blocks);
    forall i, k | IsSlot(ino, i, k)
      ensures Ref(disk, ino, i, k) == if i == 0 && k < |blocks| then blocks[k] else 0
    {
      OneFileRefs(sb, blocks, disk, i, k);
    }
    assert forall b :: b in owner <==> b in blocks;
    forall j | 0 <= j < |ino|
      ensures FileOk(disk, ino, j)
    {
      OneFileMapped(sb, blocks, disk, j);
    }
  }

  lemma OneFileMapped(sb: Superblock, blocks: seq<int>, disk: seq<Block>, j: int)
    requires sb.Valid() && AreDirect(sb, blocks) && 0 <= j < sb.ninodes
    ensures FileOk(disk, OneFile(sb, blocks), j)
  {
    var ino := OneFile(sb, blocks);
    forall bn | 0 <= bn < MAXFILE && bn * BSIZE < ino[j].size
      ensures Ref(disk, ino, j, bn) != 0
    {
      assert j == 0 && bn < |blocks|;
      OneFileRefs(sb, blocks, disk, j, bn);
      assert sb.Data(blocks[bn]);
    }
  }

  class Fs {
    const sb: Superblock
    var disk: seq<Block>
    var ino: seq<Inode>        // in-memory inodes
    var dino: seq<Inode>       // the inode blocks
    ghost var owner: map<int, Slot>
    ghost var logged: set<int>

    /** Ownership is exact and the bitmap says so. */
    ghost predicate Ok()
      reads this`disk, this`ino, this`dino, this`owner
    {
      && Shape(sb, disk, ino) && |dino| == |ino|
      && Owned(sb, disk, ino, owner)
      && BitmapIs(sb, disk, owner.Keys)
    }

    /** In addition, every file is mapped below its size. */
    ghost predicate Valid()
      reads this`disk, this`ino, this`dino, this`owner
    {
      Ok() && FilesOk(disk, ino)
    }

    /** An image with one file of whole blocks, or, without blocks, an empty one. */
    constructor (sb: Superblock, blocks: seq<int>)
      requires sb.Valid() && AreDirect(sb, blocks)
      ensures Valid() && this.sb == sb && logged == {} && ino == dino == OneFile(sb, blocks)
      ensures forall b :: (b in owner <==> b in blocks) && (b in owner ==> owner[b].i == 0)
    {
      var d := MarkBlocks(sb, blocks);
      this.sb := sb;
      disk := d;
      ino := OneFile(sb, blocks);
      dino := OneFile(sb, blocks);
      owner := map k | 0 <= k < |blocks| :: blocks[k] := Slot(0, k);
      logged := {};
      new;
      OneFileOk(sb, blocks, disk, owner);
    }

    /** Every block is in use. */
    ghost predicate Full()
      requires sb.Valid() && Disk(sb, disk)
      reads this`disk
    {
      forall c: nat :: c < sb.size ==> Used(sb, disk, c)
    }

    /** First fit over the bitmap; 0 exactly when every block is in use. */
    method Balloc() returns (b: nat)
      requires sb.Valid() && Disk(sb, disk)
      requires forall c: nat :: c < sb.data ==> Used(sb, disk, c)
      modifies this`disk, this`logged
      ensures b == 0 ==> disk == old(disk) && logged == old(logged)
      ensures b == 0 ==> forall c: nat :: c < sb.size ==> Used(sb, old(disk), c)
      ensures b != 0 ==> sb.Data(b) && !Used(sb, old(disk), b) && disk == Allocated(sb, old(disk), b)
      ensures b != 0 ==> forall c: nat :: c < b ==> Used(sb, old(disk), c)
      ensures b != 0 ==> logged == old(logged) + {sb.BitmapBlock(b), b}
    {
      var base := 0;
      while base < sb.size
        invariant base % BPB == 0 && disk == old(disk) && logged == old(logged)
        invariant forall c: nat :: c < base && c < sb.size ==> Used(sb, disk, c)
        decreases sb.size + BPB - base
      {
        var bb := sb.BitmapBlock(base);
        var bi := 0;
        while bi < BPB && base + bi < sb.size
          invariant bi <= BPB && base + bi <= sb.size
          invariant disk == old(disk) && logged == old(logged)
          invariant forall c: nat :: c < base + bi ==> Used(sb, disk, c)
        {
          assert sb.BitmapBlock(base + bi) == bb && (base + bi) % BPB == bi;
          if !BitAt(disk[bb], bi) {
            b := base + bi;
            assert !Used(sb, disk, b);
            disk := disk[bb := SetBit(disk[bb], bi)];
            disk := disk[b := Zeroes()];
            logged := logged + {bb, b};
            return;
          }
          assert Used(sb, disk, base + bi);
          bi := bi + 1;
        }
        base := base + BPB;
      }
      b := 0;
    }

    /** Returns false where the source panics: the block is free already. */
    method Bfree(b: nat) returns (ok: bool)
      requires sb.Valid() && Disk(sb, disk) && sb.Data(b)
      modifies this`disk, this`logged
      ensures ok == Used(sb, old(disk), b)
      ensures ok ==> disk == Freed(sb, old(disk), b) && logged == old(logged) + {sb.BitmapBlock(b)}
      ensures !ok ==> disk == old(disk) && logged == old(logged)
    {
      var bb := sb.BitmapBlock(b);
      var bi := b % BPB;
      if !BitAt(disk[bb], bi) {
        return false;
      }
      disk := disk[bb := ClearBit(disk[bb], bi)];
      logged := logged + {bb};
      ok := true;
    }

    /** iupdate: the inode block gets the in-memory fields. */
    method Iupdate(i: nat)
      requires i < |ino| == |dino|
      modifies this`dino, this`logged
      ensures dino == old(dino)[i := ino[i]]
      ensures logged == old(logged) + {sb.InodeBlock(i)}
    {
      dino := dino[i := ino[i]];
      logged := logged + {sb.InodeBlock(i)};
    }

    /**
     The address in addrs[idx], allocated if there is none: the direct case of
     bmap, and its loading of the indirect block.
     */
    method BmapAddr(i: nat, idx: nat) returns (addr: int, ghost bm: seq<int>)
      requires Ok() && i < |ino| && idx <= NDIRECT
      modifies this`disk, this`ino, this`owner, this`logged
      ensures Ok()
      ensures addr == Ref(disk, ino, i, AddrSlot(idx)) < sb.size
      ensures old(ino[i].addrs[idx]) != 0 ==>
        disk == old(disk) && ino == old(ino) && owner == old(owner) && logged == old(logged)
      ensures Grown(sb, old(disk), old(ino), old(owner), disk, ino, owner, i, {AddrSlot(idx)})
      ensures addr == 0 ==> forall c: nat :: c < sb.size ==> Used(sb, disk, c)
      ensures |bm| <= (if old(ino[i].addrs[idx]) == 0 && addr != 0 then 1 else 0)
      ensures LoggedOnly(old(logged), logged, bm, addr, 0) && Saved(old(disk), old(logged), disk, logged)
    {
      bm := [];
      addr := ino[i].addrs[idx];
      if addr == 0 {
        addr := Balloc();
        if addr == 0 {
          return;
        }
        bm := [sb.BitmapBlock(addr)];
        SavedBitmap(sb, old(disk), old(logged), addr);
        AllocatedBitmap(sb, old(disk), owner.Keys, addr);
        ino := ino[i := ino[i].(addrs := ino[i].addrs[idx := addr])];
        owner := owner[addr := Slot(i, AddrSlot(idx))];
        assert owner.Keys == old(owner).Keys + {addr};
        AddrGrowth(sb, old(disk), old(ino), old(owner), i, idx, addr, disk, ino, owner);
      } else {
        assert addr == Ref(disk, ino, i, AddrSlot(idx));
      }
    }

    /** The entry of the indirect block, allocated if there is none. */
    method BmapEntry(i: nat, e: nat) returns (addr: int, ghost bm: seq<int>)
      requires Ok() && i < |ino| && e < NINDIRECT && ino[i].addrs[NDIRECT] != 0
      modifies this`disk, this`owner, this`logged
      ensures Ok()
      ensures addr == Ref(disk, ino, i, NDIRECT + e) < sb.size
      ensures old(Ref(disk, ino, i, NDIRECT + e)) != 0 ==>
        disk == old(disk) && owner == old(owner) && logged == old(logged)
      ensures Grown(sb, old(disk), ino, old(owner), disk, ino, owner, i, {NDIRECT + e})
      ensures addr == 0 ==> forall c: nat :: c < sb.size ==> Used(sb, disk, c)
      ensures |bm| <= (if old(Ref(disk, ino, i, NDIRECT + e)) == 0 && addr != 0 then 1 else 0)
      ensures LoggedOnly(old(logged), logged, bm, addr, ino[i].addrs[NDIRECT]) &&
        Saved(old(disk), old(logged), disk, logged)
    {
      bm := [];
      var a := ino[i].addrs[NDIRECT];
      assert a == Ref(disk, ino, i, MAXFILE) && a in owner;
      addr := Word(disk[a], e);
      assert addr == Ref(disk, ino, i, NDIRECT + e);
      if addr == 0 {
        addr := Balloc();
        if addr != 0 {
          bm := [sb.BitmapBlock(addr)];
          AllocatedBitmap(sb, old(disk), owner.Keys, addr);
          SavedBitmap(sb, old(disk), old(logged), addr);
          SavedWrite(old(disk), old(logged), disk, logged, a, PutWord(disk[a], e, addr));
          DataWriteBitmap(sb, disk, owner.Keys + {addr}, a, PutWord(disk[a], e, addr));
          disk := disk[a := PutWord(disk[a], e, addr)];
          logged := logged + {a};
          owner := owner[addr := Slot(i, NDIRECT + e)];
          assert owner.Keys == old(owner).Keys + {addr};
          EntryGrowth(sb, old(disk), ino, old(owner), i, e, addr, disk, owner);
        }
      }
    }

    /**
     bmap: the address of file block `bn`, allocating what is missing. Returns 0
     only if the disk is full; then the file may still have gained its indirect
     block.
     */
    method Bmap(i: nat, bn: nat) returns (addr: int, ghost bm: seq<int>)
      requires Ok() && i < |ino| && bn < MAXFILE
      modifies this`disk, this`ino, this`owner, this`logged
      ensures Ok() && (old(Valid()) ==> Valid() && SameFiles(old(disk), old(ino), disk, ino))
      ensures addr == Ref(disk, ino, i, bn) < sb.size
      ensures old(Ref(disk, ino, i, bn)) != 0 ==>
        disk == old(disk) && ino == old(ino) && owner == old(owner) && logged == old(logged)
      ensures Grown(sb, old(disk), old(ino), old(owner), disk, ino, owner, i, {bn, MAXFILE})
      ensures addr == 0 ==> forall c: nat :: c < sb.size ==> Used(sb, disk, c)
      ensures |bm| <= (if old(Ref(disk, ino, i, bn)) == 0 && addr != 0 then 1 else 0)
                    + (if old(ino)[i].addrs[NDIRECT] == 0 && ino[i].addrs[NDIRECT] != 0 then 1 else 0)
      ensures LoggedOnly(old(logged), logged, bm, addr, ino[i].addrs[NDIRECT]) &&
        Saved(old(disk), old(logged), disk, logged)
    {
      if bn < NDIRECT {
        addr, bm := BmapAddr(i, bn);
      } else {
        addr, bm := BmapIndirect(i, bn);
      }
      if old(Valid()) {
        GrownFiles(sb, old(disk), old(ino), old(owner), disk, ino, owner, i, {bn, MAXFILE});
      }
    }

    /** The indirect case of bmap. */
    method BmapIndirect(i: nat, bn: nat) returns (addr: int, ghost bm: seq<int>)
      requires Ok() && i < |ino| && NDIRECT <= bn < MAXFILE
      modifies this`disk, this`ino, this`owner, this`logged
      ensures Ok()
      ensures addr == Ref(disk, ino, i, bn) < sb.size
      ensures old(Ref(disk, ino, i, bn)) != 0 ==>
        disk == old(disk) && ino == old(ino) && owner == old(owner) && logged == old(logged)
      ensures Grown(sb, old(disk), old(ino), old(owner), disk, ino, owner, i, {bn, MAXFILE})
      ensures addr == 0 ==> forall c: nat :: c < sb.size ==> Used(sb, disk, c)
      ensures |bm| <= (if old(Ref(disk, ino, i, bn)) == 0 && addr != 0 then 1 else 0)
                    + (if old(ino)[i].addrs[NDIRECT] == 0 && ino[i].addrs[NDIRECT] != 0 then 1 else 0)
      ensures LoggedOnly(old(logged), logged, bm, addr, ino[i].addrs[NDIRECT]) &&
        Saved(old(disk), old(logged), disk, logged)
    {
      var a;
      a, bm := BmapAddr(i, NDIRECT);
      ghost var d, n, o, bm0, l := disk, ino, owner, bm, logged;
      GrownMore(sb, old(disk), old(ino), old(owner), d, n, o, i, {MAXFILE}, {bn, MAXFILE});
      if a == 0 {
        addr := 0;
        return;
      }
      addr, bm := BmapEntry(i, bn - NDIRECT);
      SavedTwice(old(disk), old(logged), d, l, disk, logged);
      GrownMore(sb, d, n, o, disk, ino, owner, i, {bn}, {bn, MAXFILE});
      GrownTwice(sb, old(disk), old(ino), old(owner), d, n, o, disk, ino, owner, i, {bn, MAXFILE}, {bn, MAXFILE});
      assert {bn, MAXFILE} + {bn, MAXFILE} == {bn, MAXFILE};
      assert Ref(disk, ino, i, MAXFILE) == a == ino[i].addrs[NDIRECT];
      bm := bm0 + bm;
    }

    /** The first loop of itrunc. */
    method FreeDirect(i: nat)
      requires Ok() && i < |ino|
      modifies this`disk, this`ino, this`owner, this`logged
      ensures Ok()
      ensures forall k :: 0 <= k < NDIRECT ==> ino[i].addrs[k] == 0
      ensures forall j :: 0 <= j < |ino| && j != i ==> ino[j] == old(ino)[j]
      ensures forall c :: sb.Data(c) ==> disk[c] == old(disk)[c]
      ensures owner == Without(old(owner), DirectOf(old(owner), i, NDIRECT))
      ensures Saved(old(disk), old(logged), disk, logged) && OnlyBitmap(sb, old(logged), logged)
    {
      assert forall b :: b !in DirectOf(owner, i, 0);
      for idx := 0 to NDIRECT
        invariant Ok() && |ino| == |old(ino)|
        invariant forall k :: 0 <= k < idx ==> ino[i].addrs[k] == 0
        invariant forall j :: 0 <= j < |ino| && j != i ==> ino[j] == old(ino)[j]
        invariant forall c :: sb.Data(c) ==> disk[c] == old(disk)[c]
        invariant owner == Without(old(owner), DirectOf(old(owner), i, idx))
        invariant Saved(old(disk), old(logged), disk, logged) && OnlyBitmap(sb, old(logged), logged)
      {
        ghost var d, l := disk, logged;
        FreeAddr(i, idx);
        SavedTwice(old(disk), old(logged), d, l, disk, logged);
        assert owner == Without(old(owner), DirectOf(old(owner), i, idx + 1));
      }
    }

    /** The body of that loop. */
    method FreeAddr(i: nat, idx: nat)
      requires Ok() && i < |ino| && idx < NDIRECT
      modifies this`disk, this`ino, this`owner, this`logged
      ensures Ok()
      ensures ino == old(ino)[i := old(ino)[i].(addrs := old(ino)[i].addrs[idx := 0])]
      ensures forall c :: sb.Data(c) ==> disk[c] == old(disk)[c]
      ensures owner == Without(old(owner), BlockOf(old(owner), i, idx))
      ensures Saved(old(disk), old(logged), disk, logged) && OnlyBitmap(sb, old(logged), logged)
    {
      var b := ino[i].addrs[idx];
      assert b == Ref(disk, ino, i, idx);
      if b != 0 {
        assert b in owner && Used(sb, disk, b);
        var ok := Bfree(b);
        assert ok;
        SavedBitmap(sb, old(disk), old(logged), b);
        FreedBitmap(sb, old(disk), owner.Keys, b);
        ino := ino[i := ino[i].(addrs := ino[i].addrs[idx := 0])];
        DropAddr(sb, old(disk), old(ino), owner, i, idx, disk, ino);
        owner := Without(owner, {b});
        assert owner.Keys == old(owner).Keys - {b};
        assert forall c :: c in BlockOf(old(owner), i, idx) <==> c == b;
      } else {
        assert forall c :: c !in BlockOf(old(owner), i, idx);
        assert ino[i].addrs[idx := 0] == ino[i].addrs;
      }
    }

    /** The second part of itrunc: the entries, then the indirect block itself. */
    method FreeIndirect(i: nat)
      requires Ok() && i < |ino| && ino[i].addrs[NDIRECT] != 0
      requires forall k :: 0 <= k < NDIRECT ==> ino[i].addrs[k] == 0
      modifies this`disk, this`ino, this`owner, this`logged
      ensures Ok()
      ensures forall k {:trigger Ref(disk, ino, i, k)} :: 0 <= k <= MAXFILE ==> Ref(disk, ino, i, k) == 0
      ensures forall j :: 0 <= j < |ino| && j != i ==> ino[j] == old(ino)[j]
      ensures forall c :: sb.Data(c) ==> disk[c] == old(disk)[c]
      ensures owner == Without(old(owner), set b | b in old(owner) && old(owner)[b].i == i)
      ensures Saved(old(disk), old(logged), disk, logged) && OnlyBitmap(sb, old(logged), logged)
    {
      hide BitmapIs, Word;
      FreeEntries(i);
      var a := ino[i].addrs[NDIRECT];
      assert a == Ref(disk, ino, i, MAXFILE) && a in owner;
      ghost var live := owner.Keys - EntriesOf(owner, i, NINDIRECT);
      assert a in live && Used(sb, disk, a);
      ghost var d, l := disk, logged;
      var ok := Bfree(a);
      assert ok;
      SavedBitmap(sb, d, l, a);
      SavedTwice(old(disk), old(logged), d, l, disk, logged);
      FreedBitmap(sb, d, live, a);
      RefsOfDisk(sb, d, ino, owner, disk);
      ino := ino[i := ino[i].(addrs := ino[i].addrs[NDIRECT := 0])];
      DropIndirect(sb, disk, old(ino), owner, i, ino);
      ghost var gone := set b | b in owner && owner[b].i == i;
      assert live - {a} == owner.Keys - gone by {
        forall b | b in gone && b !in EntriesOf(owner, i, NINDIRECT)
          ensures b == a
        {
          assert Ref(d, old(ino), i, owner[b].k) == b;
        }
      }
      owner := Without(owner, gone);
      assert owner.Keys == live - {a};
    }

    /** The loop over the indirect block: every entry is marked in use when it is freed. */
    method FreeEntries(i: nat)
      requires Ok() && i < |ino| && ino[i].addrs[NDIRECT] != 0
      modifies this`disk, this`logged
      ensures Shape(sb, disk, ino) && Owned(sb, disk, ino, owner)
      ensures BitmapIs(sb, disk, owner.Keys - EntriesOf(owner, i, NINDIRECT))
      ensures Saved(old(disk), old(logged), disk, logged) && OnlyBitmap(sb, old(logged), logged)
      ensures forall c :: sb.Data(c) ==> disk[c] == old(disk)[c]
    {
      assert owner.Keys - EntriesOf(owner, i, 0) == owner.Keys;
      for j := 0 to NINDIRECT
        invariant Shape(sb, disk, ino) && Owned(sb, disk, ino, owner)
        invariant BitmapIs(sb, disk, owner.Keys - EntriesOf(owner, i, j))
        invariant Saved(old(disk), old(logged), disk, logged) && OnlyBitmap(sb, old(logged), logged)
        invariant forall c :: sb.Data(c) ==> disk[c] == old(disk)[c]
      {
        ghost var d, l := disk, logged;
        FreeEntry(i, j);
        SavedTwice(old(disk), old(logged), d, l, disk, logged);
      }
    }

    /** The body of that loop. */
    method FreeEntry(i: nat, j: nat)
      requires Shape(sb, disk, ino) && Owned(sb, disk, ino, owner) && i < |ino| && ino[i].addrs[NDIRECT] != 0
      requires j < NINDIRECT && BitmapIs(sb, disk, owner.Keys - EntriesOf(owner, i, j))
      modifies this`disk, this`logged
      ensures Shape(sb, disk, ino) && Owned(sb, disk, ino, owner)
      ensures BitmapIs(sb, disk, owner.Keys - EntriesOf(owner, i, j + 1))
      ensures Saved(old(disk), old(logged), disk, logged) && OnlyBitmap(sb, old(logged), logged)
      ensures forall c :: sb.Data(c) ==> disk[c] == old(disk)[c]
    {
      var a := ino[i].addrs[NDIRECT];
      assert a == Ref(disk, ino, i, MAXFILE) && a in owner;
      ghost var live := owner.Keys - EntriesOf(owner, i, j);
      var b := Word(disk[a], j);
      assert b == Ref(disk, ino, i, NDIRECT + j);
      NextEntry(sb, disk, ino, owner, i, j);
      if b != 0 {
        assert b in live && Used(sb, disk, b);
        var ok := Bfree(b);
        assert ok;
        SavedBitmap(sb, old(disk), old(logged), b);
        FreedBitmap(sb, old(disk), live, b);
        RefsOfDisk(sb, old(disk), ino, owner, disk);
        assert live - {b} == owner.Keys - EntriesOf(owner, i, j + 1);
      }
    }

    lemma NothingLeft(i: nat)
      requires Ok() && i < |ino|
      requires forall k :: 0 <= k <= NDIRECT ==> ino[i].addrs[k] == 0
      ensures forall k {:trigger Ref(disk, ino, i, k)} :: 0 <= k <= MAXFILE ==> Ref(disk, ino, i, k) == 0
      ensures owner == Without(owner, set b | b in owner && owner[b].i == i)
    {
      forall b | b in owner
        ensures owner[b].i != i
      {
        assert Ref(disk, ino, owner[b].i, owner[b].k) == b;
      }
    }

    /** itrunc: the inode gives back every block it has, and no block is freed twice. */
    method Itrunc(i: nat)
      requires Ok() && i < |ino|
      modifies this
      ensures Ok() && (old(Valid()) ==> Valid() && OthersKept(old(disk), old(ino), disk, ino, i))
      ensures forall k {:trigger Ref(disk, ino, i, k)} :: 0 <= k <= MAXFILE ==> Ref(disk, ino, i, k) == 0
      ensures ino[i].size == 0 && dino == old(dino)[i := ino[i]] && sb.InodeBlock(i) in logged
      ensures forall j :: 0 <= j < |ino| && j != i ==> ino[j] == old(ino)[j]
      ensures forall c :: sb.Data(c) ==> disk[c] == old(disk)[c]
      ensures owner == Without(old(owner), set b | b in old(owner) && old(owner)[b].i == i)
      ensures Saved(old(disk), old(logged), disk, logged) && |logged - old(logged)| <= TruncBound(sb)
    {
      hide Owned, BitmapIs, Entry;
      FreeDirect(i);
      ghost var d, l := disk, logged;
      if ino[i].addrs[NDIRECT] != 0 {
        FreeIndirect(i);
        SavedTwice(old(disk), old(logged), d, l, disk, logged);
      } else {
        NothingLeft(i);
      }
      assert owner == Without(old(owner), set b | b in old(owner) && old(owner)[b].i == i);
      RefsOfSize(sb, disk, ino, owner, i, 0, ino[i := ino[i].(size := 0)]);
      SavedMoreLogged(old(disk), old(logged), disk, logged, sb.InodeBlock(i));
      BitmapBound(sb, old(logged), logged, sb.InodeBlock(i));
      ino := ino[i := ino[i].(size := 0)];
      Iupdate(i);
      if old(Valid()) {
        TruncKeeps(sb, old(disk), old(ino), old(owner), disk, ino, i);
      }
    }

    /**
     readi returns exactly the clipped slice and, because every block below the
     size is mapped, allocates nothing and logs nothing.
     */
    method Readi(i: nat, off0: nat, n0: nat) returns (data: seq<Byte>)
      requires Valid() && i < |ino| && off0 < UINT && n0 < UINT
      modifies this`disk, this`ino, this`owner, this`logged
      ensures disk == old(disk) && ino == old(ino) && owner == old(owner) && logged == old(logged)
      ensures off0 > ino[i].size || off0 + n0 >= UINT ==> data == []
      ensures off0 <= ino[i].size && off0 + n0 < UINT ==>
        data == Content(disk, ino, i)[off0..if off0 + n0 > ino[i].size then ino[i].size else off0 + n0]
    {
      data := [];
      if off0 > ino[i].size || (off0 + n0) % UINT < off0 {
        return;
      }
      var n := if off0 + n0 > ino[i].size then ino[i].size - off0 else n0;
      ghost var c := Content(disk, ino, i);
      var tot, off := 0, off0;
      while tot < n
        invariant disk == old(disk) && ino == old(ino) && owner == old(owner) && logged == old(logged)
        invariant tot <= n && off == off0 + tot && off0 + n <= |c|
        invariant data == c[off0..off]
      {
        assert FileOk(disk, ino, i);
        assert Ref(disk, ino, i, BlockNo(off)) != 0;
        var addr, _ := Bmap(i, BlockNo(off));
        var m := ChunkLen(off, n - tot);
        BlockSlice(disk, ino, i, off, m);
        data := data + disk[addr][BlockOff(off)..BlockOff(off) + m];
        assert c[off0..off] + c[off..off + m] == c[off0..off + m];
        tot, off := tot + m, off + m;
      }
    }

    /** One iteration of writei's loop. */
    method WriteChunk(i: nat, pos: nat, chunk: seq<Byte>)
        returns (ok: bool, ghost bm: seq<int>, ghost mid: (seq<Block>, seq<Inode>, map<int, Slot>))
      requires Ok() && i < |ino| && pos < MAXFILE * BSIZE && BlockOff(pos) + |chunk| <= BSIZE
      modifies this`disk, this`ino, this`owner, this`logged
      ensures Shape(sb, mid.0, mid.1) && Owned(sb, mid.0, mid.1, mid.2) && BitmapIs(sb, mid.0, mid.2.Keys)
      ensures Shape(sb, disk, ino) && ino == mid.1 && owner == mid.2
      ensures Grown(sb, old(disk), old(ino), old(owner), mid.0, mid.1, mid.2, i, {BlockNo(pos), MAXFILE})
      ensures !ok ==> disk == mid.0 && forall c: nat :: c < sb.size ==> Used(sb, disk, c)
      ensures ok ==> var a := Ref(mid.0, mid.1, i, BlockNo(pos));
        0 < a < sb.size && disk == mid.0[a := Splice(mid.0[a], BlockOff(pos), chunk)]
      ensures |bm| <= (if old(Ref(disk, ino, i, BlockNo(pos))) == 0 && ok then 1 else 0)
                    + (if old(ino)[i].addrs[NDIRECT] == 0 && mid.1[i].addrs[NDIRECT] != 0 then 1 else 0)
      ensures LoggedOnly(old(logged), logged, bm, if ok then Ref(mid.0, mid.1, i, BlockNo(pos))
        else 0, mid.1[i].addrs[NDIRECT])
      ensures Saved(old(disk), old(logged), disk, logged)
    {
      var addr;
      addr, bm := Bmap(i, BlockNo(pos));
      mid := (disk, ino, owner);
      ok := addr != 0;
      if ok {
        SavedWrite(old(disk), old(logged), disk, logged, addr, Splice(disk[addr], BlockOff(pos), chunk));
        disk := disk[addr := Splice(disk[addr], BlockOff(pos), chunk)];
        logged := logged + {addr};
      }
    }

    /** One iteration of writei's loop with what it means for the whole write. */
    method WriteStep(i: nat, off: nat, src: seq<Byte>, tot: nat, m: nat, ghost d: seq<Block>, ghost n: seq<Inode>,
        ghost o: map<int, Slot>,
                     ghost l0: set<int>, ghost bms: seq<int>, ghost data: seq<int>, ghost ind0: int,
                     ghost blocks: nat, ghost mapped: nat)
      returns (ok: bool, ghost bms': seq<int>, ghost data': seq<int>, ghost mapped': nat)
      requires Ok() && i < |ino| && tot + m <= |src| && off + |src| <= MAXFILE * BSIZE
      requires 0 < m && BlockOff(off + tot) + m <= BSIZE
      requires Shape(sb, d, n) && off <= n[i].size && Written(sb, d, n, o, disk, ino, owner, i, off, src, tot)
      requires Tallied(l0, logged, bms, data, ind0, ino[i].addrs[NDIRECT], blocks, mapped)
      requires (ind0 != 0 ==> ino[i].addrs[NDIRECT] != 0) && Saved(d, l0, disk, logged)
      modifies this`disk, this`ino, this`owner, this`logged
      ensures Ok()
      ensures Written(sb, d, n, o, disk, ino, owner, i, off, src, if ok then tot + m else tot)
      ensures !ok ==> forall c: nat :: c < sb.size ==> Used(sb, disk, c)
      ensures Tallied(l0, logged, bms', data', ind0, ino[i].addrs[NDIRECT], if ok then blocks + 1 else blocks, mapped')
      ensures (ind0 != 0 ==> ino[i].addrs[NDIRECT] != 0) && Saved(d, l0, disk, logged)
      ensures mapped' == mapped + if ok && old(Ref(disk, ino, i, BlockNo(off + tot))) != 0 then 1 else 0
    {
      ghost var mid, bm;
      ghost var isNew := Ref(disk, ino, i, BlockNo(off + tot)) == 0;
      ok, bm, mid := WriteChunk(i, off + tot, src[tot..tot + m]);
      SavedTwice(d, l0, old(disk), old(logged), disk, logged);
      ghost var a := Ref(mid.0, mid.1, i, BlockNo(off + tot));
      GrownKeepsIndirect(sb, old(disk), old(ino), old(owner), mid.0, mid.1, mid.2, i, {BlockNo(off + tot), MAXFILE});
      TallyStep(l0, old(logged), logged, bms, data, ind0, old(ino)[i].addrs[NDIRECT], ino[i].addrs[NDIRECT],
                blocks, mapped, bm, ok, a, isNew);
      bms' := bms + bm;
      if ok {
        data' := data + [a];
        mapped' := mapped + if isNew then 0 else 1;
        WrittenStep(sb, d, n, o, old(disk), old(ino), old(owner), mid.0, mid.1, mid.2, disk, i, off, src, tot, m);
      } else {
        data', mapped' := data, mapped;
        WrittenGrown(sb, d, n, o, old(disk), old(ino), old(owner), mid.0, mid.1, mid.2, i, off, src, tot,
            {BlockNo(off + tot), MAXFILE});
      }
    }

    /**
     writei. On success the file is patched with the bytes written, the other
     files are untouched, and a short count means that the disk is full. The
     blocks logged are bounded by the file blocks spanned.
     */
    method Writei(i: nat, src: seq<Byte>, off: nat) returns (r: int)
      requires Valid() && i < |ino| && off < UINT && |src| < UINT
      modifies this
      ensures Valid() && |ino| == |old(ino)|
      ensures off > old(ino)[i].size || off + |src| > MAXFILE * BSIZE ==>
        r == -1 && disk == old(disk) && ino == old(ino) && dino == old(dino) && logged == old(logged)
      ensures off <= old(ino)[i].size && off + |src| <= MAXFILE * BSIZE ==>
        && 0 <= r <= |src|
        && Content(disk, ino, i) == Patched(old(Content(disk, ino, i)), off, src[..r])
        && dino == old(dino)[i := ino[i]]
        && (r < |src| ==> forall c: nat :: c < sb.size ==> Used(sb, disk, c))
      ensures OthersKept(old(disk), old(ino), disk, ino, i)
      ensures |logged - old(logged)| <= LogBound(off, |src|) && Saved(old(disk), old(logged), disk, logged)
      ensures dino == old(dino) || sb.InodeBlock(i) in logged
    {
      if off > ino[i].size || (off + |src|) % UINT < off {
        return -1;
      }
      if off + |src| > MAXFILE * BSIZE {
        return -1;
      }
      ghost var d, n, o := disk, ino, owner;
      forall j | 0 <= j < |n|
        ensures FileOk(d, n, j)
      {
        assert ino[j] == n[j];
        assert FileOk(disk, ino, j);
      }
      var tot;
      ghost var bms, data, mapped;
      tot, bms, data, mapped := WriteLoop(i, src, off);
      TallyBound(old(logged), logged, bms, data, n[i].addrs[NDIRECT], ino[i].addrs[NDIRECT], off, tot, |src|, mapped,
          sb.InodeBlock(i));
      WrittenFinish(d, n, o, i, off, src, tot);
      SavedMoreLogged(d, old(logged), disk, logged, sb.InodeBlock(i));
      ino := ino[i := ino[i].(size := if off + tot > ino[i].size then off + tot else ino[i].size)];
      Iupdate(i);
      r := tot;
    }

    /** Setting the size after the loop turns `Written` into the new file contents. */
    lemma WrittenFinish(d: seq<Block>, n: seq<Inode>, o: map<int, Slot>, i: nat, off: nat, src: seq<Byte>, tot: nat)
      requires Ok() && Shape(sb, d, n) && Owned(sb, d, n, o) && i < |n| && tot <= |src|
      requires off + |src| <= MAXFILE * BSIZE && off <= n[i].size
      requires forall j {:trigger n[j]} :: 0 <= j < |n| ==> FileOk(d, n, j)
      requires Written(sb, d, n, o, disk, ino, owner, i, off, src, tot)
      ensures var ino' := ino[i := ino[i].(size := if off + tot > ino[i].size then off + tot else ino[i].size)];
        && Shape(sb, disk, ino') && Owned(sb, disk, ino', owner)
        && (forall j {:trigger ino'[j]} :: 0 <= j < |ino'| ==> FileOk(disk, ino', j))
        && Content(disk, ino', i) == Patched(Content(d, n, i), off, src[..tot])
        && OthersKept(d, n, disk, ino', i)
    {
      var size := if off + tot > ino[i].size then off + tot else ino[i].size;
      var ino' := ino[i := ino[i].(size := size)];
      RefsOfSize(sb, disk, ino, owner, i, size, ino');
      WrittenContent(sb, d, n, o, disk, ino, owner, ino', i, off, src, tot);
      forall j | 0 <= j < |n| && j != i
        ensures FileOk(disk, ino', j) && Content(disk, ino', j) == Content(d, n, j)
      {
        assert n[j] == ino[j] == ino'[j];
        WrittenOthers(sb, d, n, o, disk, ino, owner, j, i, off, src, tot);
        SameFile(disk, ino, ino', j);
      }
    }

    /** The loop of writei. */
    method WriteLoop(i: nat, src: seq<Byte>, off: nat)
      returns (tot: nat, ghost bms: seq<int>, ghost data: seq<int>, ghost mapped: nat)
      requires Ok() && i < |ino| && FileOk(disk, ino, i) && off <= ino[i].size && off + |src| <= MAXFILE * BSIZE
      modifies this`disk, this`ino, this`owner, this`logged
      ensures Ok() && |ino| == |old(ino)| && tot <= |src|
      ensures Written(sb, old(disk), old(ino), old(owner), disk, ino, owner, i, off, src, tot)
      ensures tot < |src| ==> forall c: nat :: c < sb.size ==> Used(sb, disk, c)
      ensures Tallied(old(logged), logged, bms, data, old(ino)[i].addrs[NDIRECT], ino[i].addrs[NDIRECT],
        Span(off, tot), mapped)
      ensures AtBoundary(off, tot, |src|, mapped) && Saved(old(disk), old(logged), disk, logged)
    {
      tot, bms, data, mapped := 0, [], [], 0;
      ghost var ind0 := ino[i].addrs[NDIRECT];
      WrittenStart(sb, disk, ino, owner, i, off, src);
      while tot < |src|
        invariant Ok() && |ino| == |old(ino)|
        invariant AtBoundary(off, tot, |src|, mapped)
        invariant Written(sb, old(disk), old(ino), old(owner), disk, ino, owner, i, off, src, tot)
        invariant (ind0 != 0 ==> ino[i].addrs[NDIRECT] != 0) && Saved(old(disk), old(logged), disk, logged)
        invariant Tallied(old(logged), logged, bms, data, ind0, ino[i].addrs[NDIRECT], Span(off, tot), mapped)
      {
        var m;
        m, bms, data, mapped := WriteTurn(i, off, src, tot, old(disk), old(ino), old(owner), old(logged), bms, data,
            ind0, mapped);
        if m == 0 {
          break;
        }
        tot := tot + m;
      }
    }

    /** The loop body of writei: 0 bytes if the disk is full. */
    method WriteTurn(i: nat, off: nat, src: seq<Byte>, tot: nat, ghost d: seq<Block>, ghost n: seq<Inode>,
        ghost o: map<int, Slot>,
                     ghost l0: set<int>, ghost bms: seq<int>, ghost data: seq<int>, ghost ind0: int, ghost mapped: nat)
      returns (m: nat, ghost bms': seq<int>, ghost data': seq<int>, ghost mapped': nat)
      requires Ok() && i < |ino| && tot < |src| && off + |src| <= MAXFILE * BSIZE
      requires AtBoundary(off, tot, |src|, mapped)
      requires Shape(sb, d, n) && off <= n[i].size && Written(sb, d, n, o, disk, ino, owner, i, off, src, tot)
      requires Tallied(l0, logged, bms, data, ind0, ino[i].addrs[NDIRECT], Span(off, tot), mapped)
      requires (ind0 != 0 ==> ino[i].addrs[NDIRECT] != 0) && Saved(d, l0, disk, logged)
      modifies this`disk, this`ino, this`owner, this`logged
      ensures Ok() && tot + m <= |src|
      ensures AtBoundary(off, tot + m, |src|, mapped')
      ensures Written(sb, d, n, o, disk, ino, owner, i, off, src, tot + m)
      ensures m == 0 ==> forall c: nat :: c < sb.size ==> Used(sb, disk, c)
      ensures (ind0 != 0 ==> ino[i].addrs[NDIRECT] != 0) && Saved(d, l0, disk, logged)
      ensures Tallied(l0, logged, bms', data', ind0, ino[i].addrs[NDIRECT], Span(off, tot + m), mapped')
    {
      m := ChunkLen(off + tot, |src| - tot);
      if tot == 0 && BlockOff(off) != 0 {
        UnalignedIsMapped(i, off);
      }
      var ok;
      ok, bms', data', mapped' := WriteStep(i, off, src, tot, m, d, n, o, l0, bms, data, ind0, Span(off, tot), mapped);
      if ok {
        BoundaryStep(off, tot, |src|, m, mapped, mapped');
      } else {
        m := 0;
      }
    }

    /** A write that starts inside a block starts in a block that is mapped. */
    lemma UnalignedIsMapped(i: nat, off: nat)
      requires Shape(sb, disk, ino) && i < |ino| && off <= ino[i].size <= MAXFILE * BSIZE && BlockOff(off) != 0
      requires forall bn {:trigger Ref(disk, ino, i, bn)} ::
        0 <= bn < MAXFILE && bn * BSIZE < ino[i].size ==> Ref(disk, ino, i, bn) != 0
      ensures Ref(disk, ino, i, BlockNo(off)) != 0
    {
    }

    /**
     The inode case of filewrite: chunks of at most three blocks, each in its own
     transaction. Every transaction logs at most MAXOPBLOCKS distinct blocks; the
     file is patched with as many bytes as the offset has moved, which is all of
     them exactly when the call reports success.
     */
    method Filewrite(i: nat, src: seq<Byte>, off0: nat)
        returns (ret: int, off: nat, ghost done: nat, ghost ops: seq<set<int>>)
      requires Valid() && i < |ino| && off0 < UINT && |src| < UINT
      modifies this
      ensures Valid() && |ino| == |old(ino)|
      ensures forall k :: 0 <= k < |ops| ==> |ops[k]| <= MAXOPBLOCKS
      ensures AllSaved(old(disk), disk, ops)
      ensures off == off0 + done && ret == if done == |src| then |src| else -1
      ensures done < |src| ==> off0 > old(ino)[i].size || off + 3 * BSIZE > MAXFILE * BSIZE || Full()
      ensures PatchedSoFar(old(Content(disk, ino, i)), off0, src, done, Content(disk, ino, i))
      ensures OthersKept(old(disk), old(ino), disk, ino, i)
    {
      var max := ((MAXOPBLOCKS - 1 - 1 - 2) / 2) * BSIZE;
      var n := |src|;
      var k := 0;
      off, done, ops := off0, 0, [];
      ghost var c0 := Content(disk, ino, i);
      assert off0 <= |c0| ==> Patched(c0, off0, src[..0]) == c0;
      KeptAtFirst(i);
      while k < n
        invariant Valid() && |ino| == |old(ino)| && k == done <= n && off == off0 + done < UINT
        invariant forall t :: 0 <= t < |ops| ==> |ops[t]| <= MAXOPBLOCKS
        invariant AllSaved(old(disk), disk, ops)
        invariant PatchedSoFar(c0, off0, src, done, Content(disk, ino, i))
        invariant OthersKept(old(disk), old(ino), disk, ino, i)
      {
        var n1 := if n - k > max then max else n - k;
        var r;
        ghost var op, before := {}, disk;
        r, done, op := FilewriteTurn(i, src, off0, k, n1, c0, old(disk), old(ino));
        SavedMore(old(disk), before, disk, ops, op);
        ops := ops + [op];
        if r > 0 {
          off := off + r;
        }
        if r != n1 {
          break;
        }
        k := k + r;
      }
      ret := if k == n then n else -1;
    }

    /** One chunk of filewrite with what it means for the whole call. */
    method FilewriteTurn(i: nat, src: seq<Byte>, off0: nat, k: nat, n1: nat, ghost c0: seq<Byte>, ghost d: seq<Block>,
        ghost n: seq<Inode>)
      returns (r: int, ghost done: nat, ghost op: set<int>)
      requires Valid() && i < |ino| && off0 + k < UINT && k + n1 <= |src| && n1 <= 3 * BSIZE
      requires PatchedSoFar(c0, off0, src, k, Content(disk, ino, i)) && OthersKept(d, n, disk, ino, i)
      modifies this
      ensures Valid() && |ino| == |old(ino)| && |op| <= MAXOPBLOCKS && -1 <= r <= n1
      ensures done == (if r > 0 then k + r else k) && off0 + done < UINT
      ensures Saved(old(disk), {}, disk, op)
      ensures r < n1 ==> off0 > |c0| || off0 + k + n1 > MAXFILE * BSIZE || Full()
      ensures PatchedSoFar(c0, off0, src, done, Content(disk, ino, i))
      ensures OthersKept(d, n, disk, ino, i)
    {
      ghost var before := Content(disk, ino, i);
      r, op := WriteTransaction(i, src[k..k + n1], off0 + k);
      OthersKeptTwice(d, n, old(disk), old(ino), disk, ino, i);
      done := k;
      if r > 0 {
        PatchedFurther(c0, off0, src, k, n1, r, before, Content(disk, ino, i));
        done := k + r;
      }
    }

    lemma KeptAtFirst(i: nat)
      requires Valid()
      ensures OthersKept(disk, ino, disk, ino, i)
    {
      forall j | 0 <= j < |ino|
        ensures ino[j].size <= MAXFILE * BSIZE
      {
        assert FileOk(disk, ino, j);
      }
    }

    /** begin_op, writei, end_op: the blocks that one transaction logs. */
    method WriteTransaction(i: nat, src: seq<Byte>, off: nat) returns (r: int, ghost op: set<int>)
      requires Valid() && i < |ino| && off < UINT && |src| <= 3 * BSIZE
      modifies this
      ensures Valid() && |ino| == |old(ino)| && |op| <= MAXOPBLOCKS
      ensures op == logged && Saved(old(disk), {}, disk, logged) && (dino == old(dino) || sb.InodeBlock(i) in logged)
      ensures -1 <= r <= |src|
      ensures r < |src| ==> off > |old(Content(disk, ino, i))| || off + |src| > MAXFILE * BSIZE || Full()
      ensures r <= 0 ==> Content(disk, ino, i) == old(Content(disk, ino, i))
      ensures r > 0 ==>
        off <= |old(Content(disk, ino, i))| &&
        Content(disk, ino, i) == Patched(old(Content(disk, ino, i)), off, src[..r])
      ensures OthersKept(old(disk), old(ino), disk, ino, i)
    {
      logged := {};
      r := Writei(i, src, off);
      ChunkFits(off, |src|);
      op := logged;
      assert logged - {} == logged;
      if r == 0 {
        assert Patched(old(Content(disk, ino, i)), off, src[..0]) == old(Content(disk, ino, i));
      }
    }
  }

  /** A data block for each of the first ten bitmap blocks. */
  function Spread(): seq<int> {
    seq(10, k => if k == 9 then 9 * BPB else k * BPB + BPB - 1)
  }

  /**
   On every larger disk whose metadata is within the first bitmap block, some
   itrunc logs more than MAXOPBLOCKS blocks.
   */
  method TruncExceeds(sb: Superblock) returns (fs: Fs)
    requires sb.Valid() && sb.data < BPB && sb.size > 9 * BPB
    ensures fs.Valid() && |fs.logged| > MAXOPBLOCKS
  {
    assert AreDirect(sb, Spread());
    fs := new Fs(sb, Spread());
    ghost var d := fs.disk;
    fs.Itrunc(0);
    ghost var all := seq(10, k => sb.bmapstart + k) + [sb.InodeBlock(0)];
    forall k | 0 <= k < 10
      ensures all[k] in fs.logged
    {
      var b := Spread()[k];
      assert b in Spread() && sb.BitmapBlock(b) == sb.bmapstart + k;
      assert Used(sb, d, b) && !Used(sb, fs.disk, b);
      assert SavedAt(d, fs.disk, fs.logged, sb.bmapstart + k);
    }
    DistinctFits(all, fs.logged);
  }

  lemma {:induction false} DistinctFits(s: seq<int>, a: set<int>)
    requires Distinct(s) && forall k :: 0 <= k < |s| ==> s[k] in a
    ensures |s| <= |a|
    decreases |s|
  {
    if s != [] {
      var last := s[|s| - 1];
      DistinctFits(s[..|s| - 1], a - {last});
    }
  }
}
