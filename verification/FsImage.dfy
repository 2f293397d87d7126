/**
 Blocks of kernel/fs.c as the code reads them: bytes, bitmap bits and
 little-endian 32-bit words laid over the same 1024 bytes.
 */
module FsBlocks {

  const BSIZE: nat := 1024
  const NDIRECT: nat := 12
  const NINDIRECT: nat := 256
  const MAXFILE: nat := 268
  const BPB: nat := 8192
  const IPB: nat := 16
  const UINT: nat := 0x1_0000_0000

  /** Bytes are kept as integers: the operations below take 0..255 to 0..255. */
  type Byte = int
  type Block = seq<Byte>

  function Zeroes(): Block {
    seq(1024, _ => 0)
  }

  // ----- Bits -----

  /** (x & (1 << p)) != 0 */
  predicate HasBit(x: int, p: nat)
    decreases p
  {
    if p == 0 then x % 2 == 1 else HasBit(x / 2, p - 1)
  }

  /** x | (1 << p) */
  function OrMask(x: int, p: nat): (y: int)
    decreases p
  {
    if p == 0 then x / 2 * 2 + 1 else OrMask(x / 2, p - 1) * 2 + x % 2
  }

  /** x & ~(1 << p) */
  function AndNotMask(x: int, p: nat): (y: int)
    decreases p
  {
    if p == 0 then x / 2 * 2 else AndNotMask(x / 2, p - 1) * 2 + x % 2
  }

  /** Setting one bit sets that bit and no other. */
  lemma {:induction false} OrMaskBits(x: int, p: nat, q: nat)
    ensures HasBit(OrMask(x, p), q) <==> q == p || HasBit(x, q)
    decreases p
  {
    if p > 0 && q > 0 {
      var y := OrMask(x, p);
      assert y / 2 == OrMask(x / 2, p - 1) && y % 2 == x % 2;
      OrMaskBits(x / 2, p - 1, q - 1);
    }
  }

  lemma {:induction false} AndNotMaskBits(x: int, p: nat, q: nat)
    ensures HasBit(AndNotMask(x, p), q) <==> q != p && HasBit(x, q)
    decreases p
  {
    if p > 0 && q > 0 {
      var y := AndNotMask(x, p);
      assert y / 2 == AndNotMask(x / 2, p - 1) && y % 2 == x % 2;
      AndNotMaskBits(x / 2, p - 1, q - 1);
    }
  }

  lemma {:induction false} ZeroHasNoBit(p: nat)
    ensures !HasBit(0, p)
  {
    if p > 0 {
      ZeroHasNoBit(p - 1);
    }
  }

  /** The bit array over a block: bit `i` is bit `i % 8` of byte `i / 8`. */
  predicate BitAt(b: Block, i: int)
    requires |b| == BSIZE && 0 <= i < BPB
  {
    HasBit(b[i / 8], i % 8)
  }

  function SetBit(b: Block, i: int): (c: Block)
    requires |b| == BSIZE && 0 <= i < BPB
    ensures |c| == BSIZE && forall j :: 0 <= j < BPB ==> (BitAt(c, j) <==> j == i || BitAt(b, j))
  {
    var c: Block := b[i / 8 := OrMask(b[i / 8], i % 8)];
    assert forall j :: 0 <= j < BPB ==> (BitAt(c, j) <==> j == i || BitAt(b, j)) by {
      forall j | 0 <= j < BPB
        ensures BitAt(c, j) <==> j == i || BitAt(b, j)
      {
        OrMaskBits(b[i / 8], i % 8, j % 8);
      }
    }
    c
  }

  function ClearBit(b: Block, i: int): (c: Block)
    requires |b| == BSIZE && 0 <= i < BPB
    ensures |c| == BSIZE && forall j :: 0 <= j < BPB ==> (BitAt(c, j) <==> j != i && BitAt(b, j))
  {
    var c: Block := b[i / 8 := AndNotMask(b[i / 8], i % 8)];
    assert forall j :: 0 <= j < BPB ==> (BitAt(c, j) <==> j != i && BitAt(b, j)) by {
      forall j | 0 <= j < BPB
        ensures BitAt(c, j) <==> j != i && BitAt(b, j)
      {
        AndNotMaskBits(b[i / 8], i % 8, j % 8);
      }
    }
    c
  }

  // ----- Words -----

  /** ((uint*)b)[i] */
  function Word(b: Block, i: int): (w: int)
    requires |b| == BSIZE && 0 <= i < NINDIRECT
  {
    b[4 * i] + 256 * b[4 * i + 1] + 65536 * b[4 * i + 2] + 16777216 * b[4 * i + 3]
  }

  function PutWord(b: Block, i: int, w: int): (c: Block)
    requires |b| == BSIZE && 0 <= i < NINDIRECT
    ensures |c| == BSIZE
  {
    var w1 := w / 256;
    var w2 := w1 / 256;
    b[4 * i := w % 256][4 * i + 1 := w1 % 256][4 * i + 2 := w2 % 256][4 * i + 3 := w2 / 256]
  }

  lemma WordOfPut(b: Block, i: int, w: int, j: int)
    requires |b| == BSIZE && 0 <= i < NINDIRECT && 0 <= j < NINDIRECT
    ensures Word(PutWord(b, i, w), j) == if j == i then w else Word(b, j)
  {
    var c := PutWord(b, i, w);
    if j == i {
      var w1 := w / 256;
      var w2 := w1 / 256;
      assert w == 256 * w1 + w % 256 && w1 == 256 * w2 + w1 % 256 && w2 == 256 * (w2 / 256) + w2 % 256;
    } else {
      assert c[4 * j] == b[4 * j] && c[4 * j + 1] == b[4 * j + 1] && c[4 * j + 2] == b[4 * j + 2] &&
          c[4 * j + 3] == b[4 * j + 3];
    }
  }
}

/**
 What the block layer's data structures mean: which block a slot of an inode
 refers to, who owns a block, and what the bitmap says.
 */
module FsImage {
  import opened FsBlocks

  /** `data` is the first block after the metadata. */
  datatype Superblock = Superblock(size: nat, ninodes: nat, inodestart: nat, bmapstart: nat, data: nat) {
    predicate Valid() {
      && 0 < data <= size < UINT
      && 0 < bmapstart && bmapstart + (size - 1) / BPB < data
      && ninodes > 0 && inodestart + (ninodes - 1) / IPB < bmapstart
    }

    function BitmapBlock(b: int): int {
      b / BPB + bmapstart
    }

    function InodeBlock(inum: int): int {
      inum / IPB + inodestart
    }

    /** The blocks that balloc may hand out. */
    predicate Data(b: int) {
      data <= b < size
    }
  }

  /** The fields of struct inode that bmap, itrunc, readi and writei use. */
  datatype Inode = Inode(addrs: seq<int>, size: nat)

  /**
   A reference to a block: slot `k` of inode `i` is file block `k` for
   k < MAXFILE, and the indirect block itself for k == MAXFILE.
   */
  datatype Slot = Slot(i: nat, k: nat)

  predicate IsSlot(ino: seq<Inode>, i: int, k: int) {
    0 <= i < |ino| && 0 <= k <= MAXFILE
  }

  /** The block that a slot refers to, 0 for none. */
  function Ref(disk: seq<Block>, ino: seq<Inode>, i: int, k: int): (b: int)
    requires IsSlot(ino, i, k) && |ino[i].addrs| == NDIRECT + 1
  {
    if k < NDIRECT then ino[i].addrs[k]
    else if k == MAXFILE then ino[i].addrs[NDIRECT]
    else Entry(disk, ino[i].addrs[NDIRECT], k - NDIRECT)
  }

  /** Entry `e` of indirect block `a`. */
  function Entry(disk: seq<Block>, a: int, e: int): (b: int)
    requires 0 <= e < NINDIRECT
  {
    if a <= 0 || a >= |disk| || |disk[a]| != BSIZE then 0 else Word(disk[a], e)
  }

  predicate Disk(sb: Superblock, disk: seq<Block>) {
    |disk| == sb.size && forall b {:trigger disk[b]} :: 0 <= b < |disk| ==> |disk[b]| == BSIZE
  }

  predicate Shape(sb: Superblock, disk: seq<Block>, ino: seq<Inode>) {
    && sb.Valid()
    && Disk(sb, disk) && |ino| == sb.ninodes
    && forall i {:trigger ino[i]} :: 0 <= i < |ino| ==> |ino[i].addrs| == NDIRECT + 1
  }

  // ----- The bitmap -----

  predicate Used(sb: Superblock, disk: seq<Block>, b: int)
    requires sb.Valid() && Disk(sb, disk) && 0 <= b < sb.size
  {
    BitAt(disk[sb.BitmapBlock(b)], b % BPB)
  }

  /** The bitmap marks the metadata and the blocks of `live`, and nothing else. */
  ghost predicate BitmapIs(sb: Superblock, disk: seq<Block>, live: set<int>)
    requires sb.Valid() && Disk(sb, disk)
  {
    forall b: nat {:trigger Used(sb, disk, b)} :: b < sb.size ==> (Used(sb, disk, b) <==> b < sb.data || b in live)
  }

  /** What balloc does to the disk: mark block `b` and zero it. */
  function Allocated(sb: Superblock, disk: seq<Block>, b: int): (r: seq<Block>)
    requires sb.Valid() && Disk(sb, disk) && sb.Data(b)
    ensures Disk(sb, r)
  {
    var bb := sb.BitmapBlock(b);
    disk[bb := SetBit(disk[bb], b % BPB)][b := Zeroes()]
  }

  /** What bfree does to the disk. */
  function Freed(sb: Superblock, disk: seq<Block>, b: int): (r: seq<Block>)
    requires sb.Valid() && Disk(sb, disk) && sb.Data(b)
    ensures Disk(sb, r)
  {
    var bb := sb.BitmapBlock(b);
    disk[bb := ClearBit(disk[bb], b % BPB)]
  }

  lemma AllocatedBits(sb: Superblock, disk: seq<Block>, b: nat, c: nat)
    requires sb.Valid() && Disk(sb, disk) && sb.Data(b) && c < sb.size
    ensures Used(sb, Allocated(sb, disk, b), c) <==> c == b || Used(sb, disk, c)
  {
    assert sb.BitmapBlock(c) < sb.data;
  }

  lemma FreedBits(sb: Superblock, disk: seq<Block>, b: nat, c: nat)
    requires sb.Valid() && Disk(sb, disk) && sb.Data(b) && c < sb.size
    ensures Used(sb, Freed(sb, disk, b), c) <==> c != b && Used(sb, disk, c)
  {
  }

  /** balloc adds one block to the live set and touches no other data block. */
  lemma AllocatedBitmap(sb: Superblock, disk: seq<Block>, live: set<int>, b: nat)
    requires sb.Valid() && Disk(sb, disk) && sb.Data(b) && BitmapIs(sb, disk, live)
    ensures BitmapIs(sb, Allocated(sb, disk, b), live + {b})
    ensures forall c :: sb.Data(c) && c != b ==> Allocated(sb, disk, b)[c] == disk[c]
  {
    forall c: nat | c < sb.size
      ensures Used(sb, Allocated(sb, disk, b), c) <==> c == b || Used(sb, disk, c)
    {
      AllocatedBits(sb, disk, b, c);
    }
    assert sb.BitmapBlock(b) < sb.data;
  }

  lemma FreedBitmap(sb: Superblock, disk: seq<Block>, live: set<int>, b: nat)
    requires sb.Valid() && Disk(sb, disk) && sb.Data(b) && BitmapIs(sb, disk, live)
    ensures BitmapIs(sb, Freed(sb, disk, b), live - {b})
    ensures forall c :: sb.Data(c) ==> Freed(sb, disk, b)[c] == disk[c]
  {
    forall c: nat | c < sb.size
      ensures Used(sb, Freed(sb, disk, b), c) <==> c != b && Used(sb, disk, c)
    {
      FreedBits(sb, disk, b, c);
    }
    assert sb.BitmapBlock(b) < sb.data;
  }

  /** Writing a data block leaves the bitmap alone. */
  /** One more block is marked, as mkfs does. */
  lemma MarkedBits(sb: Superblock, disk: seq<Block>, b: nat, disk': seq<Block>, c: nat)
    requires sb.Valid() && Disk(sb, disk) && b < sb.size && c < sb.size && sb.BitmapBlock(b) < |disk|
    requires disk' == disk[sb.BitmapBlock(b) := SetBit(disk[sb.BitmapBlock(b)], b % BPB)] && Disk(sb, disk')
    ensures Used(sb, disk', c) <==> c == b || Used(sb, disk, c)
  {
    assert sb.BitmapBlock(b) == sb.BitmapBlock(c) && b % BPB == c % BPB ==> b == c;
  }

  lemma NothingUsed(sb: Superblock, disk: seq<Block>, c: nat)
    requires sb.Valid() && disk == seq(sb.size, _ => Zeroes()) && c < sb.size
    ensures Disk(sb, disk) && !Used(sb, disk, c)
  {
    ZeroHasNoBit(c % BPB % 8);
  }

  lemma DataWriteBitmap(sb: Superblock, disk: seq<Block>, live: set<int>, b: nat, v: Block)
    requires sb.Valid() && Disk(sb, disk) && sb.Data(b) && BitmapIs(sb, disk, live) && |v| == BSIZE
    ensures BitmapIs(sb, disk[b := v], live)
  {
    var disk' := disk[b := v];
    forall c: nat | c < sb.size
      ensures Used(sb, disk', c) <==> c < sb.data || c in live
    {
      assert Used(sb, disk', c) <==> Used(sb, disk, c) by {
        assert sb.BitmapBlock(c) < sb.data;
      }
    }
  }

  // ----- Ownership -----

  /**
   Every referenced block is a data block with exactly one reference, which
   `owner` names. So files never share a block.
   */
  ghost predicate Owned(sb: Superblock, disk: seq<Block>, ino: seq<Inode>, owner: map<int, Slot>)
    requires Shape(sb, disk, ino)
  {
    && (forall i, k {:trigger Ref(disk, ino, i, k)} :: IsSlot(ino, i, k) && Ref(disk, ino, i, k) != 0 ==>
          Ref(disk, ino, i, k) in owner && owner[Ref(disk, ino, i, k)] == Slot(i, k))
    && (forall b {:trigger b in owner} :: b in owner ==>
          sb.Data(b) && IsSlot(ino, owner[b].i, owner[b].k) && Ref(disk, ino, owner[b].i, owner[b].k) == b)
  }

  /**
   What ownership means without naming the owner: a bit is set exactly when its
   block is metadata or some slot refers to it, and no two slots refer to the
   same block.
   */
  lemma OwnershipExact(sb: Superblock, disk: seq<Block>, ino: seq<Inode>, owner: map<int, Slot>)
    requires Shape(sb, disk, ino) && Owned(sb, disk, ino, owner) && BitmapIs(sb, disk, owner.Keys)
    ensures forall b {:trigger Used(sb, disk, b)} :: 0 <= b < sb.size ==>
      (Used(sb, disk, b) <==> b < sb.data || exists i, k :: IsSlot(ino, i, k) && Ref(disk, ino, i, k) == b)
    ensures forall i, k, j, l ::
      IsSlot(ino, i, k) && IsSlot(ino, j, l) && Ref(disk, ino, i, k) == Ref(disk, ino, j, l) != 0 ==>
      i == j && k == l
  {
    forall b | 0 <= b < sb.size
      ensures Used(sb, disk, b) <==> b < sb.data || exists i, k :: IsSlot(ino, i, k) && Ref(disk, ino, i, k) == b
    {
      if b in owner {
        assert Ref(disk, ino, owner[b].i, owner[b].k) == b;
      }
      if i, k :| IsSlot(ino, i, k) && Ref(disk, ino, i, k) == b && b != 0 {
        assert b in owner;
      }
    }
  }

  /** All slots but (i, k) refer to the same block in both images. */
  ghost predicate RefsSameBut(disk: seq<Block>, ino: seq<Inode>, disk': seq<Block>, ino': seq<Inode>, i: int, k: int)
    requires |ino'| == |ino|
    requires forall j {:trigger ino[j]} :: 0 <= j < |ino| ==> |ino[j].addrs| == NDIRECT + 1
    requires forall j {:trigger ino'[j]} :: 0 <= j < |ino| ==> |ino'[j].addrs| == NDIRECT + 1
  {
    forall j, l {:trigger Ref(disk', ino', j, l)} :: IsSlot(ino, j, l) && (j != i || l != k) ==>
      Ref(disk', ino', j, l) == Ref(disk, ino, j, l)
  }

  /** Pointing an empty slot at a fresh block keeps ownership exact. */
  lemma AddOwner(sb: Superblock, disk: seq<Block>, ino: seq<Inode>, owner: map<int, Slot>,
                 disk': seq<Block>, ino': seq<Inode>, i: nat, k: nat, b: nat)
    requires Shape(sb, disk, ino) && Shape(sb, disk', ino') && Owned(sb, disk, ino, owner)
    requires IsSlot(ino, i, k) && sb.Data(b) && b !in owner
    requires Ref(disk, ino, i, k) == 0 && Ref(disk', ino', i, k) == b
    requires RefsSameBut(disk, ino, disk', ino', i, k)
    ensures Owned(sb, disk', ino', owner[b := Slot(i, k)])
  {
    var owner' := owner[b := Slot(i, k)];
    forall c | c in owner'
      ensures sb.Data(c) && IsSlot(ino', owner'[c].i, owner'[c].k) && Ref(disk', ino', owner'[c].i, owner'[c].k) == c
    {
      if c != b {
        assert c in owner;
        var s := owner[c];
        assert Ref(disk, ino, s.i, s.k) == c;
        assert Ref(disk', ino', s.i, s.k) == if s == Slot(i, k) then b else c;
      }
    }
    forall j, l | IsSlot(ino', j, l) && Ref(disk', ino', j, l) != 0
      ensures Ref(disk', ino', j, l) in owner' && owner'[Ref(disk', ino', j, l)] == Slot(j, l)
    {
      if j != i || l != k {
        assert Ref(disk, ino, j, l) in owner;
      }
    }
  }

  /** A disk that agrees on the owned blocks refers alike. */
  lemma RefsOfDisk(sb: Superblock, disk: seq<Block>, ino: seq<Inode>, owner: map<int, Slot>, disk': seq<Block>)
    requires Shape(sb, disk, ino) && Owned(sb, disk, ino, owner) && Disk(sb, disk')
    requires forall b {:trigger b in owner} :: b in owner && owner[b].k == MAXFILE ==> disk'[b] == disk[b]
    ensures forall i, k {:trigger Ref(disk', ino, i, k)} ::
      IsSlot(ino, i, k) ==> Ref(disk', ino, i, k) == Ref(disk, ino, i, k)
    ensures Owned(sb, disk', ino, owner)
  {
    forall i, k | IsSlot(ino, i, k)
      ensures Ref(disk', ino, i, k) == Ref(disk, ino, i, k)
    {
      var a := Ref(disk, ino, i, MAXFILE);
      if a != 0 {
        assert a in owner && owner[a] == Slot(i, MAXFILE);
      }
    }
    forall b | b in owner
      ensures Ref(disk', ino, owner[b].i, owner[b].k) == b
    {
      assert Ref(disk, ino, owner[b].i, owner[b].k) == b;
    }
  }

  /** References depend on the addresses only, not on the size. */
  lemma RefsOfSize(sb: Superblock, disk: seq<Block>, ino: seq<Inode>, owner: map<int, Slot>, i: nat, size: nat,
      ino': seq<Inode>)
    requires Shape(sb, disk, ino) && i < |ino| && ino' == ino[i := ino[i].(size := size)]
    ensures Shape(sb, disk, ino')
    ensures forall j, k {:trigger Ref(disk, ino', j, k)} ::
      IsSlot(ino, j, k) ==> Ref(disk, ino', j, k) == Ref(disk, ino, j, k)
    ensures Owned(sb, disk, ino, owner) ==> Owned(sb, disk, ino', owner)
  {
    if Owned(sb, disk, ino, owner) {
      forall b | b in owner
        ensures Ref(disk, ino', owner[b].i, owner[b].k) == b
      {
        assert Ref(disk, ino, owner[b].i, owner[b].k) == b;
      }
    }
  }

  // ----- Growth: what bmap may change -----

  /**
   The image has grown: inode `i` may have gained blocks in the slots `ks`;
   every block that was owned keeps its owner and, unless it is `i`'s indirect
   block, its contents; no other inode has changed.
   */
  ghost predicate Grown(sb: Superblock, disk: seq<Block>, ino: seq<Inode>, owner: map<int, Slot>,
                        disk': seq<Block>, ino': seq<Inode>, owner': map<int, Slot>, i: nat, ks: set<int>)
    requires Shape(sb, disk, ino) && Shape(sb, disk', ino') && i < |ino|
  {
    && (forall j {:trigger ino'[j]} :: 0 <= j < |ino| && j != i ==> ino'[j] == ino[j])
    && ino'[i].size == ino[i].size
    && (forall b {:trigger b in owner} :: b in owner ==> b in owner' && owner'[b] == owner[b] && 0 <= b < sb.size)
    && (forall b {:trigger b in owner} :: b in owner && owner[b] != Slot(i, MAXFILE) ==> disk'[b] == disk[b])
    && (forall j, l {:trigger Ref(disk', ino', j, l)} {:trigger Ref(disk, ino, j, l)} :: IsSlot(ino, j, l) ==>
          j != i || l !in ks || Ref(disk, ino, j, l) != 0 ==> Ref(disk', ino', j, l) == Ref(disk, ino, j, l))
  }

  lemma GrownTwice(sb: Superblock, d: seq<Block>, n: seq<Inode>, o: map<int, Slot>,
                   d': seq<Block>, n': seq<Inode>, o': map<int, Slot>,
                   d'': seq<Block>, n'': seq<Inode>, o'': map<int, Slot>, i: nat, ks: set<int>, ks': set<int>)
    requires Shape(sb, d, n) && Shape(sb, d', n') && Shape(sb, d'', n'') && i < |n|
    requires Grown(sb, d, n, o, d', n', o', i, ks) && Grown(sb, d', n', o', d'', n'', o'', i, ks')
    ensures Grown(sb, d, n, o, d'', n'', o'', i, ks + ks')
  {
    forall j, l | IsSlot(n, j, l) && (j != i || l !in ks + ks' || Ref(d, n, j, l) != 0)
      ensures Ref(d'', n'', j, l) == Ref(d, n, j, l)
    {
      assert Ref(d', n', j, l) == Ref(d, n, j, l);
    }
  }

  lemma GrownKeepsIndirect(sb: Superblock, d: seq<Block>, n: seq<Inode>, o: map<int, Slot>,
                           d': seq<Block>, n': seq<Inode>, o': map<int, Slot>, i: nat, ks: set<int>)
    requires Shape(sb, d, n) && Shape(sb, d', n') && i < |n|
    requires Grown(sb, d, n, o, d', n', o', i, ks)
    ensures n[i].addrs[NDIRECT] != 0 ==> n'[i].addrs[NDIRECT] == n[i].addrs[NDIRECT]
  {
    assert Ref(d, n, i, MAXFILE) == n[i].addrs[NDIRECT] && Ref(d', n', i, MAXFILE) == n'[i].addrs[NDIRECT];
  }

  lemma GrownMore(sb: Superblock, d: seq<Block>, n: seq<Inode>, o: map<int, Slot>,
                  d': seq<Block>, n': seq<Inode>, o': map<int, Slot>, i: nat, ks: set<int>, ks': set<int>)
    requires Shape(sb, d, n) && Shape(sb, d', n') && i < |n| && ks <= ks'
    requires Grown(sb, d, n, o, d', n', o', i, ks)
    ensures Grown(sb, d, n, o, d', n', o', i, ks')
  {
  }

  // ----- Files -----

  /** The file block that holds byte `p`, and where in it. */
  function BlockNo(p: int): int {
    p / BSIZE
  }

  function BlockOff(p: int): int {
    p % BSIZE
  }

  /** How much of `rest` bytes goes into the block at `pos`: min(rest, BSIZE - pos % BSIZE). */
  function ChunkLen(pos: nat, rest: nat): (m: nat)
    ensures BlockOff(pos) + m <= BSIZE && m <= rest && (rest > 0 ==> m > 0)
  {
    if rest < BSIZE - BlockOff(pos) then rest else BSIZE - BlockOff(pos)
  }

  /** Every block below the size is mapped. */
  ghost predicate FileOk(disk: seq<Block>, ino: seq<Inode>, i: int)
    requires 0 <= i < |ino| && |ino[i].addrs| == NDIRECT + 1
  {
    && ino[i].size <= MAXFILE * BSIZE
    && forall bn {:trigger Ref(disk, ino, i, bn)} ::
        0 <= bn < MAXFILE && bn * BSIZE < ino[i].size ==> Ref(disk, ino, i, bn) != 0
  }

  /** Byte `p` of file `i`, if its block is mapped. */
  function ByteAt(disk: seq<Block>, ino: seq<Inode>, i: int, p: int): (v: Byte)
    requires 0 <= i < |ino| && |ino[i].addrs| == NDIRECT + 1 && 0 <= p < MAXFILE * BSIZE
  {
    var r := Ref(disk, ino, i, BlockNo(p));
    if r <= 0 || r >= |disk| || |disk[r]| != BSIZE then 0 else disk[r][BlockOff(p)]
  }

  function Content(disk: seq<Block>, ino: seq<Inode>, i: int): (s: seq<Byte>)
    requires 0 <= i < |ino| && |ino[i].addrs| == NDIRECT + 1 && ino[i].size <= MAXFILE * BSIZE
  {
    seq(ino[i].size, p requires 0 <= p < ino[i].size => ByteAt(disk, ino, i, p))
  }

  /** A stretch of one mapped block is that stretch of the file. */
  lemma BlockSlice(disk: seq<Block>, ino: seq<Inode>, i: int, pos: nat, m: nat)
    requires 0 <= i < |ino| && |ino[i].addrs| == NDIRECT + 1 && ino[i].size <= MAXFILE * BSIZE
    requires pos + m <= ino[i].size && BlockOff(pos) + m <= BSIZE && 0 < m
    requires var r := Ref(disk, ino, i, BlockNo(pos)); 0 < r < |disk| && |disk[r]| == BSIZE
    ensures var b := disk[Ref(disk, ino, i, BlockNo(pos))];
            b[BlockOff(pos)..BlockOff(pos) + m] == Content(disk, ino, i)[pos..pos + m]
  {
    var r := Ref(disk, ino, i, BlockNo(pos));
    forall p | pos <= p < pos + m
      ensures disk[r][BlockOff(pos) + (p - pos)] == ByteAt(disk, ino, i, p)
    {
      assert BlockNo(p) == BlockNo(pos) && BlockOff(p) == BlockOff(pos) + (p - pos);
    }
  }

  /** Growth changes no byte of a mapped block, whoever's file it is. */
  lemma GrownBytes(sb: Superblock, disk: seq<Block>, ino: seq<Inode>, owner: map<int, Slot>,
                   disk': seq<Block>, ino': seq<Inode>, owner': map<int, Slot>, i: nat, ks: set<int>, j: int, p: int)
    requires Shape(sb, disk, ino) && Shape(sb, disk', ino') && i < |ino| && 0 <= j < |ino|
    requires Owned(sb, disk, ino, owner) && Grown(sb, disk, ino, owner, disk', ino', owner', i, ks)
    requires 0 <= p < MAXFILE * BSIZE && Ref(disk, ino, j, BlockNo(p)) != 0
    ensures ByteAt(disk', ino', j, p) == ByteAt(disk, ino, j, p)
  {
    var r := Ref(disk, ino, j, BlockNo(p));
    assert r in owner && owner[r] == Slot(j, BlockNo(p));
    assert Ref(disk', ino', j, BlockNo(p)) == r;
  }

  /** So growth changes no file. */
  lemma GrownFile(sb: Superblock, disk: seq<Block>, ino: seq<Inode>, owner: map<int, Slot>,
                  disk': seq<Block>, ino': seq<Inode>, owner': map<int, Slot>, i: nat, ks: set<int>, j: int)
    requires Shape(sb, disk, ino) && Shape(sb, disk', ino') && i < |ino| && 0 <= j < |ino|
    requires Owned(sb, disk, ino, owner) && Grown(sb, disk, ino, owner, disk', ino', owner', i, ks)
    requires FileOk(disk, ino, j)
    ensures FileOk(disk', ino', j) && Content(disk', ino', j) == Content(disk, ino, j)
  {
    assert ino'[j].size == ino[j].size;
    forall bn | 0 <= bn < MAXFILE && bn * BSIZE < ino[j].size
      ensures Ref(disk', ino', j, bn) != 0
    {
      assert Ref(disk, ino, j, bn) != 0;
    }
    forall p | 0 <= p < ino[j].size
      ensures ByteAt(disk', ino', j, p) == ByteAt(disk, ino, j, p)
    {
      assert Ref(disk, ino, j, BlockNo(p)) != 0;
      GrownBytes(sb, disk, ino, owner, disk', ino', owner', i, ks, j, p);
    }
  }

  /** A file keeps its contents while its inode and the data blocks stay as they are. */
  lemma KeptFile(sb: Superblock, disk: seq<Block>, ino: seq<Inode>, owner: map<int, Slot>, disk': seq<Block>,
      ino': seq<Inode>, j: int)
    requires Shape(sb, disk, ino) && Shape(sb, disk', ino') && Owned(sb, disk, ino, owner)
    requires 0 <= j < |ino| && ino'[j] == ino[j] && FileOk(disk, ino, j)
    requires forall c :: sb.Data(c) ==> disk'[c] == disk[c]
    ensures FileOk(disk', ino', j) && Content(disk', ino', j) == Content(disk, ino, j)
  {
    var a := Ref(disk, ino, j, MAXFILE);
    assert a != 0 ==> a in owner && sb.Data(a);
    forall k | 0 <= k <= MAXFILE
      ensures Ref(disk', ino', j, k) == Ref(disk, ino, j, k)
    {
    }
    forall p | 0 <= p < ino[j].size
      ensures ByteAt(disk', ino', j, p) == ByteAt(disk, ino, j, p)
    {
      var r := Ref(disk, ino, j, BlockNo(p));
      assert r in owner && sb.Data(r);
    }
  }

  // ----- The three ways a file gains a block -----

  /** The slot that addrs[idx] is. */
  function AddrSlot(idx: nat): nat {
    if idx == NDIRECT then MAXFILE else idx
  }

  /** Allocating a block leaves all references as they were. */
  lemma AllocatedRefs(sb: Superblock, disk: seq<Block>, ino: seq<Inode>, owner: map<int, Slot>, b: nat)
    requires Shape(sb, disk, ino) && Owned(sb, disk, ino, owner) && sb.Data(b) && b !in owner
    ensures var d := Allocated(sb, disk, b);
      && Shape(sb, d, ino) && Owned(sb, d, ino, owner)
      && (forall c {:trigger c in owner} :: c in owner ==> d[c] == disk[c])
      && (forall i, k {:trigger Ref(d, ino, i, k)} :: IsSlot(ino, i, k) ==> Ref(d, ino, i, k) == Ref(disk, ino, i, k))
  {
    var d := Allocated(sb, disk, b);
    assert sb.BitmapBlock(b) < sb.data;
    assert forall c {:trigger c in owner} :: c in owner ==> d[c] == disk[c];
    RefsOfDisk(sb, disk, ino, owner, d);
  }

  /** addrs[idx] = balloc() */
  lemma AddrGrowth(sb: Superblock, disk: seq<Block>, ino: seq<Inode>, owner: map<int, Slot>, i: nat, idx: nat, b: nat,
                   disk': seq<Block>, ino': seq<Inode>, owner': map<int, Slot>)
    requires Shape(sb, disk, ino) && Owned(sb, disk, ino, owner) && i < |ino| && idx <= NDIRECT
    requires sb.Data(b) && b !in owner && ino[i].addrs[idx] == 0
    requires disk' == Allocated(sb, disk, b)
    requires ino' == ino[i := ino[i].(addrs := ino[i].addrs[idx := b])]
    requires owner' == owner[b := Slot(i, AddrSlot(idx))]
    ensures Shape(sb, disk', ino') && Owned(sb, disk', ino', owner')
    ensures Ref(disk', ino', i, AddrSlot(idx)) == b
    ensures Grown(sb, disk, ino, owner, disk', ino', owner', i, {AddrSlot(idx)})
  {
    AllocatedRefs(sb, disk, ino, owner, b);
    assert RefsSameBut(disk, ino, disk', ino', i, AddrSlot(idx)) by {
      forall j, l | IsSlot(ino, j, l) && (j != i || l != AddrSlot(idx))
        ensures Ref(disk', ino', j, l) == Ref(disk, ino, j, l)
      {
        assert Ref(disk', ino, j, l) == Ref(disk, ino, j, l);
        if j == i && idx == NDIRECT && NDIRECT <= l {
          assert Word(Zeroes(), l - NDIRECT) == 0;
        }
      }
    }
    assert Ref(disk, ino, i, AddrSlot(idx)) == 0;
    AddOwner(sb, disk, ino, owner, disk', ino', i, AddrSlot(idx), b);
  }

  /** a[e] = balloc() in the indirect block */
  lemma EntryGrowth(sb: Superblock, disk: seq<Block>, ino: seq<Inode>, owner: map<int, Slot>, i: nat, e: nat, b: nat,
                    disk': seq<Block>, owner': map<int, Slot>)
    requires Shape(sb, disk, ino) && Owned(sb, disk, ino, owner) && i < |ino| && e < NINDIRECT
    requires sb.Data(b) && b !in owner && ino[i].addrs[NDIRECT] != 0 && Ref(disk, ino, i, NDIRECT + e) == 0
    requires var d := Allocated(sb, disk, b);
      var a := ino[i].addrs[NDIRECT];
      0 <= a < |d| && disk' == d[a := PutWord(d[a], e, b)]
    requires owner' == owner[b := Slot(i, NDIRECT + e)]
    ensures Shape(sb, disk', ino) && Owned(sb, disk', ino, owner')
    ensures Ref(disk', ino, i, NDIRECT + e) == b
    ensures Grown(sb, disk, ino, owner, disk', ino, owner', i, {NDIRECT + e})
  {
    AllocatedRefs(sb, disk, ino, owner, b);
    var d := Allocated(sb, disk, b);
    var a := ino[i].addrs[NDIRECT];
    assert a == Ref(disk, ino, i, MAXFILE) && a in owner && owner[a] == Slot(i, MAXFILE);
    assert d[a] == disk[a];
    forall j, l | IsSlot(ino, j, l)
      ensures Ref(disk', ino, j, l) == if j == i && l == NDIRECT + e then b else Ref(disk, ino, j, l)
    {
      assert Ref(d, ino, j, l) == Ref(disk, ino, j, l);
      if j == i {
        if NDIRECT <= l < MAXFILE {
          WordOfPut(d[a], e, b, l - NDIRECT);
        }
      } else {
        assert Ref(disk, ino, j, MAXFILE) == ino[j].addrs[NDIRECT];
      }
    }
    AddOwner(sb, disk, ino, owner, disk', ino, i, NDIRECT + e, b);
  }

  // ----- Giving blocks up -----

  /** The blocks in the first `n` entries of inode `i`'s indirect block. */
  ghost function EntriesOf(owner: map<int, Slot>, i: nat, n: nat): set<int> {
    set b | b in owner && owner[b].i == i && NDIRECT <= owner[b].k < NDIRECT + n
  }

  /** The blocks in the first `n` direct addresses of inode `i`. */
  ghost function DirectOf(owner: map<int, Slot>, i: nat, n: nat): set<int> {
    set b | b in owner && owner[b].i == i && owner[b].k < n
  }

  /** The block of one slot. */
  ghost function BlockOf(owner: map<int, Slot>, i: nat, k: nat): set<int> {
    set b | b in owner && owner[b] == Slot(i, k)
  }

  ghost function Without(owner: map<int, Slot>, gone: set<int>): map<int, Slot> {
    map b | b in owner && b !in gone :: owner[b]
  }

  /** Zeroing a direct address gives up exactly its block. */
  lemma DropAddr(sb: Superblock, disk: seq<Block>, ino: seq<Inode>, owner: map<int, Slot>, i: nat, idx: nat,
                 disk': seq<Block>, ino': seq<Inode>)
    requires Shape(sb, disk, ino) && Owned(sb, disk, ino, owner) && i < |ino| && idx < NDIRECT
    requires ino[i].addrs[idx] != 0 && Disk(sb, disk')
    requires forall c :: sb.Data(c) ==> disk'[c] == disk[c]
    requires ino' == ino[i := ino[i].(addrs := ino[i].addrs[idx := 0])]
    ensures ino[i].addrs[idx] == Ref(disk, ino, i, idx)
    ensures ino[i].addrs[idx] in owner && owner[ino[i].addrs[idx]] == Slot(i, idx)
    ensures Shape(sb, disk', ino') && Owned(sb, disk', ino', Without(owner, {ino[i].addrs[idx]}))
  {
    assert ino[i].addrs[idx] == Ref(disk, ino, i, idx);
    RefsOfDisk(sb, disk, ino, owner, disk');
    var owner' := Without(owner, {ino[i].addrs[idx]});
    forall j, l | IsSlot(ino, j, l)
      ensures Ref(disk', ino', j, l) == if j == i && l == idx then 0 else Ref(disk, ino, j, l)
    {
      assert Ref(disk', ino, j, l) == Ref(disk, ino, j, l);
    }
    forall b | b in owner'
      ensures Ref(disk', ino', owner[b].i, owner[b].k) == b
    {
      assert Ref(disk, ino, owner[b].i, owner[b].k) == b;
    }
  }

  /** Zeroing the indirect address of an inode without direct blocks gives up all it has. */
  lemma DropIndirect(sb: Superblock, disk: seq<Block>, ino: seq<Inode>, owner: map<int, Slot>, i: nat, ino': seq<Inode>)
    requires Shape(sb, disk, ino) && Owned(sb, disk, ino, owner) && i < |ino|
    requires forall k :: 0 <= k < NDIRECT ==> ino[i].addrs[k] == 0
    requires ino' == ino[i := ino[i].(addrs := ino[i].addrs[NDIRECT := 0])]
    ensures Shape(sb, disk, ino')
    ensures Owned(sb, disk, ino', Without(owner, set b | b in owner && owner[b].i == i))
    ensures forall k {:trigger Ref(disk, ino', i, k)} :: 0 <= k <= MAXFILE ==> Ref(disk, ino', i, k) == 0
  {
    var owner' := Without(owner, set b | b in owner && owner[b].i == i);
    forall j, l | IsSlot(ino, j, l)
      ensures Ref(disk, ino', j, l) == if j == i then 0 else Ref(disk, ino, j, l)
    {
    }
    forall b | b in owner'
      ensures Ref(disk, ino', owner[b].i, owner[b].k) == b
    {
      assert Ref(disk, ino, owner[b].i, owner[b].k) == b;
    }
  }

  /** One more entry: either it is empty, or it owns a block that no earlier entry does. */
  lemma NextEntry(sb: Superblock, disk: seq<Block>, ino: seq<Inode>, owner: map<int, Slot>, i: nat, n: nat)
    requires Shape(sb, disk, ino) && Owned(sb, disk, ino, owner) && i < |ino| && n < NINDIRECT
    ensures var b := Ref(disk, ino, i, NDIRECT + n);
      if b == 0 then EntriesOf(owner, i, n + 1) == EntriesOf(owner, i, n)
      else b in owner && b !in EntriesOf(owner, i, n) && EntriesOf(owner, i, n + 1) == EntriesOf(owner, i, n) + {b}
  {
    var b := Ref(disk, ino, i, NDIRECT + n);
    forall c | c in EntriesOf(owner, i, n + 1) && c !in EntriesOf(owner, i, n)
      ensures c == b && b != 0
    {
      assert owner[c] == Slot(i, NDIRECT + n);
    }
    if b != 0 {
      assert b in owner;
    }
  }

  // ----- Writing a file -----

  /** `chunk` laid over the block from byte `o`. */
  function Splice(b: Block, o: nat, chunk: seq<Byte>): (c: Block)
    requires |b| == BSIZE && o + |chunk| <= BSIZE
    ensures |c| == BSIZE
    ensures forall q :: 0 <= q < BSIZE ==> c[q] == if o <= q < o + |chunk| then chunk[q - o] else b[q]
  {
    b[..o] + chunk + b[o + |chunk|..]
  }

  /**
   The first `tot` bytes of `src` have been written to file `i` at `off`: they
   are there, every other byte below the old size is as it was, nothing else has
   changed, and every block below the bytes written is mapped.
   */
  ghost predicate Written(sb: Superblock, disk: seq<Block>, ino: seq<Inode>, owner: map<int, Slot>,
                          disk': seq<Block>, ino': seq<Inode>, owner': map<int, Slot>,
                          i: nat, off: nat, src: seq<Byte>, tot: nat)
    requires Shape(sb, disk, ino) && Shape(sb, disk', ino') && i < |ino| && tot <= |src| &&
      off + |src| <= MAXFILE * BSIZE
  {
    && (forall j {:trigger ino'[j]} :: 0 <= j < |ino| && j != i ==> ino'[j] == ino[j])
    && ino'[i].size == ino[i].size <= MAXFILE * BSIZE
    && (forall b {:trigger b in owner} :: b in owner ==> b in owner' && owner'[b] == owner[b] && 0 <= b < sb.size)
    && (forall b {:trigger b in owner} :: b in owner && owner[b].i != i ==> disk'[b] == disk[b])
    && (forall bn {:trigger Ref(disk', ino', i, bn)} ::
        0 <= bn < MAXFILE && (bn * BSIZE < ino[i].size || bn * BSIZE < off + tot) ==>
          Ref(disk', ino', i, bn) != 0)
    && (forall p {:trigger ByteAt(disk', ino', i, p)} :: 0 <= p < ino[i].size && (p < off || off + tot <= p) ==>
          ByteAt(disk', ino', i, p) == ByteAt(disk, ino, i, p))
    && (forall p {:trigger ByteAt(disk', ino', i, p)} ::
        off <= p < off + tot ==> ByteAt(disk', ino', i, p) == src[p - off])
  }

  /** Growth in the middle of a write loses nothing. */
  lemma WrittenGrown(sb: Superblock, d: seq<Block>, n: seq<Inode>, o: map<int, Slot>,
                     d': seq<Block>, n': seq<Inode>, o': map<int, Slot>,
                     d'': seq<Block>, n'': seq<Inode>, o'': map<int, Slot>,
                     i: nat, off: nat, src: seq<Byte>, tot: nat, ks: set<int>)
    requires Shape(sb, d, n) && Shape(sb, d', n') && Shape(sb, d'', n'') && i < |n|
    requires tot <= |src| && off + |src| <= MAXFILE * BSIZE && off <= n[i].size
    requires Owned(sb, d', n', o') && Written(sb, d, n, o, d', n', o', i, off, src, tot)
    requires Grown(sb, d', n', o', d'', n'', o'', i, ks)
    ensures Written(sb, d, n, o, d'', n'', o'', i, off, src, tot)
  {
    forall bn | 0 <= bn < MAXFILE && (bn * BSIZE < n[i].size || bn * BSIZE < off + tot)
      ensures Ref(d'', n'', i, bn) != 0
    {
      assert Ref(d', n', i, bn) != 0;
    }
    forall p | 0 <= p < MAXFILE * BSIZE && (p < n[i].size || p < off + tot)
      ensures ByteAt(d'', n'', i, p) == ByteAt(d', n', i, p)
    {
      assert Ref(d', n', i, BlockNo(p)) != 0;
      GrownBytes(sb, d', n', o', d'', n'', o'', i, ks, i, p);
    }
    forall b | b in o && o[b].i != i
      ensures d''[b] == d[b]
    {
      assert b in o';
    }
  }

  /** Laying a chunk over a mapped file block changes those bytes of that file only. */
  lemma ChunkBytes(sb: Superblock, disk: seq<Block>, ino: seq<Inode>, owner: map<int, Slot>,
                   i: nat, pos: nat, chunk: seq<Byte>, disk': seq<Block>, p: int)
    requires Shape(sb, disk, ino) && Owned(sb, disk, ino, owner) && i < |ino| && pos < MAXFILE * BSIZE
    requires BlockOff(pos) + |chunk| <= BSIZE
    requires var a := Ref(disk, ino, i, BlockNo(pos));
      0 < a < sb.size && disk' == disk[a := Splice(disk[a], BlockOff(pos), chunk)]
    requires 0 <= p < MAXFILE * BSIZE
    requires Ref(disk', ino, i, BlockNo(p)) == Ref(disk, ino, i, BlockNo(p)) != 0
    ensures ByteAt(disk', ino, i, p) == if pos <= p < pos + |chunk| then chunk[p - pos] else ByteAt(disk, ino, i, p)
  {
    var a := Ref(disk, ino, i, BlockNo(pos));
    var r := Ref(disk, ino, i, BlockNo(p));
    assert a in owner && owner[a] == Slot(i, BlockNo(pos));
    assert r in owner && owner[r] == Slot(i, BlockNo(p));
  }

  lemma ChunkRefs(sb: Superblock, disk: seq<Block>, ino: seq<Inode>, owner: map<int, Slot>, i: nat, bn: nat, v: Block,
      disk': seq<Block>)
    requires Shape(sb, disk, ino) && Owned(sb, disk, ino, owner) && BitmapIs(sb, disk, owner.Keys) && i < |ino| &&
      bn < MAXFILE
    requires var a := Ref(disk, ino, i, bn); 0 < a < sb.size && |v| == BSIZE && disk' == disk[a := v]
    ensures Owned(sb, disk', ino, owner) && BitmapIs(sb, disk', owner.Keys)
    ensures forall j, k {:trigger Ref(disk', ino, j, k)} ::
      IsSlot(ino, j, k) ==> Ref(disk', ino, j, k) == Ref(disk, ino, j, k)
  {
    var a := Ref(disk, ino, i, bn);
    assert a in owner && owner[a] == Slot(i, bn);
    RefsOfDisk(sb, disk, ino, owner, disk');
    DataWriteBitmap(sb, disk, owner.Keys, a, v);
  }

  lemma WrittenChunk(sb: Superblock, d: seq<Block>, n: seq<Inode>, o: map<int, Slot>,
                     d': seq<Block>, n': seq<Inode>, o': map<int, Slot>, d'': seq<Block>,
                     i: nat, off: nat, src: seq<Byte>, tot: nat, m: nat)
    requires Shape(sb, d, n) && Shape(sb, d', n') && i < |n|
    requires tot + m <= |src| && off + |src| <= MAXFILE * BSIZE && off <= n[i].size
    requires Owned(sb, d', n', o') && BitmapIs(sb, d', o'.Keys) && Written(sb, d, n, o, d', n', o', i, off, src, tot)
    requires 0 < m && BlockOff(off + tot) + m <= BSIZE
    requires var a := Ref(d', n', i, BlockNo(off + tot));
      0 < a < sb.size && d'' == d'[a := Splice(d'[a], BlockOff(off + tot), src[tot..tot + m])]
    ensures Owned(sb, d'', n', o') && BitmapIs(sb, d'', o'.Keys)
    ensures Written(sb, d, n, o, d'', n', o', i, off, src, tot + m)
  {
    var pos := off + tot;
    var a := Ref(d', n', i, BlockNo(pos));
    assert a in o' && o'[a] == Slot(i, BlockNo(pos));
    ChunkRefs(sb, d', n', o', i, BlockNo(pos), d''[a], d'');
    forall bn | 0 <= bn < MAXFILE && (bn * BSIZE < n[i].size || bn * BSIZE < off + tot + m)
      ensures Ref(d'', n', i, bn) != 0
    {
      assert bn * BSIZE < n[i].size || bn * BSIZE < off + tot || bn == BlockNo(pos);
      assert Ref(d'', n', i, bn) == Ref(d', n', i, bn);
    }
    forall p | 0 <= p < n[i].size || off <= p < off + tot + m
      ensures ByteAt(d'', n', i, p) == if pos <= p < pos + m then src[p - off] else ByteAt(d', n', i, p)
    {
      assert Ref(d'', n', i, BlockNo(p)) != 0;
      ChunkBytes(sb, d', n', o', i, pos, src[tot..tot + m], d'', p);
    }
    forall b | b in o && o[b].i != i
      ensures d''[b] == d[b]
    {
      assert b in o';
    }
  }

  lemma WrittenStart(sb: Superblock, d: seq<Block>, n: seq<Inode>, o: map<int, Slot>, i: nat, off: nat, src: seq<Byte>)
    requires Shape(sb, d, n) && i < |n| && off + |src| <= MAXFILE * BSIZE && off <= n[i].size
    requires Owned(sb, d, n, o) && FileOk(d, n, i)
    ensures Written(sb, d, n, o, d, n, o, i, off, src, 0)
  {
  }

  /** One turn of writei's loop: growth, then a chunk. */
  lemma WrittenStep(sb: Superblock, d: seq<Block>, n: seq<Inode>, o: map<int, Slot>,
                    d': seq<Block>, n': seq<Inode>, o': map<int, Slot>,
                    e: seq<Block>, n'': seq<Inode>, o'': map<int, Slot>, e': seq<Block>,
                    i: nat, off: nat, src: seq<Byte>, tot: nat, m: nat)
    requires Shape(sb, d, n) && Shape(sb, d', n') && Shape(sb, e, n'') && i < |n|
    requires tot + m <= |src| && off + |src| <= MAXFILE * BSIZE && off <= n[i].size
    requires Owned(sb, d', n', o') && Written(sb, d, n, o, d', n', o', i, off, src, tot)
    requires off + tot < MAXFILE * BSIZE && Grown(sb, d', n', o', e, n'', o'', i, {BlockNo(off + tot), MAXFILE})
    requires Owned(sb, e, n'', o'') && BitmapIs(sb, e, o''.Keys)
    requires 0 < m && BlockOff(off + tot) + m <= BSIZE
    requires var a := Ref(e, n'', i, BlockNo(off + tot));
      0 < a < sb.size && e' == e[a := Splice(e[a], BlockOff(off + tot), src[tot..tot + m])]
    ensures Owned(sb, e', n'', o'') && BitmapIs(sb, e', o''.Keys)
    ensures Written(sb, d, n, o, e', n'', o'', i, off, src, tot + m)
  {
    WrittenGrown(sb, d, n, o, d', n', o', e, n'', o'', i, off, src, tot, {BlockNo(off + tot), MAXFILE});
    WrittenChunk(sb, d, n, o, e, n'', o'', e', i, off, src, tot, m);
  }

  /** The file after a write, as byte sequences. */
  function Patched(content: seq<Byte>, off: nat, bytes: seq<Byte>): (r: seq<Byte>)
    requires off <= |content|
  {
    content[..off] + bytes + if off + |bytes| <= |content| then content[off + |bytes|..] else []
  }

  /** What `Written` means for the files once the size is set. */
  lemma WrittenContent(sb: Superblock, d: seq<Block>, n: seq<Inode>, o: map<int, Slot>,
                       d': seq<Block>, n': seq<Inode>, o': map<int, Slot>, n'': seq<Inode>,
                       i: nat, off: nat, src: seq<Byte>, tot: nat)
    requires Shape(sb, d, n) && Shape(sb, d', n') && Shape(sb, d', n'') && i < |n|
    requires tot <= |src| && off + |src| <= MAXFILE * BSIZE && off <= n[i].size
    requires Written(sb, d, n, o, d', n', o', i, off, src, tot)
    requires n'' == n'[i := n'[i].(size := if off + tot > n'[i].size then off + tot else n'[i].size)]
    ensures FileOk(d', n'', i)
    ensures Content(d', n'', i) == Patched(Content(d, n, i), off, src[..tot])
  {
    assert forall k :: 0 <= k <= MAXFILE ==> Ref(d', n'', i, k) == Ref(d', n', i, k);
    forall p | 0 <= p < n''[i].size
      ensures ByteAt(d', n'', i, p) == Patched(Content(d, n, i), off, src[..tot])[p]
    {
      assert ByteAt(d', n'', i, p) == ByteAt(d', n', i, p);
    }
  }

  /** The other files keep their contents and their mapping. */
  lemma WrittenOthers(sb: Superblock, d: seq<Block>, n: seq<Inode>, o: map<int, Slot>,
                      d': seq<Block>, n': seq<Inode>, o': map<int, Slot>, j: int,
                      i: nat, off: nat, src: seq<Byte>, tot: nat)
    requires Shape(sb, d, n) && Shape(sb, d', n') && i < |n| && 0 <= j < |n| && j != i
    requires tot <= |src| && off + |src| <= MAXFILE * BSIZE
    requires Owned(sb, d, n, o) && Written(sb, d, n, o, d', n', o', i, off, src, tot) && FileOk(d, n, j)
    ensures FileOk(d', n', j) && Content(d', n', j) == Content(d, n, j)
  {
    forall k | 0 <= k <= MAXFILE
      ensures Ref(d', n', j, k) == Ref(d, n, j, k)
    {
      var a := Ref(d, n, j, MAXFILE);
      if a != 0 {
        assert a in o && o[a] == Slot(j, MAXFILE);
      }
    }
    forall p | 0 <= p < n[j].size
      ensures ByteAt(d', n', j, p) == ByteAt(d, n, j, p)
    {
      var r := Ref(d, n, j, BlockNo(p));
      assert r in o && o[r] == Slot(j, BlockNo(p));
    }
  }
}
