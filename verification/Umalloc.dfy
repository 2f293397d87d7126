/**
 The free ring of user/umalloc.c. Addresses count headers, so that pointer
 arithmetic is addition; memory is the two header words at each address.
 */
module FreeRing {

  /**
   Everything that malloc and free keep track of, and two ghosts: the allocated
   blocks, and the block that each unit belongs to.
   */
  datatype Heap = Heap(base: int, ring: seq<int>, ptr: map<int, int>, size: map<int, int>, used: set<int>,
      own: map<int, int>)

  predicate IsBlock(h: Heap, b: int) {
    b in h.used || (b in h.ring && b != h.base)
  }

  /** The index after `i` around the ring. */
  function Succ(n: int, i: int): int {
    if i + 1 < n then i + 1 else 0
  }

  /** The ring starts at `base`, is sorted by address, and wraps around once, at its end. */
  ghost predicate RingOk(base: int, ring: seq<int>, ptr: map<int, int>) {
    && |ring| > 0 && ring[0] == base
    && Sorted(ring)
    && (forall i {:trigger LinkOk(ring, ptr, i)} :: 0 <= i < |ring| ==> LinkOk(ring, ptr, i))
  }

  predicate LinkOk(ring: seq<int>, ptr: map<int, int>, i: int)
    requires 0 <= i < |ring|
  {
    ring[i] in ptr && ptr[ring[i]] == ring[Succ(|ring|, i)]
  }

  /** The units of block `b` are those from `b` on, as many as its header says. */
  predicate BlockOk(h: Heap, b: int) {
    && h.base < b && b in h.size && 1 <= h.size[b]
    && (forall u {:trigger h.own[u]} {:trigger u in h.own} :: b <= u < b + h.size[b] ==> u in h.own && h.own[u] == b)
  }

  predicate UnitOk(h: Heap, u: int)
    requires u in h.own
  {
    var b := h.own[u];
    IsBlock(h, b) && b in h.size && b <= u < b + h.size[b]
  }

  /** Free and allocated blocks together are exactly the units got from sbrk, each unit in one block. */
  ghost predicate Inv(h: Heap) {
    && RingOk(h.base, h.ring, h.ptr)
    && h.base in h.size && h.size[h.base] == 0 && h.base !in h.own
    && (forall b {:trigger BlockOk(h, b)} :: IsBlock(h, b) ==> BlockOk(h, b))
    && (forall u {:trigger UnitOk(h, u)} :: u in h.own ==> UnitOk(h, u))
    && (forall b :: b in h.used ==> b !in h.ring)
  }

  /** Free block `i` of the ring does not touch the next one. */
  predicate GapAt(h: Heap, i: int)
    requires 0 <= i < |h.ring|
  {
    i == 0 || i + 1 == |h.ring| || (h.ring[i] in h.size && h.ring[i] + h.size[h.ring[i]] < h.ring[i + 1])
  }

  ghost predicate Gaps(h: Heap) {
    forall i {:trigger GapAt(h, i)} :: 0 <= i < |h.ring| ==> GapAt(h, i)
  }

  /** The elements of the ring after the first are blocks. */
  lemma RingBlock(h: Heap, i: int)
    requires Inv(h) && 1 <= i < |h.ring|
    ensures IsBlock(h, h.ring[i]) && BlockOk(h, h.ring[i]) && h.ring[i] in h.ptr
  {
    assert Less(h.ring, 0, i);
    assert LinkOk(h.ring, h.ptr, i);
  }

  /** Two blocks are disjoint. */
  lemma BlocksApart(h: Heap, a: int, b: int)
    requires Inv(h) && IsBlock(h, a) && IsBlock(h, b) && a < b
    ensures BlockOk(h, a) && BlockOk(h, b) && a + h.size[a] <= b
  {
    assert BlockOk(h, a) && BlockOk(h, b);
    assert h.own[b] == b;
  }

  /** Where the block `b` belongs in the ring: after element `t`. */
  predicate IsSlot(ring: seq<int>, b: int, t: int) {
    0 <= t < |ring| && ring[t] < b && (t + 1 < |ring| ==> b < ring[t + 1])
  }

  function InsertAt(ring: seq<int>, t: int, b: int): seq<int>
    requires 0 <= t < |ring|
  {
    ring[..t + 1] + [b] + ring[t + 1..]
  }

  function RemoveAt(ring: seq<int>, i: int): seq<int>
    requires 0 <= i < |ring|
  {
    ring[..i] + ring[i + 1..]
  }

  predicate Less(ring: seq<int>, i: int, j: int)
    requires 0 <= i < |ring| && 0 <= j < |ring|
  {
    ring[i] < ring[j]
  }

  ghost predicate Sorted(ring: seq<int>) {
    forall i, j {:trigger Less(ring, i, j)} :: 0 <= i < j < |ring| ==> Less(ring, i, j)
  }

  lemma InsertSorted(ring: seq<int>, t: int, b: int)
    requires Sorted(ring) && IsSlot(ring, b, t)
    ensures Sorted(InsertAt(ring, t, b))
    ensures forall x :: x in InsertAt(ring, t, b) <==> x in ring || x == b
  {
    var ring' := InsertAt(ring, t, b);
    assert ring == ring[..t + 1] + ring[t + 1..];
    forall i, j | 0 <= i < j < |ring'|
      ensures Less(ring', i, j)
    {
      var x, y := if i <= t then i else i - 1, if j <= t then j else j - 1;
      assert ring'[i] == if i == t + 1 then b else ring[x];
      assert ring'[j] == if j == t + 1 then b else ring[y];
      assert x < y ==> Less(ring, x, y);
      assert x < t ==> Less(ring, x, t);
      assert t + 1 < y ==> Less(ring, t + 1, y);
    }
  }

  lemma InsertRing(base: int, ring: seq<int>, ptr: map<int, int>, t: int, b: int)
    requires RingOk(base, ring, ptr) && IsSlot(ring, b, t) && ring[t] in ptr
    ensures RingOk(base, InsertAt(ring, t, b), ptr[b := ptr[ring[t]]][ring[t] := b])
    ensures forall x :: x in InsertAt(ring, t, b) <==> x in ring || x == b
  {
    var ring', ptr' := InsertAt(ring, t, b), ptr[b := ptr[ring[t]]][ring[t] := b];
    InsertSorted(ring, t, b);
    assert LinkOk(ring, ptr, t);
    forall i | 0 <= i < |ring'|
      ensures LinkOk(ring', ptr', i)
    {
      if i != t && i != t + 1 {
        var k := if i < t then i else i - 1;
        assert LinkOk(ring, ptr, k);
        assert ring'[i] == ring[k] && ring'[Succ(|ring'|, i)] == ring[Succ(|ring|, k)];
        assert if k < t then Less(ring, k, t) else Less(ring, t, k) && (k == t + 1 || Less(ring, t + 1, k));
      }
    }
  }

  lemma RemoveSorted(ring: seq<int>, i: int)
    requires Sorted(ring) && 0 <= i < |ring|
    ensures Sorted(RemoveAt(ring, i))
    ensures forall x :: x in RemoveAt(ring, i) <==> x in ring && x != ring[i]
  {
    var ring' := RemoveAt(ring, i);
    assert ring == ring[..i] + [ring[i]] + ring[i + 1..];
    forall x, y | 0 <= x < y < |ring'|
      ensures Less(ring', x, y)
    {
      var x', y' := if x < i then x else x + 1, if y < i then y else y + 1;
      assert ring'[x] == ring[x'] && ring'[y] == ring[y'] && Less(ring, x', y');
    }
    forall k | 0 <= k < |ring'|
      ensures ring'[k] != ring[i]
    {
      assert ring'[k] == ring[if k < i then k else k + 1];
      assert if k < i then Less(ring, k, i) else Less(ring, i, k + 1);
    }
  }

  lemma RemoveRing(base: int, ring: seq<int>, ptr: map<int, int>, i: int)
    requires RingOk(base, ring, ptr) && 1 <= i < |ring| && ring[i] in ptr
    ensures RingOk(base, RemoveAt(ring, i), ptr[ring[i - 1] := ptr[ring[i]]])
    ensures forall x :: x in RemoveAt(ring, i) <==> x in ring && x != ring[i]
  {
    var ring', ptr' := RemoveAt(ring, i), ptr[ring[i - 1] := ptr[ring[i]]];
    RemoveSorted(ring, i);
    assert LinkOk(ring, ptr, i);
    forall k | 0 <= k < |ring'|
      ensures LinkOk(ring', ptr', k)
    {
      if k != i - 1 {
        var k' := if k < i then k else k + 1;
        assert LinkOk(ring, ptr, k');
        assert ring'[k] == ring[k'] && ring'[Succ(|ring'|, k)] == ring[Succ(|ring|, k')];
        assert if k' < i - 1 then Less(ring, k', i - 1) else Less(ring, i - 1, k');
      }
    }
  }

  /** The block `b` after ring element `t`, linked in; nothing merged yet. */
  function Inserted(h: Heap, t: int, b: int): Heap
    requires 0 <= t < |h.ring| && h.ring[t] in h.ptr
  {
    h.(ring := InsertAt(h.ring, t, b), ptr := h.ptr[b := h.ptr[h.ring[t]]][h.ring[t] := b], used := h.used - {b})
  }

  lemma InsertedInv(h: Heap, t: int, b: int)
    requires Inv(h) && b in h.used && IsSlot(h.ring, b, t) && h.ring[t] in h.ptr
    ensures Inv(Inserted(h, t, b))
  {
    var h' := Inserted(h, t, b);
    assert IsBlock(h, b) && BlockOk(h, b);
    InsertRing(h.base, h.ring, h.ptr, t, b);
    forall x | IsBlock(h', x)
      ensures BlockOk(h', x)
    {
      assert IsBlock(h, x) && BlockOk(h, x);
    }
    forall u | u in h'.own
      ensures UnitOk(h', u)
    {
      assert UnitOk(h, u);
    }
  }

  /** The units of the block `b` become units of the block `a`. */
  function Repoint(own: map<int, int>, b: int, a: int): map<int, int> {
    map u | u in own :: if own[u] == b then a else own[u]
  }

  /** Ring element `i` takes over the next one. */
  function Merged(h: Heap, i: int): Heap
    requires 0 <= i && i + 1 < |h.ring| && h.ring[i] in h.size && h.ring[i + 1] in h.size && h.ring[i + 1] in h.ptr
  {
    var a, b := h.ring[i], h.ring[i + 1];
    h.(ring := RemoveAt(h.ring, i + 1), ptr := h.ptr[a := h.ptr[b]], size := h.size[a := h.size[a] + h.size[b]],
       own := Repoint(h.own, b, a))
  }

  lemma MergedInv(h: Heap, i: int)
    requires Inv(h) && 1 <= i && i + 1 < |h.ring| && h.ring[i] in h.size && h.ring[i + 1] in h.size &&
      h.ring[i + 1] in h.ptr
    requires h.ring[i] + h.size[h.ring[i]] == h.ring[i + 1]
    ensures Inv(Merged(h, i)) && Merged(h, i).own.Keys == h.own.Keys
  {
    var h' := Merged(h, i);
    var a, b := h.ring[i], h.ring[i + 1];
    RingBlock(h, i);
    RingBlock(h, i + 1);
    RemoveRing(h.base, h.ring, h.ptr, i + 1);
    forall x | IsBlock(h', x)
      ensures BlockOk(h', x)
    {
      assert IsBlock(h, x) && BlockOk(h, x) && x != b;
    }
    forall u | u in h'.own
      ensures UnitOk(h', u)
    {
      assert UnitOk(h, u);
    }
  }

  /** malloc takes ring element `i` whole. */
  function Unlinked(h: Heap, i: int): Heap
    requires 1 <= i < |h.ring| && h.ring[i] in h.ptr
  {
    h.(ring := RemoveAt(h.ring, i), ptr := h.ptr[h.ring[i - 1] := h.ptr[h.ring[i]]], used := h.used + {h.ring[i]})
  }

  lemma UnlinkedInv(h: Heap, i: int)
    requires Inv(h) && Gaps(h) && 1 <= i < |h.ring| && h.ring[i] in h.ptr
    ensures Inv(Unlinked(h, i)) && Gaps(Unlinked(h, i))
  {
    var h' := Unlinked(h, i);
    var b := h.ring[i];
    RingBlock(h, i);
    RemoveRing(h.base, h.ring, h.ptr, i);
    forall x | IsBlock(h', x)
      ensures BlockOk(h', x)
    {
      assert IsBlock(h, x) && BlockOk(h, x);
    }
    forall u | u in h'.own
      ensures UnitOk(h', u)
    {
      assert UnitOk(h, u);
    }
    forall k | 0 <= k < |h'.ring|
      ensures GapAt(h', k)
    {
      assert GapAt(h, if k < i then k else k + 1);
      if k == i - 1 && k > 0 {
        RingBlock(h, k);
        assert Less(h.ring, k, i) && (i + 1 < |h.ring| ==> Less(h.ring, i, i + 1));
        BlocksApart(h, h.ring[k], b);
      }
    }
  }

  /** malloc takes the last `n` units of ring element `i`. */
  function Split(h: Heap, i: int, n: int): Heap
    requires 0 <= i < |h.ring| && h.ring[i] in h.size
  {
    var a := h.ring[i];
    var b := a + h.size[a] - n;
    h.(size := h.size[a := h.size[a] - n][b := n], used := h.used + {b},
       own := map u | u in h.own :: if b <= u < b + n then b else h.own[u])
  }

  /** The tail of a free block is not a block yet. */
  lemma TailIsNoBlock(h: Heap, i: int, n: int)
    requires Inv(h) && 1 <= i < |h.ring| && h.ring[i] in h.size && 0 < n < h.size[h.ring[i]]
    ensures var b := h.ring[i] + h.size[h.ring[i]] - n; !IsBlock(h, b) && b in h.own && b != h.base
    ensures IsBlock(h, h.ring[i]) && BlockOk(h, h.ring[i])
  {
    var a := h.ring[i];
    var b := a + h.size[a] - n;
    RingBlock(h, i);
    assert h.own[b] == a;
    assert IsBlock(h, b) ==> BlockOk(h, b);
  }

  lemma SplitBlock(h: Heap, i: int, n: int, x: int)
    requires Inv(h) && 1 <= i < |h.ring| && h.ring[i] in h.size && 0 < n < h.size[h.ring[i]]
    requires IsBlock(Split(h, i, n), x)
    ensures BlockOk(Split(h, i, n), x)
  {
    var a := h.ring[i];
    var b := a + h.size[a] - n;
    TailIsNoBlock(h, i, n);
    if x != b {
      assert IsBlock(h, x) && BlockOk(h, x);
    } else {
      assert forall u :: b <= u < b + n ==> u in h.own;
    }
  }

  lemma SplitInv(h: Heap, i: int, n: int)
    requires Inv(h) && Gaps(h) && 1 <= i < |h.ring| && h.ring[i] in h.size && 0 < n < h.size[h.ring[i]]
    ensures Inv(Split(h, i, n)) && Gaps(Split(h, i, n)) && Split(h, i, n).own.Keys == h.own.Keys
    ensures h.ring[i] + h.size[h.ring[i]] - n !in h.used
  {
    var h' := Split(h, i, n);
    TailIsNoBlock(h, i, n);
    forall k | 0 <= k < |h'.ring|
      ensures LinkOk(h'.ring, h'.ptr, k) && GapAt(h', k)
    {
      assert LinkOk(h.ring, h.ptr, k) && GapAt(h, k);
    }
    forall x | IsBlock(h', x)
      ensures BlockOk(h', x)
    {
      SplitBlock(h, i, n, x);
    }
    forall u | u in h'.own
      ensures UnitOk(h', u)
    {
      assert UnitOk(h, u);
    }
  }

  /** sbrk's new region as an allocated block. */
  function Grown(h: Heap, b: int, n: int): Heap {
    h.(size := h.size[b := n], used := h.used + {b}, own := map u | u in h.own.Keys + UnitSet(b, n) ::
        if u in h.own then h.own[u] else b)
  }

  predicate InUnits(b: int, n: int, u: int) {
    b <= u < b + n
  }

  function UnitSet(b: int, n: int): set<int> {
    set u | b <= u < b + n && InUnits(b, n, u)
  }

  /** A region of memory that the program did not have before. */
  ghost predicate IsFresh(h: Heap, b: int, n: int) {
    h.base < b && forall u {:trigger u in h.own} :: b <= u < b + n ==> u !in h.own
  }

  lemma GrownInv(h: Heap, b: int, n: int)
    requires Inv(h) && Gaps(h) && IsFresh(h, b, n) && 1 <= n
    ensures Inv(Grown(h, b, n)) && Gaps(Grown(h, b, n)) && b !in h.used && b !in h.ring
  {
    var h' := Grown(h, b, n);
    assert b !in h.own;
    assert !IsBlock(h, b) by {
      assert IsBlock(h, b) ==> BlockOk(h, b);
    }
    forall k | 0 <= k < |h'.ring|
      ensures LinkOk(h'.ring, h'.ptr, k)
    {
      assert LinkOk(h.ring, h.ptr, k);
    }
    forall x | IsBlock(h', x)
      ensures BlockOk(h', x)
    {
      if x != b {
        assert IsBlock(h, x) && BlockOk(h, x);
      }
    }
    forall u | u in h'.own
      ensures UnitOk(h', u)
    {
      if u in h.own {
        assert UnitOk(h, u);
      }
    }
    forall k | 0 <= k < |h'.ring|
      ensures GapAt(h', k)
    {
      assert GapAt(h, k);
    }
  }

  ghost predicate GapsBut(h: Heap, i: int, j: int) {
    forall k {:trigger GapAt(h, k)} :: 0 <= k < |h.ring| && k != i && k != j ==> GapAt(h, k)
  }

  lemma InsertedGaps(h: Heap, t: int, b: int)
    requires Inv(h) && Gaps(h) && b in h.used && IsSlot(h.ring, b, t) && h.ring[t] in h.ptr
    ensures GapsBut(Inserted(h, t, b), t, t + 1)
  {
    var h' := Inserted(h, t, b);
    forall k | 0 <= k < |h'.ring| && k != t && k != t + 1
      ensures GapAt(h', k)
    {
      assert GapAt(h, if k < t then k else k - 1);
    }
  }

  /** Ring element `i` ends where the next one starts. */
  predicate Touches(h: Heap, i: int) {
    1 <= i && i + 1 < |h.ring| && h.ring[i] in h.size && h.ring[i] + h.size[h.ring[i]] == h.ring[i + 1]
  }

  lemma GapUnlessTouching(h: Heap, i: int)
    requires Inv(h) && 0 <= i < |h.ring|
    ensures GapAt(h, i) || Touches(h, i)
  {
    if 1 <= i && i + 1 < |h.ring| {
      RingBlock(h, i);
      RingBlock(h, i + 1);
      assert Less(h.ring, i, i + 1);
      BlocksApart(h, h.ring[i], h.ring[i + 1]);
    }
  }

  /** Merge ring element `i` with the next one if they touch. */
  function Joined(h: Heap, i: int): Heap {
    if Touches(h, i) && h.ring[i + 1] in h.size && h.ring[i + 1] in h.ptr then Merged(h, i) else h
  }

  lemma JoinedInv(h: Heap, i: int)
    requires Inv(h) && 0 <= i < |h.ring| && Touches(h, i)
    ensures h.ring[i + 1] in h.size && h.ring[i + 1] in h.ptr && Inv(Merged(h, i)) && Joined(h, i) == Merged(h, i)
    ensures Merged(h, i).own.Keys == h.own.Keys
  {
    RingBlock(h, i + 1);
    MergedInv(h, i);
  }

  /** Joining at `i` closes the gap question there and leaves it open at `j` only. */
  lemma JoinedGaps(h: Heap, i: int, j: int)
    requires Inv(h) && 0 <= i < |h.ring| && GapsBut(h, i, j) && (j < i || j == i)
    ensures Inv(Joined(h, i)) && Joined(h, i).own.Keys == h.own.Keys
    ensures if j == i then Gaps(Joined(h, i)) else GapsBut(Joined(h, i), j, j)
  {
    GapUnlessTouching(h, i);
    if Touches(h, i) {
      JoinedInv(h, i);
      var h' := Merged(h, i);
      RingBlock(h, i);
      RingBlock(h, i + 1);
      forall k | 0 <= k < |h'.ring| && (k != j || k == i)
        ensures GapAt(h', k)
      {
        assert GapAt(h, if k < i then k else k + 1);
        assert k != i ==> if k < i then Less(h.ring, k, i) else Less(h.ring, i, k + 1);
      }
    }
  }

  /** free: link the block in, merge it with the block above, then with the block below. */
  function Freed(h: Heap, t: int, b: int): Heap
    requires 0 <= t < |h.ring| && h.ring[t] in h.ptr
  {
    Joined(Joined(Inserted(h, t, b), t + 1), t)
  }

  lemma FreedInv(h: Heap, t: int, b: int)
    requires Inv(h) && Gaps(h) && b in h.used && IsSlot(h.ring, b, t) && h.ring[t] in h.ptr
    ensures var h' := Freed(h, t, b); Inv(h') && Gaps(h') && h'.used == h.used - {b} && h'.own.Keys == h.own.Keys
  {
    var h1 := Inserted(h, t, b);
    InsertedInv(h, t, b);
    InsertedGaps(h, t, b);
    JoinedGaps(h1, t + 1, t);
    JoinedGaps(Joined(h1, t + 1), t, t);
  }
}

/** user/umalloc.c itself. */
module UmallocCode {
  import opened FreeRing

  /** The units that a request for `nbytes` bytes takes, with its header: headers are 16 bytes. */
  function Units(nbytes: int): int {
    (nbytes + 15) / 16 + 1
  }

  /** The units that morecore asks sbrk for. */
  function CoreUnits(nu: int): int {
    if nu < 4096 then 4096 else nu
  }

  /** A 64-bit value passed as a C `int`. */
  function AsInt32(x: int): int {
    var y := x % 0x1_0000_0000;
    if y < 0x8000_0000 then y else y - 0x1_0000_0000
  }

  /** The largest request whose size morecore can pass to sbrk. */
  const MAXREQUEST: int := 0x7fff_ffe0

  /**
   sbrk is asked for the bytes that morecore means exactly up to that request.
   Beyond it the argument is negative, and for the last 31 sizes it is 0 or 16:
   then sbrk succeeds without giving the bytes.
   */
  lemma SbrkArgument(nbytes: int)
    requires 0 <= nbytes < 0x1_0000_0000
    ensures AsInt32(16 * CoreUnits(Units(nbytes))) == 16 * CoreUnits(Units(nbytes)) <==> nbytes <= MAXREQUEST
    ensures MAXREQUEST < nbytes <= 0xffff_ffe0 ==> AsInt32(16 * CoreUnits(Units(nbytes))) < 0
    ensures 0xffff_ffe1 <= nbytes <= 0xffff_fff0 ==> AsInt32(16 * CoreUnits(Units(nbytes))) == 0
    ensures 0xffff_fff1 <= nbytes ==> AsInt32(16 * CoreUnits(Units(nbytes))) == 16
  {
    var q := (nbytes + 15) / 16;
    assert nbytes <= MAXREQUEST <==> q <= 0x7ff_fffe;
    assert nbytes <= 0xffff_ffe0 <==> q <= 0xfff_fffe;
    assert nbytes <= 0xffff_fff0 <==> q <= 0xfff_ffff;
    assert q <= 0x1000_0000;
  }

  /** The units after the header hold the bytes, with fewer than 16 to spare. */
  lemma UnitsHold(nbytes: int)
    requires 0 <= nbytes
    ensures nbytes <= 16 * (Units(nbytes) - 1) < nbytes + 16
  {
    var q := (nbytes + 15) / 16;
    assert Units(nbytes) == q + 1 && 16 * q <= nbytes + 15 < 16 * q + 16;
  }

  /** Header sizes fit a `uint` while the program break is below 2^32 headers. */
  lemma SizesFit(h: Heap, b: int)
    requires Inv(h) && 0 < h.base && IsBlock(h, b)
    requires forall u {:trigger u in h.own} :: u in h.own ==> u < 0x1_0000_0000
    ensures b in h.size && 0 < h.size[b] < 0x1_0000_0000
  {
    assert BlockOk(h, b);
    assert b + h.size[b] - 1 in h.own;
  }

  /** Ring indices from `i` on up to `t`, going around. */
  function Distance(n: int, i: int, t: int): int {
    if i <= t then t - i else t - i + n
  }

  /** A block that is not in the ring has one place in it. */
  lemma {:induction false} FindPlace(ring: seq<int>, b: int) returns (t: int)
    requires |ring| > 0 && Sorted(ring) && ring[0] < b && b !in ring
    ensures IsSlot(ring, b, t)
  {
    t := 0;
    while t + 1 < |ring| && ring[t + 1] < b
      invariant 0 <= t < |ring| && ring[t] < b
    {
      t := t + 1;
    }
    assert t + 1 < |ring| ==> ring[t + 1] in ring;
  }

  lemma SlotIsUnique(ring: seq<int>, b: int, i: int, t: int)
    requires Sorted(ring) && IsSlot(ring, b, i) && IsSlot(ring, b, t)
    ensures i == t
  {
    assert i + 1 < t ==> Less(ring, i + 1, t);
    assert t + 1 < i ==> Less(ring, t + 1, i);
  }

  /** free's search stops at ring element `i` exactly when that is the place for the block. */
  lemma StopsAtSlot(base: int, ring: seq<int>, ptr: map<int, int>, b: int, i: int)
    requires RingOk(base, ring, ptr) && base < b && b !in ring && 0 <= i < |ring| && LinkOk(ring, ptr, i)
    ensures var p, next := ring[i], ptr[ring[i]];
            IsSlot(ring, b, i) <==> (b > p && b < next) || (p >= next && (b > p || b < next))
  {
    assert i + 1 < |ring| ==> Less(ring, i, i + 1);
    assert i > 0 ==> Less(ring, 0, i);
  }

  /** The walk of malloc, from the block after freep around to freep. */
  function Rotated(ring: seq<int>, f: int): seq<int>
    requires 0 <= f < |ring|
  {
    ring[f + 1..] + ring[..f + 1]
  }

  lemma RotatedLinks(base: int, ring: seq<int>, ptr: map<int, int>, f: int)
    requires RingOk(base, ring, ptr) && 0 <= f < |ring|
    ensures var rot := Rotated(ring, f);
            && |rot| == |ring| && rot[|rot| - 1] == ring[f]
            && (forall s :: 0 <= s < |rot| - 1 ==> rot[s] in ptr && ptr[rot[s]] == rot[s + 1] && rot[s] != ring[f])
            && ring[f] in ptr && ptr[ring[f]] == rot[0]
            && (forall x :: x in rot <==> x in ring)
  {
    var rot := Rotated(ring, f);
    var n := |ring|;
    assert ring == ring[..f + 1] + ring[f + 1..];
    assert LinkOk(ring, ptr, f);
    forall s | 0 <= s < n - 1
      ensures rot[s] in ptr && ptr[rot[s]] == rot[s + 1] && rot[s] != ring[f]
    {
      var i := if f + 1 + s < n then f + 1 + s else f + 1 + s - n;
      assert rot[s] == ring[i] && LinkOk(ring, ptr, i) && rot[s + 1] == ring[Succ(n, i)];
      assert if i < f then Less(ring, i, f) else Less(ring, f, i);
    }
  }

  /** No word of an allocated block is written, but for those of block `b`. */
  ghost predicate Untouched(h: Heap, ptr: map<int, int>, size: map<int, int>, b: int) {
    forall u {:trigger ptr[u]} {:trigger size[u]} {:trigger u in h.own} ::
        u in h.own && h.own[u] in h.used && h.own[u] != b ==>
      && (u in h.ptr <==> u in ptr) && (u in h.ptr ==> ptr[u] == h.ptr[u])
      && (u in h.size <==> u in size) && (u in h.size ==> size[u] == h.size[u])
  }

  /** Ring elements and headers of other blocks are not part of an allocated block. */
  lemma HeadersApart(h: Heap, u: int, x: int)
    requires Inv(h) && u in h.own && h.own[u] in h.used && (x in h.ring || (x in h.used && x != h.own[u]))
    ensures u != x
  {
    assert IsBlock(h, x) ==> BlockOk(h, x);
    if x in h.own {
      assert UnitOk(h, x);
    }
  }

  /** The headers of the blocks that stay allocated. */
  ghost predicate SizesKept(size: map<int, int>, size': map<int, int>, used: set<int>) {
    forall b {:trigger size'[b]} {:trigger b in used} :: b in used ==> b in size && b in size' && size'[b] == size[b]
  }

  /** The block at freep or the one after it has room for `n` units. */
  ghost predicate FitsNext(ring: seq<int>, freep: int, size: map<int, int>, n: int) {
    exists f {:trigger ring[f]} :: 0 <= f < |ring| && ring[f] == freep && freep in size &&
      (size[freep] >= n || (f + 1 < |ring| && ring[f + 1] in size && size[ring[f + 1]] >= n))
  }

  /** What the code of free reads. */
  predicate CanFree(h: Heap, p: int, b: int) {
    p in h.ptr && p in h.size && b in h.size && h.ptr[p] in h.size && h.ptr[p] in h.ptr
  }

  /** The header words after the first `if` of free, and after the second. */
  function UpperPtr(h: Heap, p: int, b: int): map<int, int>
    requires CanFree(h, p, b)
  {
    var next := h.ptr[p];
    h.ptr[b := if b + h.size[b] == next then h.ptr[next] else next]
  }

  function UpperSize(h: Heap, p: int, b: int): map<int, int>
    requires CanFree(h, p, b)
  {
    var next := h.ptr[p];
    if b + h.size[b] == next then h.size[b := h.size[b] + h.size[next]] else h.size
  }

  function LowerPtr(h: Heap, p: int, b: int): map<int, int>
    requires CanFree(h, p, b)
  {
    var ptr := UpperPtr(h, p, b);
    ptr[p := if p + h.size[p] == b then ptr[b] else b]
  }

  function LowerSize(h: Heap, p: int, b: int): map<int, int>
    requires CanFree(h, p, b)
  {
    var size := UpperSize(h, p, b);
    if p + h.size[p] == b then size[p := size[p] + size[b]] else size
  }

  /** The neighbours of a block in its place. */
  lemma Neighbours(h: Heap, t: int, b: int)
    requires Inv(h) && b in h.used && IsSlot(h.ring, b, t)
    ensures CanFree(h, h.ring[t], b) && h.base < b && b != h.ring[t] && 1 <= h.size[b]
    ensures var p := h.ring[t];
      if t + 1 < |h.ring| then h.ptr[p] == h.ring[t + 1] && p < h.ptr[p] else h.ptr[p] == h.base
  {
    assert IsBlock(h, b) && BlockOk(h, b);
    assert LinkOk(h.ring, h.ptr, t);
    var k := Succ(|h.ring|, t);
    assert LinkOk(h.ring, h.ptr, k);
    if t != 0 {
      RingBlock(h, t);
    }
    if k != 0 {
      RingBlock(h, k);
    }
  }

  lemma UpperIs(h: Heap, t: int, b: int)
    requires Inv(h) && b in h.used && IsSlot(h.ring, b, t) && CanFree(h, h.ring[t], b)
    ensures var p, h2 := h.ring[t], Joined(Inserted(h, t, b), t + 1);
            && h2.ptr == UpperPtr(h, p, b)[p := b] && h2.size == UpperSize(h, p, b)
            && |h2.ring| > t + 1 && h2.ring[t] == p && h2.ring[t + 1] == b
  {
    Neighbours(h, t, b);
    var h1 := Inserted(h, t, b);
    InsertedInv(h, t, b);
    assert h1.ring[t] == h.ring[t] && h1.ring[t + 1] == b;
    assert t + 1 < |h.ring| ==> h1.ring[t + 2] == h.ring[t + 1];
    if Touches(h1, t + 1) {
      JoinedInv(h1, t + 1);
    }
  }

  /** The code of free does what linking in and merging do. */
  lemma LowerIs(h: Heap, t: int, b: int)
    requires Inv(h) && Gaps(h) && b in h.used && IsSlot(h.ring, b, t) && CanFree(h, h.ring[t], b)
    ensures var p, h3 := h.ring[t], Freed(h, t, b);
            && h3.ptr == LowerPtr(h, p, b) && h3.size == LowerSize(h, p, b)
            && |h3.ring| > t && h3.ring[t] == p
            && (p + h.size[p] == b || (|h3.ring| > t + 1 && h3.ring[t + 1] == b))
  {
    Neighbours(h, t, b);
    UpperIs(h, t, b);
    InsertedInv(h, t, b);
    InsertedGaps(h, t, b);
    var h1 := Inserted(h, t, b);
    JoinedGaps(h1, t + 1, t);
    var h2 := Joined(h1, t + 1);
    if Touches(h2, t) {
      JoinedInv(h2, t);
    }
  }

  /** free writes no word of another allocated block. */
  lemma FreeKeeps(h: Heap, t: int, b: int)
    requires Inv(h) && b in h.used && IsSlot(h.ring, b, t) && CanFree(h, h.ring[t], b)
    ensures Untouched(h, LowerPtr(h, h.ring[t], b), LowerSize(h, h.ring[t], b), b)
    ensures SizesKept(h.size, LowerSize(h, h.ring[t], b), h.used - {b})
  {
    var p := h.ring[t];
    forall x | x in h.used - {b}
      ensures x in h.size && x != p
    {
      assert IsBlock(h, x) && BlockOk(h, x);
    }
    forall u | u in h.own && h.own[u] in h.used && h.own[u] != b
      ensures u != p && u != b
    {
      HeadersApart(h, u, p);
      HeadersApart(h, u, b);
    }
  }

  /** The freed units are in the block at freep, or in the one after it. */
  lemma FreeFits(h: Heap, t: int, b: int, ring': seq<int>)
    requires Inv(h) && b in h.used && IsSlot(h.ring, b, t) && CanFree(h, h.ring[t], b)
    requires var p := h.ring[t];
      |ring'| > t && ring'[t] == p && (p + h.size[p] == b || (|ring'| > t + 1 && ring'[t + 1] == b))
    ensures FitsNext(ring', h.ring[t], LowerSize(h, h.ring[t], b), SizeOf(h.size, b))
  {
    var p := h.ring[t];
    Neighbours(h, t, b);
    if t > 0 {
      RingBlock(h, t);
    }
    if t + 1 < |h.ring| {
      RingBlock(h, t + 1);
    }
    assert ring'[t] == p;
  }

  /** free's whole effect. */
  lemma FreeFacts(h: Heap, t: int, b: int, p: int) returns (h': Heap)
    requires Inv(h) && Gaps(h) && b in h.used && IsSlot(h.ring, b, t) && p == h.ring[t]
    ensures CanFree(h, p, b)
    ensures Inv(h') && Gaps(h') && h'.used == h.used - {b} && h'.own.Keys == h.own.Keys && h'.base == h.base
    ensures p in h'.ring && FitsNext(h'.ring, p, h'.size, SizeOf(h.size, b))
    ensures h'.ptr == LowerPtr(h, p, b) && h'.size == LowerSize(h, p, b)
  {
    Neighbours(h, t, b);
    LowerIs(h, t, b);
    FreedInv(h, t, b);
    h' := Freed(h, t, b);
    FreeFits(h, t, b, h'.ring);
  }

  function SizeOf(size: map<int, int>, b: int): int {
    if b in size then size[b] else 0
  }

  lemma BlocksHaveSizes(h: Heap)
    requires Inv(h)
    ensures SizesKept(h.size, h.size, h.used)
  {
    forall b | b in h.used
      ensures b in h.size
    {
      assert IsBlock(h, b) && BlockOk(h, b);
    }
  }

  lemma RingPositive(h: Heap, p: int)
    requires Inv(h) && p in h.ring && 0 < h.base
    ensures 0 < p
  {
    var i :| 0 <= i < |h.ring| && h.ring[i] == p;
    if i > 0 {
      RingBlock(h, i);
    }
  }

  lemma GrownKeeps(h: Heap, b: int, n: int, ptr: map<int, int>, size: map<int, int>)
    requires Inv(h) && Gaps(h) && IsFresh(h, b, n) && 1 <= n
    requires var h1 := Grown(h, b, n); Untouched(h1, ptr, size, b) && SizesKept(h1.size, size, h1.used - {b})
    ensures Untouched(h, ptr, size, 0) && SizesKept(h.size, size, h.used)
  {
    GrownInv(h, b, n);
    BlocksHaveSizes(h);
    var h1 := Grown(h, b, n);
    assert b !in h.own;
    forall u | u in h.own && h.own[u] in h.used
      ensures u in h1.own && h1.own[u] == h.own[u] && h1.own[u] in h1.used && u != b
    {
    }
  }

  /** What malloc reads in a block of the ring, and what taking units from it gives. */
  lemma TakeFacts(h: Heap, i: int, n: int)
    requires Inv(h) && Gaps(h) && 1 <= i < |h.ring| && 1 <= n <= SizeOf(h.size, h.ring[i])
    ensures var p := h.ring[i]; p in h.ptr && p in h.size && p !in h.used
    ensures var p := h.ring[i]; var h' := Unlinked(h, i);
            h.size[p] == n ==>
                Inv(h') && Gaps(h') && h.ring[i - 1] in h'.ring && Untouched(h, h'.ptr, h'.size, 0) &&
                SizesKept(h.size, h'.size, h.used)
    ensures var p := h.ring[i]; var h' := Split(h, i, n);
            h.size[p] > n ==> && Inv(h') && Gaps(h') && p + h.size[p] - n !in h.used && h'.own.Keys == h.own.Keys
                              && Untouched(h, h'.ptr, h'.size, 0) && SizesKept(h.size, h'.size, h.used)
  {
    var p := h.ring[i];
    RingBlock(h, i);
    BlocksHaveSizes(h);
    assert p !in h.used;
    forall u | u in h.own && h.own[u] in h.used
      ensures u != p && u != h.ring[i - 1] && !(p <= u < p + h.size[p])
    {
      HeadersApart(h, u, p);
      HeadersApart(h, u, h.ring[i - 1]);
    }
    if h.size[p] == n {
      UnlinkedInv(h, i);
      assert RemoveAt(h.ring, i)[i - 1] == h.ring[i - 1];
    } else {
      SplitInv(h, i, n);
      var b := p + h.size[p] - n;
      assert b in h.own && h.own[b] == p;
    }
  }

  lemma StartInv(h: Heap)
    requires h.ring == [h.base] && h.base in h.ptr && h.ptr[h.base] == h.base && h.base in h.size && h.size[h.base] == 0
    requires h.used == {} && h.own == map[]
    ensures Inv(h) && Gaps(h)
  {
  }

  /** Two steps that write no word of an allocated block. */
  lemma UntouchedTwice(h: Heap, h1: Heap, ptr: map<int, int>, size: map<int, int>)
    requires Inv(h) && Inv(h1) && h1.used == h.used && 0 !in h.used
    requires Untouched(h, h1.ptr, h1.size, 0) && SizesKept(h.size, h1.size, h.used)
    requires Untouched(h1, ptr, size, 0) && SizesKept(h1.size, size, h.used)
    ensures Untouched(h, ptr, size, 0) && SizesKept(h.size, size, h.used)
  {
    forall u | u in h.own && h.own[u] in h.used
      ensures u in h1.own && h1.own[u] == h.own[u]
    {
      assert UnitOk(h, u);
      assert IsBlock(h1, h.own[u]) && BlockOk(h1, h.own[u]);
    }
  }

  /** No free block has `n` units. */
  ghost predicate NoRoom(ring: seq<int>, size: map<int, int>, n: int) {
    forall b :: b in ring ==> SizeOf(size, b) < n
  }

  /** The first `s` blocks of the walk are too small. */
  ghost predicate AllSmall(rot: seq<int>, s: int, size: map<int, int>, n: int) {
    0 <= s <= |rot| && forall k :: 0 <= k < s ==> SizeOf(size, rot[k]) < n
  }

  /** There is room in the rest of the walk. */
  ghost predicate RoomAhead(rot: seq<int>, s: int, size: map<int, int>, n: int) {
    exists k {:trigger rot[k]} :: 0 <= s <= k < |rot| && SizeOf(size, rot[k]) >= n
  }

  /** The ring index of step `s` of the walk. */
  function RotIndex(n: int, f: int, s: int): int {
    if f + 1 + s < n then f + 1 + s else f + 1 + s - n
  }

  ghost predicate OnWalk(ring: seq<int>, f: int, s: int, freep: int, prevp: int, p: int) {
    && 0 <= f < |ring| && ring[f] == freep && 0 <= s < |ring|
    && p == Rotated(ring, f)[s] && prevp == if s == 0 then freep else Rotated(ring, f)[s - 1]
  }

  /**
   The block `b` of `n` units is the end of the first block that is large enough, counting from the one after
   `freep`, and `freep'` is the block before that one.
   */
  ghost predicate NextFit(ring: seq<int>, size: map<int, int>, freep: int, n: int, b: int, freep': int) {
    exists f, s :: FitsAt(ring, size, f, s, freep, n, b, freep')
  }

  ghost predicate FitsAt(ring: seq<int>, size: map<int, int>, f: int, s: int, freep: int, n: int, b: int, freep': int) {
    && 0 <= f < |ring| && ring[f] == freep && 0 <= s < |ring| && AllSmall(Rotated(ring, f), s, size, n)
    && (var p := Rotated(ring, f)[s]; SizeOf(size, p) >= n && b == p + SizeOf(size, p) - n)
    && freep' == if s == 0 then freep else Rotated(ring, f)[s - 1]
  }

  lemma WalkFacts(h: Heap, f: int, s: int, freep: int, prevp: int, p: int)
    requires Inv(h) && OnWalk(h.ring, f, s, freep, prevp, p)
    ensures p in h.ptr && p in h.size
    ensures p == freep <==> s == |h.ring| - 1
    ensures var i := RotIndex(|h.ring|, f, s);
            && 0 <= i < |h.ring| && h.ring[i] == p
            && (h.size[p] >= 1 ==> 1 <= i && h.ring[i - 1] == prevp)
  {
    RotatedLinks(h.base, h.ring, h.ptr, f);
    var i := RotIndex(|h.ring|, f, s);
    assert LinkOk(h.ring, h.ptr, i);
    if i > 0 {
      RingBlock(h, i);
    }
  }

  lemma AllSmallMeans(ring: seq<int>, f: int, s: int, size: map<int, int>, n: int)
    requires 0 <= f < |ring| && s == |ring| - 1 && AllSmall(Rotated(ring, f), s, size, n) &&
      SizeOf(size, Rotated(ring, f)[s]) < n
    ensures NoRoom(ring, size, n)
  {
    var rot := Rotated(ring, f);
    forall b | b in ring
      ensures SizeOf(size, b) < n
    {
      var i :| 0 <= i < |ring| && ring[i] == b;
      assert rot[if i > f then i - f - 1 else |ring| - f - 1 + i] == b;
    }
  }

  lemma BlockPositive(h: Heap, b: int)
    requires Inv(h) && b in h.used && 0 < h.base
    ensures 0 < b
  {
    assert IsBlock(h, b) && BlockOk(h, b);
  }

  /** After morecore there is room on the walk from freep. */
  lemma FindRoom(h: Heap, freep: int, n: int) returns (f: int)
    requires Inv(h) && FitsNext(h.ring, freep, h.size, n)
    ensures 0 <= f < |h.ring| && h.ring[f] == freep && RoomAhead(Rotated(h.ring, f), 0, h.size, n)
  {
    f :| 0 <= f < |h.ring| && h.ring[f] == freep && freep in h.size &&
      (h.size[freep] >= n || (f + 1 < |h.ring| && h.ring[f + 1] in h.size && h.size[h.ring[f + 1]] >= n));
    var rot := Rotated(h.ring, f);
    assert rot[|rot| - 1] == freep;
    assert f + 1 < |h.ring| ==> rot[0] == h.ring[f + 1];
  }

  class Allocator {
    const base: int
    var freep: int
    var ptr: map<int, int>
    var size: map<int, int>
    ghost var ring: seq<int>
    ghost var used: set<int>
    ghost var own: map<int, int>

    ghost function State(): Heap
      reads this`ptr, this`size, this`ring, this`used, this`own
    {
      Heap(base, ring, ptr, size, used, own)
    }

    ghost predicate Ready()
      reads this`freep, this`ptr, this`size, this`ring, this`used, this`own
    {
      freep in ring && 0 < base && Inv(State()) && Gaps(State())
    }

    /** The search loop of free: the ring element after which `bp` belongs. */
    method FindSlot(bp: int) returns (p: int, ghost t: int)
      requires Ready() && bp in used
      ensures IsSlot(ring, bp, t) && p == ring[t]
    {
      assert IsBlock(State(), bp) && BlockOk(State(), bp);
      t := FindPlace(ring, bp);
      p := freep;
      ghost var i :| 0 <= i < |ring| && ring[i] == p;
      assert LinkOk(ring, ptr, i);
      StopsAtSlot(base, ring, ptr, bp, i);
      while !(bp > p && bp < ptr[p])
        invariant 0 <= i < |ring| && ring[i] == p && LinkOk(ring, ptr, i)
        invariant IsSlot(ring, bp, i) <==> (bp > p && bp < ptr[p]) || (p >= ptr[p] && (bp > p || bp < ptr[p]))
        decreases Distance(|ring|, i, t)
      {
        if p >= ptr[p] && (bp > p || bp < ptr[p]) {
          break;
        }
        assert i != t;
        p := ptr[p];
        i := Succ(|ring|, i);
        assert LinkOk(ring, ptr, i);
        StopsAtSlot(base, ring, ptr, bp, i);
      }
      SlotIsUnique(ring, bp, i, t);
    }

    /** free(ap): the block goes back to the ring, merged with the free blocks that touch it. */
    method Free(ap: int)
      requires Ready() && ap - 1 in used
      modifies this`freep, this`ptr, this`size, this`ring, this`used, this`own
      ensures Ready() && used == old(used) - {ap - 1} && own.Keys == old(own).Keys
      ensures Untouched(old(State()), ptr, size, ap - 1) && SizesKept(old(size), size, used)
      ensures FitsNext(ring, freep, size, SizeOf(old(size), ap - 1))
      ensures exists t :: IsSlot(old(ring), ap - 1, t) && freep == old(ring)[t]
    {
      var bp := ap - 1;
      ghost var t;
      var p;
      p, t := FindSlot(bp);
      ghost var h := State();
      ghost var h' := FreeFacts(h, t, bp, p);
      FreeKeeps(h, t, bp);
      var next := ptr[p];
      if bp + size[bp] == next {
        size := size[bp := size[bp] + size[next]];
        ptr := ptr[bp := ptr[next]];
      } else {
        ptr := ptr[bp := next];
      }
      if p + size[p] == bp {
        size := size[p := size[p] + size[bp]];
        ptr := ptr[p := ptr[bp]];
      } else {
        ptr := ptr[p := bp];
      }
      freep := p;
      ring, used, own := h'.ring, h'.used, h'.own;
      assert State() == h';
    }

    /** The region from sbrk gets a header, as if it were an allocated block. */
    method SetHeader(brk: int, n: int)
      requires Ready() && 1 <= n && IsFresh(State(), brk, n)
      modifies this`size, this`used, this`own
      ensures Ready() && State() == Grown(old(State()), brk, n) && used - {brk} == old(used)
      ensures own.Keys == old(own).Keys + UnitSet(brk, n)
    {
      GrownInv(State(), brk, n);
      ghost var h := Grown(State(), brk, n);
      size := size[brk := n];
      used, own := h.used, h.own;
      assert State() == h;
    }

    /** morecore(nu), where sbrk answers `brk`, or -1 if it fails. */
    method Morecore(nu: int, brk: int) returns (p: int)
      requires Ready() && 1 <= nu && (brk == -1 || IsFresh(State(), brk, CoreUnits(nu)))
      modifies this`freep, this`ptr, this`size, this`ring, this`used, this`own
      ensures Ready() && used == old(used)
      ensures p == 0 <==> brk == -1
      ensures p == 0 ==> State() == old(State()) && freep == old(freep)
      ensures p != 0 ==>
        p == freep && own.Keys == old(own).Keys + UnitSet(brk, CoreUnits(nu)) && FitsNext(ring, freep, size, nu)
      ensures Untouched(old(State()), ptr, size, 0) && SizesKept(old(size), size, used)
    {
      var n := CoreUnits(nu);
      ghost var h := State();
      if brk == -1 {
        BlocksHaveSizes(h);
        return 0;
      }
      SetHeader(brk, n);
      Free(brk + 1);
      RingPositive(State(), freep);
      GrownKeeps(h, brk, n, ptr, size);
      return freep;
    }

    /** malloc's two ways to take `n` units from the block `p` that follows `prevp` in the ring. */
    method Take(prevp: int, p: int, n: int, ghost i: int) returns (b: int)
      requires Ready() && 1 <= i < |ring| && ring[i - 1] == prevp && ring[i] == p && 1 <= n <= SizeOf(size, p)
      modifies this`freep, this`ptr, this`size, this`ring, this`used, this`own
      ensures Ready() && b !in old(used) && used == old(used) + {b} && own.Keys == old(own).Keys && SizeOf(size, b) == n
      ensures Untouched(old(State()), ptr, size, 0) && SizesKept(old(size), size, old(used))
      ensures freep == prevp && b == p + SizeOf(old(size), p) - n
    {
      ghost var h := State();
      TakeFacts(h, i, n);
      if size[p] == n {
        ptr := ptr[prevp := ptr[p]];
        b := p;
        ghost var h' := Unlinked(h, i);
        ring, used := h'.ring, h'.used;
        assert State() == h';
      } else {
        size := size[p := size[p] - n];
        b := p + size[p];
        size := size[b := n];
        ghost var h' := Split(h, i, n);
        used, own := h'.used, h'.own;
        assert State() == h';
      }
      freep := prevp;
    }

    /** Taking the units, seen from the state `h` in which malloc was called. */
    method TakeFor(prevp: int, p: int, n: int, ghost i: int, ghost h: Heap) returns (b: int)
      requires Ready() && 1 <= i < |ring| && ring[i - 1] == prevp && ring[i] == p && 1 <= n <= SizeOf(size, p)
      requires Inv(h) && h.base == base && h.used == used && Untouched(h, ptr, size, 0) && SizesKept(h.size, size, used)
      modifies this`freep, this`ptr, this`size, this`ring, this`used, this`own
      ensures Ready() && b !in old(used) && used == old(used) + {b} && own.Keys == old(own).Keys &&
        SizeOf(size, b) == n && 0 < b
      ensures Untouched(h, ptr, size, 0) && SizesKept(h.size, size, h.used)
      ensures freep == prevp && b == p + SizeOf(old(size), p) - n
    {
      assert 0 !in used by {
        assert IsBlock(State(), 0) ==> BlockOk(State(), 0);
      }
      ghost var h1 := State();
      b := Take(prevp, p, n, i);
      BlockPositive(State(), b);
      UntouchedTwice(h, h1, ptr, size);
    }

    /** Before the first malloc there is no ring. */
    ghost predicate Valid()
      reads this`freep, this`ptr, this`size, this`ring, this`used, this`own
    {
      if freep == 0 then 0 < base && ring == [] && used == {} && own == map[] else Ready()
    }

    constructor (base: int)
      requires 0 < base
      ensures Valid() && used == {} && own == map[] && this.base == base && ring == []
    {
      this.base := base;
      freep := 0;
      ptr := map[];
      size := map[];
      ring := [];
      used := {};
      own := map[];
    }

    /** malloc's first lines. */
    method Start()
      requires Valid()
      modifies this`freep, this`ptr, this`size, this`ring
      ensures Ready() && Untouched(old(State()), ptr, size, 0) && SizesKept(old(size), size, used)
      ensures old(freep) != 0 ==> State() == old(State()) && freep == old(freep)
      ensures old(freep) == 0 ==> ring == [base]
    {
      if freep == 0 {
        ptr := ptr[base := base];
        freep := base;
        size := size[base := 0];
        ring := [base];
        StartInv(State());
      } else {
        BlocksHaveSizes(State());
      }
    }

    /** malloc(nbytes), where sbrk, if it is called, answers `brk`; `cores` counts the calls. */
    method Malloc(nbytes: int, brk: int) returns (r: int, ghost cores: int)
      requires Valid() && 0 <= nbytes <= MAXREQUEST && (brk == -1 || IsFresh(State(), brk, CoreUnits(Units(nbytes))))
      modifies this`freep, this`ptr, this`size, this`ring, this`used, this`own
      ensures Ready() && 0 <= cores <= 1
      ensures Untouched(old(State()), ptr, size, 0) && SizesKept(old(size), size, old(used))
      ensures cores == 1 ==> NoRoom(old(ring), old(size), Units(nbytes))
      ensures r == 0 <==> cores == 1 && brk == -1
      ensures r == 0 ==> used == old(used) && own == old(own)
      ensures r != 0 ==> r - 1 !in old(used) && used == old(used) + {r - 1} && SizeOf(size, r - 1) == Units(nbytes)
      ensures r != 0 ==> own.Keys == if cores == 0 then old(own).Keys
        else old(own).Keys + UnitSet(brk, CoreUnits(Units(nbytes)))
      ensures cores == 0 ==> NextFit(old(ring), old(size), old(freep), Units(nbytes), r - 1, freep)
    {
      var n := Units(nbytes);
      Start();
      r, cores := Search(n, brk);
    }

    /** The loop of malloc. */
    method Search(n: int, brk: int) returns (r: int, ghost cores: int)
      requires Ready() && 1 <= n && (brk == -1 || IsFresh(State(), brk, CoreUnits(n)))
      modifies this`freep, this`ptr, this`size, this`ring, this`used, this`own
      ensures Ready() && 0 <= cores <= 1
      ensures Untouched(old(State()), ptr, size, 0) && SizesKept(old(size), size, old(used))
      ensures cores == 1 ==> NoRoom(old(ring), old(size), n)
      ensures r == 0 <==> cores == 1 && brk == -1
      ensures r == 0 ==> used == old(used) && own == old(own)
      ensures r != 0 ==> r - 1 !in old(used) && used == old(used) + {r - 1} && SizeOf(size, r - 1) == n
      ensures r != 0 ==> own.Keys == if cores == 0 then old(own).Keys else old(own).Keys + UnitSet(brk, CoreUnits(n))
      ensures cores == 0 ==> NextFit(old(ring), old(size), old(freep), n, r - 1, freep)
    {
      cores := 0;
      var prevp := freep;
      ghost var f, s :| 0 <= f < |ring| && ring[f] == freep && s == 0;
      RotatedLinks(base, ring, ptr, f);
      var p := ptr[prevp];
      BlocksHaveSizes(State());
      while true
        invariant 0 <= cores <= 1 && OnWalk(ring, f, s, freep, prevp, p) && AllSmall(Rotated(ring, f), s, size, n)
        invariant Ready() && used == old(used) && Untouched(old(State()), ptr, size, 0) &&
          SizesKept(old(size), size, used)
        invariant cores == 0 ==> State() == old(State()) && freep == old(freep)
        invariant cores == 1 ==>
          brk != -1 && NoRoom(old(ring), old(size), n) && own.Keys == old(own).Keys + UnitSet(brk, CoreUnits(n))
        invariant cores == 1 ==> RoomAhead(Rotated(ring, f), s, size, n)
        decreases 1 - cores, |ring| - s
      {
        WalkFacts(State(), f, s, freep, prevp, p);
        if size[p] >= n {
          var b := TakeFor(prevp, p, n, RotIndex(|ring|, f, s), old(State()));
          assert cores == 0 ==> FitsAt(old(ring), old(size), f, s, old(freep), n, b, freep);
          return b + 1, cores;
        }
        if p == freep {
          AllSmallMeans(ring, f, s, size, n);
          p := Morecore(n, brk);
          cores := 1;
          if p == 0 {
            return 0, cores;
          }
          f := FindRoom(State(), freep, n);
          s := 0;
        } else {
          s := s + 1;
        }
        RotatedLinks(base, ring, ptr, f);
        prevp := p;
        p := ptr[p];
      }
    }
  }
}
