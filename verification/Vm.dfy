/** kernel/vm.c and kernel/kalloc.c on one memory. */
module VmCode {
  import opened Division
  import opened Sv39
  import opened PageTable
  import opened PagePool
  import opened Subtree
  import opened UserBytes

  const PTE_R: int := 2
  const PTE_U: int := 16

  /** PX(level, va). */
  function Px(level: int, v: int): int {
    if level == 2 then I2(v) else if level == 1 then I1(v) else I0(v)
  }

  /** The pages that `sz` bytes take. */
  function PageCount(sz: int): int {
    (sz + 4095) / 4096
  }

  lemma PageCountOrder(a: int, b: int)
    requires 0 <= a <= b
    ensures 0 <= PageCount(a) <= PageCount(b)
    ensures RoundUp(a) / 4096 == PageCount(a) && (RoundUp(b) - RoundUp(a)) / 4096 == PageCount(b) - PageCount(a)
  {
  }

  /** `perm | PTE_V`. */
  function WithV(perm: int): int {
    if perm % 2 == 1 then perm else perm + 1
  }

  /** The entry that mappages writes. */
  function Entry(pa: int, perm: int): int {
    Pte(pa) + WithV(perm)
  }

  /** Permissions that make a leaf. */
  predicate IsPerm(perm: int) {
    0 <= perm < 1024 && !IsInner(perm)
  }

  lemma EntryIs(pa: int, perm: int)
    requires 0 <= pa && pa % 4096 == 0 && IsPerm(perm)
    ensures var e := Entry(pa, perm); IsValid(e) && Pa(e) == pa && Flags(e) == WithV(perm) && !IsInner(e)
    ensures IsUser(Entry(pa, perm)) == IsUser(perm) && IsWritable(Entry(pa, perm)) == IsWritable(perm)
  {
    PteRoundTrip(pa, WithV(perm));
    assert perm % 2 == 0 ==> (perm + 1) / 2 == perm / 2 && (perm + 1) / 4 == perm / 4 && (perm + 1) / 16 == perm / 16;
  }

  /** The table page that walk has reached at `level`. */
  ghost predicate OnPath(tab: Tables, own: map<int, Role>, r: int, v: int, level: int, pt: int) {
    && pt != 0 && pt in own
    && pt == (if level == 2 then r else if level == 1 then MidOf(tab, r, I2(v)) else LowOf(tab, r, I2(v), I1(v)))
    && own[pt] == if level == 2 then Top(r) else if level == 1 then Mid(r, I2(v)) else Low(r, I2(v), I1(v))
  }

  /** A new page-table page in an empty entry. */
  lemma FreshTable(tab: Tables, own: map<int, Role>, r: int, pt: int, k: int, n: int, role: Role)
    requires Trees(tab, own) && Frames(tab, own) && IsRoot(own, r) && pt in own && IsIndex(k) && Get(tab, pt, k) == 0
    requires pt in tab && |tab[pt]| == 512 && IsPage(n) && n !in own
    requires (role == Mid(r, k) && k < 256 && pt == r) ||
      (own[pt].Mid? && own[pt].root == r && role == Low(r, own[pt].i, k))
    ensures var tab', own' := Put(tab[n := Blank()], pt, k, Pte(n) + 1), own[n := role];
            Trees(tab', own') && Frames(tab', own') && SameLeaves(tab, tab', own)
  {
    var tab', own' := Put(tab[n := Blank()], pt, k, Pte(n) + 1), own[n := role];
    if role.Mid? {
      AddMid(tab, own, r, k, n, tab', own');
    } else {
      assert RoleOk(tab, own, pt);
      AddLow(tab, own, r, own[pt].i, k, pt, n, tab', own');
    }
    FramesSame(tab, own, tab', n, role);
  }

  /** Root `r` only gains pages, and no other tree changes. */
  ghost predicate Gains(own: map<int, Role>, own': map<int, Role>, r: int) {
    && (forall p :: p in own ==> p in own' && own'[p] == own[p])
    && (forall p :: p in own' ==> p in own || (own'[p].root == r && !own'[p].Top?))
  }

  /** Writing a leaf entry for a page that had none. */
  lemma SetEntry(tab: Tables, own: map<int, Role>, r: int, v: int, b: int, pa: int, perm: int)
    requires Trees(tab, own) && Frames(tab, own) && IsRoot(own, r) && 0 <= v < MAXVPN && !IsValid(Leaf(tab, r, v)) &&
      IsPerm(perm)
    requires b != 0 && b == LowOf(tab, r, I2(v), I1(v)) && b in tab && |tab[b]| == 512
    requires 0 <= pa && pa % 4096 == 0
    requires if v < USERVPN then IsPage(pa) && pa !in own else !IsUser(perm)
    ensures var tab' := Put(tab, b, I0(v), Entry(pa, perm));
            var own' := if v < USERVPN then own[pa := Frame(r, v)] else own;
            Trees(tab', own') && Frames(tab', own') && SameBut(tab, tab', own, r, v) &&
                Leaf(tab', r, v) == Entry(pa, perm)
  {
    var e := Entry(pa, perm);
    var tab' := Put(tab, b, I0(v), e);
    EntryIs(pa, perm);
    SetLeaf(tab, own, r, v, b, e, tab');
    AddFrame(tab, own, r, v, pa, e, tab', if v < USERVPN then own[pa := Frame(r, v)] else own);
  }

  /** The `k` pages of memory from `pa` on. */
  predicate InRun(p: int, pa: int, k: int) {
    pa <= p < pa + 4096 * k
  }

  ghost predicate RunHeld(held: set<int>, pa: int, n: int) {
    forall p {:trigger p in held} :: IsPage(p) && InRun(p, pa, n) ==> p in held
  }

  ghost predicate RunGone(held: set<int>, held': set<int>, pa: int, k: int) {
    forall p :: p in held' <==> p in held && !InRun(p, pa, k)
  }

  /** The `k` pages from page `v` on are mapped to the physical pages from `pa` on. */
  ghost predicate MapsRun(tab: Tables, r: int, v: int, k: int, pa: int, perm: int) {
    forall w {:trigger Leaf(tab, r, w)} :: v <= w < v + k ==> Leaf(tab, r, w) == Entry(pa + 4096 * (w - v), perm)
  }

  /** One more page of the run. */
  lemma MapsStep(tab: Tables, tab1: Tables, tab2: Tables, own: map<int, Role>, own1: map<int, Role>, r: int, v: int,
      k: int, pa: int, perm: int)
    requires IsRoot(own, r) && Gains(own, own1, r) && 0 <= v && 0 <= k && v + k < MAXVPN
    requires MapsRun(tab1, r, v, k, pa, perm) && SameOutside(tab, tab1, own, r, v, k)
    requires SameBut(tab1, tab2, own1, r, v + k) && Leaf(tab2, r, v + k) == Entry(pa + 4096 * k, perm)
    ensures MapsRun(tab2, r, v, k + 1, pa, perm) && SameOutside(tab, tab2, own, r, v, k + 1)
  {
    forall w | v <= w < v + k + 1
      ensures Leaf(tab2, r, w) == Entry(pa + 4096 * (w - v), perm)
    {
      if w < v + k {
        assert Leaf(tab2, r, w) == Leaf(tab1, r, w);
      }
    }
  }

  lemma RunStep(lo: int, hi: int, free: seq<int>, own: map<int, Role>, held: set<int>, held1: set<int>, pa: int, k: int)
    requires Pool(lo, hi, free, own, held) && RunGone(held, held1, pa, k) && 0 <= k && pa % 4096 == 0
    ensures RunGone(held, held1 - {pa + 4096 * k}, pa, k + 1)
  {
    var p := pa + 4096 * k;
    forall q
      ensures q in held1 - {p} <==> q in held && !InRun(q, pa, k + 1)
    {
      assert PoolAt(lo, hi, free, own, held, q);
      if q in held && InRun(q, pa, k + 1) && !InRun(q, pa, k) {
        assert q - p == 4096 * (q / 4096 - p / 4096) && 0 <= q - p < 4096;
      }
    }
  }

  ghost predicate NoneMapped(tab: Tables, r: int, v: int, n: int) {
    forall w {:trigger Leaf(tab, r, w)} :: v <= w < v + n ==> Leaf(tab, r, w) == 0
  }

  predicate IsFrameIn(role: Role, r: int, v: int, n: int) {
    role.Frame? && role.root == r && v <= role.v < v + n
  }

  /** The frames of `n` pages of root `r` from page `v` on are given up, and no other page. */
  ghost predicate Drops(own: map<int, Role>, own': map<int, Role>, r: int, v: int, n: int) {
    && (forall p :: p in own && !IsFrameIn(own[p], r, v, n) ==> p in own' && own'[p] == own[p])
    && (forall p :: p in own' ==> p in own && own'[p] == own[p] && !IsFrameIn(own[p], r, v, n))
  }

  /** Clearing a valid leaf entry. */
  lemma ClearEntry(tab: Tables, own: map<int, Role>, r: int, v: int, b: int)
    requires Trees(tab, own) && Frames(tab, own) && IsRoot(own, r) && 0 <= v < MAXVPN && IsValid(Leaf(tab, r, v))
    requires b != 0 && b == LowOf(tab, r, I2(v), I1(v)) && b in tab && |tab[b]| == 512
    ensures var tab', f := Put(tab, b, I0(v), 0), Pa(Leaf(tab, r, v));
            var own' := if v < USERVPN then own - {f} else own;
            && Trees(tab', own') && Frames(tab', own') && SameBut(tab, tab', own, r, v) && Leaf(tab', r, v) == 0
            && (v < USERVPN ==> f in own && own[f] == Frame(r, v))
            && Drops(own, own', r, v, 1)
  {
    var tab', f := Put(tab, b, I0(v), 0), Pa(Leaf(tab, r, v));
    var own' := if v < USERVPN then own - {f} else own;
    SetLeaf(tab, own, r, v, b, 0, tab');
    DropFrame(tab, own, r, v, tab', own');
    forall p | p in own && IsFrameIn(own[p], r, v, 1)
      ensures v < USERVPN && p == f
    {
      assert RoleOk(tab, own, p) && FrameOk(tab, own, p);
    }
  }

  /** Page `v` is mapped with these flags to a page that holds these bytes. */
  predicate Holds(tab: Tables, mem: map<int, seq<int>>, r: int, v: int, flags: int, bytes: seq<int>) {
    var e := Leaf(tab, r, v);
    IsValid(e) && Flags(e) == flags && Pa(e) in mem && mem[Pa(e)] == bytes
  }

  lemma OnePage(pa: int)
    requires IsPage(pa)
    ensures forall p {:trigger IsPage(p)} {:trigger InRun(p, pa, 1)} :: IsPage(p) ==> (InRun(p, pa, 1) <==> p == pa)
  {
    forall p | IsPage(p) && InRun(p, pa, 1)
      ensures p == pa
    {
      assert p - pa == 4096 * (p / 4096 - pa / 4096) && 0 <= p - pa < 4096;
    }
  }

  /** PTE_W and PTE_X. */
  predicate IsXperm(xperm: int) {
    xperm == 0 || xperm == 4 || xperm == 8 || xperm == 12
  }

  function Zeros(): seq<int> {
    seq(4096, _ => 0)
  }

  /** New, zeroed pages. */
  ghost predicate ZeroRun(tab: Tables, mem: map<int, seq<int>>, r: int, first: int, i: int, flags: int) {
    forall w {:trigger Leaf(tab, r, w)} :: first <= w < i ==> Holds(tab, mem, r, w, flags, Zeros())
  }

  /** A mapped page keeps its bytes while others are mapped. */
  lemma HoldsOn(tab: Tables, mem: map<int, seq<int>>, own: map<int, Role>, held: set<int>, r: int, w: int, flags: int,
      bytes: seq<int>, tab': Tables, mem': map<int, seq<int>>)
    requires Frames(tab, own) && IsRoot(own, r) && 0 <= w < USERVPN && Holds(tab, mem, r, w, flags, bytes)
    requires Leaf(tab', r, w) == Leaf(tab, r, w) && KeepsBytes(own, held, mem, mem')
    ensures Holds(tab', mem', r, w, flags, bytes)
  {
    assert LeafOk(own, r, w, Leaf(tab, r, w));
  }

  lemma ZeroStep(tab: Tables, mem: map<int, seq<int>>, own: map<int, Role>, held: set<int>, r: int, first: int, i: int,
      flags: int, tab': Tables, mem': map<int, seq<int>>)
    requires Frames(tab, own) && IsRoot(own, r) && 0 <= first <= i < USERVPN && ZeroRun(tab, mem, r, first, i, flags)
    requires SameBut(tab, tab', own, r, i) && KeepsBytes(own, held, mem, mem') &&
      Holds(tab', mem', r, i, flags, Zeros())
    ensures ZeroRun(tab', mem', r, first, i + 1, flags)
  {
    forall w | first <= w < i
      ensures Holds(tab', mem', r, w, flags, Zeros())
    {
      assert Leaf(tab', r, w) == Leaf(tab, r, w);
      HoldsOn(tab, mem, own, held, r, w, flags, Zeros(), tab', mem');
    }
  }

  /** What a program sees of new pages: zeroes that it can read, and write if and only if `writable`. */
  ghost predicate UserZeros(tab: Tables, mem: Bytes, r: int, first: int, n: int, writable: bool) {
    forall a {:trigger CanRead(tab, r, a)} {:trigger CanWrite(tab, r, a)} :: 4096 * first <= a < 4096 * n ==>
      CanRead(tab, r, a) && (CanWrite(tab, r, a) <==> writable) && ByteAt(tab, mem, r, a) == 0
  }

  lemma ZeroRunIs(tab: Tables, mem: Bytes, r: int, first: int, n: int, xperm: int)
    requires 0 <= first && n <= USERVPN && IsXperm(xperm) && ZeroRun(tab, mem, r, first, n, 19 + xperm)
    ensures UserZeros(tab, mem, r, first, n, xperm == 4 || xperm == 12)
  {
    forall a | 4096 * first <= a < 4096 * n
      ensures CanRead(tab, r, a) && (CanWrite(tab, r, a) <==> xperm == 4 || xperm == 12) && ByteAt(tab, mem, r, a) == 0
    {
      var w := a / 4096;
      assert Holds(tab, mem, r, w, 19 + xperm, Zeros());
      FlagsDecide(Leaf(tab, r, w));
      FlagSumBits(true, true, xperm == 4 || xperm == 12, xperm == 8 || xperm == 12, true);
    }
  }

  /** What the child sees is what the parent sees. */
  ghost predicate UserCopy(tab: Tables, mem: Bytes, src: int, tab': Tables, mem': Bytes, dst: int, n: int) {
    forall a {:trigger CanRead(tab', dst, a)} {:trigger CanWrite(tab', dst, a)} :: 0 <= a < 4096 * n ==>
      && CanRead(tab', dst, a) == CanRead(tab, src, a) && CanWrite(tab', dst, a) == CanWrite(tab, src, a)
      && ByteAt(tab', mem', dst, a) == ByteAt(tab, mem, src, a)
  }

  lemma CopyRunIs(tab: Tables, mem: Bytes, src: int, tab': Tables, mem': Bytes, dst: int, n: int)
    requires n <= USERVPN && CopyRun(tab, mem, src, tab', mem', dst, n)
    requires forall w {:trigger Leaf(tab, src, w)} :: 0 <= w < n ==> IsValid(Leaf(tab, src, w))
    ensures UserCopy(tab, mem, src, tab', mem', dst, n)
  {
    forall a | 0 <= a < 4096 * n
      ensures CanRead(tab', dst, a) == CanRead(tab, src, a) && CanWrite(tab', dst, a) == CanWrite(tab, src, a)
      ensures ByteAt(tab', mem', dst, a) == ByteAt(tab, mem, src, a)
    {
      var w := a / 4096;
      var e := Leaf(tab', dst, w);
      assert IsCopy(tab, mem, src, tab', mem', dst, w);
      FlagsDecide(Leaf(tab, src, w));
      FlagsDecide(e);
    }
  }

  /** Frames that are given up again were not there at first. */
  lemma GainsBack(tab: Tables, own: map<int, Role>, own1: map<int, Role>, own2: map<int, Role>, r: int, v: int, n: int)
    requires Trees(tab, own) && Frames(tab, own) && Gains(own, own1, r) && Drops(own1, own2, r, v, n)
    requires forall w {:trigger Leaf(tab, r, w)} :: v <= w < v + n ==> !IsValid(Leaf(tab, r, w))
    ensures Gains(own, own2, r)
  {
    forall p | p in own
      ensures !IsFrameIn(own[p], r, v, n)
    {
      if own[p].Frame? {
        assert FrameOk(tab, own, p);
      }
    }
  }

  /** After a run of new pages is unmapped again, the maps are those from before. */
  lemma Undone(tab: Tables, own: map<int, Role>, tab1: Tables, own1: map<int, Role>, tab2: Tables,
      own2: map<int, Role>, r: int, v: int, n: int)
    requires Trees(tab, own) && Frames(tab, own) && Gains(own, own1, r) && Drops(own1, own2, r, v, n)
    requires forall w {:trigger Leaf(tab, r, w)} :: v <= w < v + n ==> !IsValid(Leaf(tab, r, w))
    requires SameOutside(tab, tab1, own, r, v, n) && SameOutside(tab1, tab2, own1, r, v, n) && NoneMapped(tab2, r, v, n)
    ensures Gains(own, own2, r) && SameLeaves(tab, tab2, own)
  {
    GainsBack(tab, own, own1, own2, r, v, n);
    forall r', w | IsRoot(own, r') && 0 <= w < MAXVPN
      ensures Leaf(tab2, r', w) == Leaf(tab, r', w)
    {
      assert LeafOk(own, r', w, Leaf(tab, r', w));
    }
  }

  /** Page `w` of `dst` has the flags and the bytes that page `w` of `src` had. */
  predicate IsCopy(tab: Tables, mem: map<int, seq<int>>, src: int, tab': Tables, mem': map<int, seq<int>>, dst: int,
      w: int) {
    var pa := Pa(Leaf(tab, src, w));
    pa in mem && Holds(tab', mem', dst, w, Flags(Leaf(tab, src, w)), mem[pa])
  }

  ghost predicate CopyRun(tab: Tables, mem: map<int, seq<int>>, src: int, tab': Tables, mem': map<int, seq<int>>,
      dst: int, n: int) {
    forall w {:trigger Leaf(tab', dst, w)} :: 0 <= w < n ==> IsCopy(tab, mem, src, tab', mem', dst, w)
  }

  lemma CopyStep(tab0: Tables, mem0: map<int, seq<int>>, src: int, tab: Tables, mem: map<int, seq<int>>,
      own: map<int, Role>, held: set<int>, dst: int, i: int, tab': Tables, mem': map<int, seq<int>>)
    requires Frames(tab, own) && IsRoot(own, dst) && 0 <= i < USERVPN && CopyRun(tab0, mem0, src, tab, mem, dst, i)
    requires SameBut(tab, tab', own, dst, i) && KeepsBytes(own, held, mem, mem') &&
      IsCopy(tab0, mem0, src, tab', mem', dst, i)
    ensures CopyRun(tab0, mem0, src, tab', mem', dst, i + 1)
  {
    forall w | 0 <= w < i
      ensures IsCopy(tab0, mem0, src, tab', mem', dst, w)
    {
      assert Leaf(tab', dst, w) == Leaf(tab, dst, w);
      HoldsOn(tab, mem, own, held, dst, w, Flags(Leaf(tab0, src, w)), mem0[Pa(Leaf(tab0, src, w))], tab', mem');
    }
  }

  /** Taking the user bit from an entry keeps the rest. */
  lemma ClearUser(tab: Tables, own: map<int, Role>, r: int, v: int, b: int, e: int)
    requires Trees(tab, own) && Frames(tab, own) && IsRoot(own, r) && 0 <= v < MAXVPN
    requires b != 0 && b == LowOf(tab, r, I2(v), I1(v)) && b in tab && |tab[b]| == 512
    requires e == if IsUser(Leaf(tab, r, v)) then Leaf(tab, r, v) - 16 else Leaf(tab, r, v)
    ensures !IsUser(e) && Pa(e) == Pa(Leaf(tab, r, v)) && IsValid(e) == IsValid(Leaf(tab, r, v)) &&
      IsWritable(e) == IsWritable(Leaf(tab, r, v))
    ensures var tab' := Put(tab, b, I0(v), e);
            Trees(tab', own) && Frames(tab', own) && SameBut(tab, tab', own, r, v) && Leaf(tab', r, v) == e
  {
    var x := Leaf(tab, r, v);
    var tab' := Put(tab, b, I0(v), e);
    if IsUser(x) {
      LessUser(x);
    }
    SetLeaf(tab, own, r, v, b, e, tab');
    assert LeafOk(own, r, v, x);
    forall p | p in own && own[p].Frame?
      ensures FrameOk(tab', own, p)
    {
      assert RoleOk(tab, own, p) && FrameOk(tab, own, p);
    }
    forall r', v' | IsRoot(own, r') && 0 <= v' < MAXVPN
      ensures LeafOk(own, r', v', Leaf(tab', r', v'))
    {
      assert LeafOk(own, r', v', Leaf(tab, r', v'));
    }
  }

  lemma LessUser(x: int)
    requires IsUser(x)
    ensures var e := x - 16;
      !IsUser(e) && Pa(e) == Pa(x) && IsValid(e) == IsValid(x) && IsWritable(e) == IsWritable(x) &&
      IsInner(e) == IsInner(x)
  {
    var q := x / 16;
    var k, c := q / 2, x % 16;
    assert x == 32 * k + 16 + c;
    LessUserFlags(k, c);
    LessUserPage(k, c);
  }

  lemma LessUserFlags(k: int, c: int)
    requires 0 <= c < 16
    ensures var x, e := 32 * k + 16 + c, 32 * k + c;
            !IsUser(e) && IsValid(e) == IsValid(x) && IsWritable(e) == IsWritable(x) && IsInner(e) == IsInner(x)
  {
    Shifted(2 * k + 1, c, 2, 8);
    Shifted(2 * k, c, 2, 8);
    Shifted(4 * k + 2, c, 4, 2);
    Shifted(4 * k, c, 4, 2);
    Shifted(k, c, 16, 2);
    Shifted(16 * k + 8, c, 1, 2);
    Shifted(16 * k, c, 1, 2);
  }

  lemma LessUserPage(k: int, c: int)
    requires 0 <= c < 16
    ensures Pa(32 * k + c) == Pa(32 * k + 16 + c)
  {
    var q, m := k / 32, k % 32;
    DivOf(32 * k + 16 + c, 1024, q, 32 * m + 16 + c);
    DivOf(32 * k + c, 1024, q, 32 * m + c);
  }

  /**
   User bytes after `bytes` were copied to address `va` of root `r`: those bytes
   there, and every other byte of every program unchanged.
   */
  ghost predicate CopiedOut(tab: Tables, own: map<int, Role>, mem: Bytes, mem': Bytes, r: int, va: int,
      bytes: seq<int>) {
    forall r', a {:trigger ByteAt(tab, mem', r', a)} :: IsRoot(own, r') && CanRead(tab, r', a) ==>
      ByteAt(tab, mem', r', a) == if r' == r && va <= a < va + |bytes| then bytes[a - va] else ByteAt(tab, mem, r', a)
  }

  lemma PatchedAll(tab: Tables, own: map<int, Role>, mem: Bytes, r: int, va: int, pa: int, bytes: seq<int>)
    requires Frames(tab, own) && IsRoot(own, r) && CanWrite(tab, r, va) && |bytes| <= 4096 - va % 4096
    requires pa == Pa(Leaf(tab, r, va / 4096)) && pa in mem && |mem[pa]| == 4096
    ensures CopiedOut(tab, own, mem, mem[pa := Patch(mem[pa], va % 4096, bytes)], r, va, bytes)
    ensures forall a {:trigger CanWrite(tab, r, a)} :: va <= a < va + |bytes| ==> CanWrite(tab, r, a)
  {
    var mem' := mem[pa := Patch(mem[pa], va % 4096, bytes)];
    forall r', a | IsRoot(own, r') && CanRead(tab, r', a)
      ensures ByteAt(tab, mem', r', a) == if r' == r && va <= a < va + |bytes| then bytes[a - va]
        else ByteAt(tab, mem, r', a)
    {
      PatchedByte(tab, own, mem, r, va, bytes, r', a);
    }
    forall a | va <= a < va + |bytes|
      ensures CanWrite(tab, r, a)
    {
      SamePage(va, |bytes|, a);
    }
  }

  /** Only pages mapped by root `r` are written. */
  ghost predicate WritesOnly(own: map<int, Role>, mem: Bytes, mem': Bytes, r: int) {
    forall p {:trigger mem'[p]} {:trigger p in mem'} ::
        p in mem && !(p in own && own[p].Frame? && own[p].root == r) ==> p in mem' && mem'[p] == mem[p]
  }

  /** Where an address is in its page. */
  lemma InPage(va: int)
    requires 0 <= va
    ensures var va0 := RoundDown(va);
      && 0 <= va0 <= va && va0 / 4096 == va / 4096 && va - va0 == va % 4096 && (va0 < MAXVA <==> va < MAXVA)
  {
  }

  lemma CopiedMore(tab: Tables, own: map<int, Role>, mem: Bytes, mem1: Bytes, mem2: Bytes, r: int, va: int,
      src: seq<int>, n: int, m: int)
    requires 0 <= n && 0 <= m && n + m <= |src|
    requires CopiedOut(tab, own, mem, mem1, r, va, src[..n]) &&
      CopiedOut(tab, own, mem1, mem2, r, va + n, src[n..][..m])
    ensures CopiedOut(tab, own, mem, mem2, r, va, src[..n + m])
  {
    assert forall k :: 0 <= k < m ==> src[n..][..m][k] == src[n + k];
  }

  /** `bytes` is what the user sees from address `va` on. */
  ghost predicate ReadIn(tab: Tables, mem: Bytes, r: int, va: int, bytes: seq<int>) {
    forall a {:trigger CanRead(tab, r, a)} ::
        va <= a < va + |bytes| ==> CanRead(tab, r, a) && ByteAt(tab, mem, r, a) == bytes[a - va]
  }

  /** There is a NUL among the first `max` bytes, and everything up to it can be read. */
  ghost predicate HasString(tab: Tables, mem: Bytes, r: int, va: int, max: int) {
    exists z {:trigger ByteAt(tab, mem, r, z)} ::
        va <= z < va + max && ByteAt(tab, mem, r, z) == 0 && Readable(tab, r, va, z)
  }

  ghost predicate Readable(tab: Tables, r: int, va: int, z: int) {
    forall a {:trigger CanRead(tab, r, a)} :: va <= a <= z ==> CanRead(tab, r, a)
  }

  predicate NoNul(bytes: seq<int>) {
    forall k :: 0 <= k < |bytes| ==> bytes[k] != 0
  }

  /** A NUL at the end, or none at all. */
  predicate EndsIf(ok: bool, dst: seq<int>) {
    if ok then |dst| > 0 && dst[|dst| - 1] == 0 && NoNul(dst[..|dst| - 1]) else NoNul(dst)
  }

  lemma ReadMore(tab: Tables, mem: Bytes, r: int, va: int, dst: seq<int>, chunk: seq<int>)
    requires ReadIn(tab, mem, r, va, dst) && ReadIn(tab, mem, r, va + |dst|, chunk)
    ensures ReadIn(tab, mem, r, va, dst + chunk)
  {
    var all := dst + chunk;
    forall a | va <= a < va + |all|
      ensures CanRead(tab, r, a) && ByteAt(tab, mem, r, a) == all[a - va]
    {
      assert CanRead(tab, r, a);
      assert a >= va + |dst| ==> all[a - va] == chunk[a - (va + |dst|)];
    }
  }

  lemma StringMore(tab: Tables, mem: Bytes, r: int, va: int, dst: seq<int>, ok: bool, chunk: seq<int>)
    requires ReadIn(tab, mem, r, va, dst) && ReadIn(tab, mem, r, va + |dst|, chunk) && NoNul(dst) && EndsIf(ok, chunk)
    ensures ReadIn(tab, mem, r, va, dst + chunk) && EndsIf(ok, dst + chunk)
  {
    if ok {
      assert (dst + chunk)[..|dst + chunk| - 1] == dst + chunk[..|chunk| - 1];
    }
  }

  /**
   What copyinstr leaves in the kernel's buffer: the string with its NUL, or all
   it could read of a string that does not end in time.
   */
  ghost predicate StringIn(tab: Tables, mem: Bytes, r: int, va: int, max: int, ok: bool, dst: seq<int>) {
    && ReadIn(tab, mem, r, va, dst) && |dst| <= max && EndsIf(ok, dst)
    && (!ok ==> |dst| == max || !CanRead(tab, r, va + |dst|))
  }

  lemma StringInMeans(tab: Tables, mem: Bytes, r: int, va: int, max: int, ok: bool, dst: seq<int>)
    requires StringIn(tab, mem, r, va, max, ok, dst)
    ensures ok <==> HasString(tab, mem, r, va, max)
  {
    if ok {
      var z := va + |dst| - 1;
      assert CanRead(tab, r, z) && ByteAt(tab, mem, r, z) == 0;
    } else {
      forall z | va <= z < va + max && Readable(tab, r, va, z)
        ensures ByteAt(tab, mem, r, z) != 0
      {
        assert va + |dst| <= z ==> CanRead(tab, r, va + |dst|);
        assert CanRead(tab, r, z) && dst[z - va] != 0;
      }
    }
  }

  /** Freerange still holds the pages from `p` on. */
  ghost predicate RestHeld(lo: int, hi: int, held: set<int>, p: int) {
    forall q {:trigger q in held} :: q in held <==> IsManaged(lo, hi, q) && q >= p
  }

  lemma AllHeld(lo: int, hi: int, free: seq<int>, own: map<int, Role>, held: set<int>)
    requires Pool(lo, hi, free, own, held) && free == [] && own == map[] && 0 < lo
    ensures RestHeld(lo, hi, held, RoundUp(lo)) && RoundUp(lo) % 4096 == 0 && lo <= RoundUp(lo)
  {
    var p := RoundUp(lo);
    forall q
      ensures q in held <==> IsManaged(lo, hi, q) && q >= p
    {
      assert PoolAt(lo, hi, free, own, held, q);
      if IsManaged(lo, hi, q) {
        assert q == q / 4096 * 4096 && (lo + 4095) / 4096 <= q / 4096;
      }
    }
  }

  lemma NextHeld(lo: int, hi: int, held: set<int>, p: int)
    requires RestHeld(lo, hi, held, p) && p % 4096 == 0
    ensures (p + 4096) % 4096 == 0 && RestHeld(lo, hi, held - {p}, p + 4096)
  {
    forall q | IsPage(q) && p <= q < p + 4096
      ensures q == p
    {
      assert q - p == 4096 * (q / 4096 - p / 4096);
    }
  }

  /** No page in use is freed. */
  ghost predicate StaysUsed(own: map<int, Role>, held: set<int>, own': map<int, Role>, held': set<int>) {
    forall p :: p in own || p in held ==> p in own' || p in held'
  }

  /** The bytes of pages in use are kept. */
  ghost predicate KeepsBytes(own: map<int, Role>, held: set<int>, mem: map<int, seq<int>>, mem': map<int, seq<int>>) {
    forall p {:trigger mem'[p]} {:trigger p in mem'} ::
        (p in own || p in held) && p in mem ==> p in mem' && mem'[p] == mem[p]
  }

  /** All maps are the same, but for the `n` pages of root `r` from page `v` on. */
  ghost predicate SameOutside(tab: Tables, tab': Tables, own: map<int, Role>, r: int, v: int, n: int) {
    forall r', w {:trigger Leaf(tab', r', w)} :: IsRoot(own, r') && 0 <= w < MAXVPN && !(r' == r && v <= w < v + n) ==>
      Leaf(tab', r', w) == Leaf(tab, r', w)
  }

  class Vm {
    const lo: int
    const hi: int

    /** kmem.freelist and the `next` words in the free pages. */
    var freelist: int
    var nxt: map<int, int>
    ghost var free: seq<int>

    /** The pages used as tables, seen as 512 entries, and the bytes of the other pages. */
    var tab: Tables
    var mem: map<int, seq<int>>
    ghost var own: map<int, Role>
    ghost var held: set<int>

    ghost predicate MemOk()
      reads this`mem, this`own, this`held
    {
      forall p {:trigger mem[p]} {:trigger p in mem} :: p in own || p in held ==> p in mem && |mem[p]| == 4096
    }

    ghost predicate Pages()
      reads this`freelist, this`nxt, this`free, this`mem, this`own, this`held
    {
      IsList(freelist, nxt, free) && Pool(lo, hi, free, own, held) && MemOk()
    }

    ghost predicate Valid()
      reads this`freelist, this`nxt, this`free, this`mem, this`own, this`held, this`tab
    {
      Pages() && Trees(tab, own) && Frames(tab, own)
    }

    /** kinit: freerange(end, stop) puts every page in between on the free list, whatever it holds. */
    constructor (end: int, stop: int, bytes: map<int, seq<int>>)
      requires 0 < end && forall p {:trigger p in bytes} :: IsManaged(end, stop, p) ==> p in bytes && |bytes[p]| == 4096
      ensures Valid() && lo == end && hi == stop && own == map[] && tab == map[]
      ensures forall p :: p in free <==> IsManaged(end, stop, p)
      ensures forall p :: p !in held
    {
      lo := end;
      hi := stop;
      freelist := 0;
      nxt := map[];
      free := [];
      tab := map[];
      mem := bytes;
      own := map[];
      held := set p | end <= p < stop && IsManaged(end, stop, p);
      new;
      Freerange();
      forall p
        ensures p in free <==> IsManaged(end, stop, p)
      {
        assert PoolAt(lo, hi, free, own, held, p);
      }
    }

    method Freerange()
      requires Pages() && 0 < lo && free == [] && own == map[]
      modifies this`freelist, this`nxt, this`free, this`held, this`mem
      ensures Pages() && forall q :: q !in held
    {
      var p := RoundUp(lo);
      AllHeld(lo, hi, free, own, held);
      while p + PGSIZE <= hi
        invariant p % 4096 == 0 && 0 < lo <= p && Pages() && own == map[] && RestHeld(lo, hi, held, p)
        decreases hi - p
      {
        assert IsManaged(lo, hi, p);
        NextHeld(lo, hi, held, p);
        Kfree(p);
        p := p + PGSIZE;
      }
    }

    method Kalloc() returns (p: int)
      requires Pages()
      modifies this`freelist, this`free, this`held, this`mem
      ensures Pages() && KeepsBytes(own, old(held), old(mem), mem)
      ensures p == 0 <==> |old(free)| == 0
      ensures p == 0 ==> free == old(free) && held == old(held)
      ensures p != 0 ==>
        old(free) == [p] + free && held == old(held) + {p} && p !in old(held) && p !in own && IsManaged(lo, hi, p)
      ensures p != 0 ==> p in mem && mem[p] == seq(4096, _ => 5)
    {
      p := freelist;
      assert free != [] ==> Head(free) in free && PoolAt(lo, hi, free, own, held, Head(free));
      if p != 0 {
        PoolTake(lo, hi, free, own, held);
        assert p == free[0] && p in free;
        freelist := nxt[p];
        mem := mem[p := seq(4096, _ => 5)];
        held := held + {p};
        free := free[1..];
      }
    }

    method Kfree(p: int)
      requires Pages() && p in held
      modifies this`freelist, this`nxt, this`free, this`held, this`mem
      ensures Pages() && free == [p] + old(free) && held == old(held) - {p}
      ensures KeepsBytes(own, held, old(mem), mem) && p in mem && mem[p] == seq(4096, _ => 1)
    {
      mem := mem[p := seq(4096, _ => 1)];
      PoolGive(lo, hi, free, own, held, p);
      assert p !in free;
      ListFrame(freelist, nxt, free, p, freelist);
      assert ([p] + free)[1..] == free;
      nxt := nxt[p := freelist];
      freelist := p;
      free := [p] + free;
      held := held - {p};
    }

    /** What allocating page-table pages for root `r` may change. */
    twostate predicate Grew(r: int, most: int)
      reads this
    {
      && Valid() && Gains(old(own), own, r) && SameLeaves(old(tab), tab, old(own))
      && KeepsBytes(old(own), held, old(mem), mem) && held == old(held)
      && |free| <= |old(free)| <= |free| + most
    }

    /** walk's branch for an entry that is not valid: link a zeroed page there. */
    method NewTable(r: int, pt: int, k: int, ghost role: Role) returns (n: int)
      requires Valid() && IsRoot(own, r) && pt in own && IsIndex(k) && Get(tab, pt, k) == 0
      requires (role == Mid(r, k) && k < 256 && pt == r) ||
        (own[pt].Mid? && own[pt].root == r && role == Low(r, own[pt].i, k))
      modifies this`freelist, this`free, this`held, this`mem, this`tab, this`own
      ensures Grew(r, 1)
      ensures n == 0 <==> |old(free)| == 0
      ensures if n == 0 then tab == old(tab) else IsPage(n) && n in own && own[n] == role
    {
      assert RoleOk(tab, own, pt);
      n := Kalloc();
      if n != 0 {
        ghost var before := tab;
        PoolOwn(lo, hi, free, own, held, n, role);
        FreshTable(before, own, r, pt, k, n, role);
        tab := Put(tab[n := Blank()], pt, k, Pte(n) + 1);
        own := own[n := role];
        held := held - {n};
        assert held == old(held);
      }
    }

    /** One level of walk. */
    method WalkStep(r: int, v: int, pt: int, level: int, alloc: bool) returns (n: int)
      requires Valid() && IsRoot(own, r) && 0 <= v < MAXVPN && 1 <= level <= 2 && OnPath(tab, own, r, v, level, pt)
      modifies this`freelist, this`free, this`held, this`mem, this`tab, this`own
      ensures Grew(r, 1)
      ensures !alloc ==>
        tab == old(tab) && own == old(own) && mem == old(mem) && free == old(free) && freelist == old(freelist)
      ensures n == 0 ==> LowOf(tab, r, I2(v), I1(v)) == 0 && (alloc ==> |old(free)| == 0)
      ensures n != 0 ==> OnPath(tab, own, r, v, level - 1, n)
    {
      assert RoleOk(tab, own, pt);
      WalkRoles(tab, own, r, I2(v), I1(v));
      var k := Px(level, v);
      var pte := tab[pt][k];
      if IsValid(pte) {
        return Pa(pte);
      }
      n := 0;
      if alloc {
        ghost var role := if level == 2 then Mid(r, I2(v)) else Low(r, I2(v), I1(v));
        n := NewTable(r, pt, k, role);
        assert n != 0 ==> RoleOk(tab, own, n);
        WalkRoles(tab, own, r, I2(v), I1(v));
      }
    }

    /** The level-0 table page that holds the entry for page `v` (at index I0(v)), or 0. */
    method Walk(r: int, v: int, alloc: bool) returns (pt: int)
      requires Valid() && IsRoot(own, r) && 0 <= v < MAXVPN
      modifies this`freelist, this`free, this`held, this`mem, this`tab, this`own
      ensures Grew(r, 2)
      ensures !alloc ==>
        tab == old(tab) && own == old(own) && mem == old(mem) && free == old(free) && freelist == old(freelist)
      ensures pt == LowOf(tab, r, I2(v), I1(v))
      ensures pt != 0 ==> pt in own && pt in tab && |tab[pt]| == 512
      ensures alloc && pt == 0 ==> |old(free)| <= 1
    {
      pt := r;
      assert RoleOk(tab, own, r);
      var level := 2;
      while level > 0
        invariant 0 <= level <= 2
        invariant Grew(r, 2 - level) && IsRoot(own, r) && OnPath(tab, own, r, v, level, pt)
        invariant !alloc ==>
          tab == old(tab) && own == old(own) && mem == old(mem) && free == old(free) && freelist == old(freelist)
      {
        pt := WalkStep(r, v, pt, level, alloc);
        if pt == 0 {
          return 0;
        }
        level := level - 1;
      }
      assert RoleOk(tab, own, pt);
    }

    /** `*pte = PA2PTE(pa) | perm | PTE_V` at the entry found by walk; a user page takes over the frame. */
    method SetPte(r: int, v: int, b: int, pa: int, perm: int)
      requires Valid() && IsRoot(own, r) && 0 <= v < MAXVPN && !IsValid(Leaf(tab, r, v)) && IsPerm(perm)
      requires b != 0 && b == LowOf(tab, r, I2(v), I1(v)) && b in tab && |tab[b]| == 512
      requires 0 <= pa && pa % 4096 == 0
      requires if v < USERVPN then pa in held else !IsUser(perm)
      modifies this`held, this`tab, this`own
      ensures Valid() && Leaf(tab, r, v) == Entry(pa, perm) && SameBut(old(tab), tab, old(own), r, v)
      ensures own == if v < USERVPN then old(own)[pa := Frame(r, v)] else old(own)
      ensures held == if v < USERVPN then old(held) - {pa} else old(held)
      ensures v < USERVPN ==> pa !in old(own)
    {
      assert PoolAt(lo, hi, free, own, held, pa);
      SetEntry(tab, own, r, v, b, pa, perm);
      tab := Put(tab, b, I0(v), Entry(pa, perm));
      if v < USERVPN {
        PoolOwn(lo, hi, free, own, held, pa, Frame(r, v));
        own := own[pa := Frame(r, v)];
        held := held - {pa};
      }
    }

    /** One turn of the loop of mappages. */
    method MapPage(r: int, v: int, pa: int, perm: int) returns (ok: bool)
      requires Valid() && IsRoot(own, r) && 0 <= v < MAXVPN && !IsValid(Leaf(tab, r, v)) && IsPerm(perm)
      requires 0 <= pa && pa % 4096 == 0
      requires if v < USERVPN then pa in held else !IsUser(perm)
      modifies this`freelist, this`free, this`held, this`mem, this`tab, this`own
      ensures Valid() && Gains(old(own), own, r) && KeepsBytes(old(own), old(held), old(mem), mem)
      ensures |free| <= |old(free)| <= |free| + 2
      ensures !ok ==> SameLeaves(old(tab), tab, old(own)) && held == old(held) && |old(free)| <= 1
      ensures ok ==> Leaf(tab, r, v) == Entry(pa, perm) && SameBut(old(tab), tab, old(own), r, v)
      ensures ok ==> held == if v < USERVPN then old(held) - {pa} else old(held)
      ensures StaysUsed(old(own), old(held), own, held)
    {
      var b := Walk(r, v, true);
      ok := b != 0;
      if ok {
        assert Leaf(tab, r, v) == old(Leaf(tab, r, v));
        SetPte(r, v, b, pa, perm);
      }
    }

    /** `n` pages from page `v` on get the physical pages from `pa` on; `k` of them are mapped when it returns. */
    method Mappages(r: int, v: int, n: int, pa: int, perm: int) returns (ok: bool, ghost k: int)
      requires Valid() && IsRoot(own, r) && 0 <= v && 1 <= n && v + n <= MAXVPN && IsPerm(perm)
      requires forall w {:trigger Leaf(tab, r, w)} :: v <= w < v + n ==> !IsValid(Leaf(tab, r, w))
      requires 0 <= pa && pa % 4096 == 0
      requires (v + n <= USERVPN && 0 < pa && RunHeld(held, pa, n)) || (USERVPN <= v && !IsUser(perm))
      modifies this`freelist, this`free, this`held, this`mem, this`tab, this`own
      ensures Valid() && Gains(old(own), own, r) && KeepsBytes(old(own), old(held), old(mem), mem)
      ensures 0 <= k <= n && (ok <==> k == n) && (!ok ==> |old(free)| <= 2 * k + 1)
      ensures |free| <= |old(free)| <= |free| + 2 * n
      ensures MapsRun(tab, r, v, k, pa, perm) && SameOutside(old(tab), tab, old(own), r, v, k)
      ensures if v < USERVPN then RunGone(old(held), held, pa, k) else held == old(held)
      ensures StaysUsed(old(own), old(held), own, held)
    {
      hide Trees, Frames;
      k := 0;
      var i := 0;
      while true
        invariant i == k && 0 <= k < n && Valid() && Gains(old(own), own, r) &&
          KeepsBytes(old(own), old(held), old(mem), mem)
        invariant |free| <= |old(free)| <= |free| + 2 * k
        invariant MapsRun(tab, r, v, k, pa, perm) && SameOutside(old(tab), tab, old(own), r, v, k)
        invariant if v < USERVPN then RunGone(old(held), held, pa, k) else held == old(held)
        invariant StaysUsed(old(own), old(held), own, held)
        decreases n - k
      {
        var p := pa + 4096 * i;
        assert p % 4096 == 0;
        assert v < USERVPN ==> IsPage(p) && InRun(p, pa, n) && !InRun(p, pa, k);
        ghost var tab1, own1, held1 := tab, own, held;
        ok := MapPage(r, v + i, p, perm);
        if !ok {
          return;
        }
        MapsStep(old(tab), tab1, tab, old(own), own1, r, v, k, pa, perm);
        if v < USERVPN {
          RunStep(lo, hi, old(free), old(own), old(held), held1, pa, k);
        }
        i, k := i + 1, k + 1;
        if i == n {
          break;
        }
      }
    }

    /** One turn of the loop of uvmunmap. */
    method UnmapPage(r: int, v: int, doFree: bool)
      requires Valid() && IsRoot(own, r) && 0 <= v < MAXVPN && IsValid(Leaf(tab, r, v)) && (doFree <==> v < USERVPN)
      modifies this`freelist, this`nxt, this`free, this`held, this`mem, this`tab, this`own
      ensures Valid() && held == old(held) && KeepsBytes(own, held, old(mem), mem)
      ensures Leaf(tab, r, v) == 0 && SameBut(old(tab), tab, old(own), r, v)
      ensures Drops(old(own), own, r, v, 1) && |free| == |old(free)| + if doFree then 1 else 0
    {
      ghost var own0, tab0 := own, tab;
      WalkRoles(tab, own, r, I2(v), I1(v));
      var b := Walk(r, v, false);
      var pte := tab[b][I0(v)];
      ClearEntry(tab, own, r, v, b);
      if doFree {
        var pa := Pa(pte);
        PoolDisown(lo, hi, free, own, held, pa);
        own := own - {pa};
        held := held + {pa};
        Kfree(pa);
      }
      tab := Put(tab, b, I0(v), 0);
    }

    method Uvmunmap(r: int, v: int, n: int, doFree: bool)
      requires Valid() && IsRoot(own, r) && 0 <= v && 0 <= n && v + n <= MAXVPN
      requires if doFree then v + n <= USERVPN else USERVPN <= v
      requires forall w {:trigger Leaf(tab, r, w)} :: v <= w < v + n ==> IsValid(Leaf(tab, r, w))
      modifies this`freelist, this`nxt, this`free, this`held, this`mem, this`tab, this`own
      ensures Valid() && held == old(held) && KeepsBytes(own, held, old(mem), mem)
      ensures NoneMapped(tab, r, v, n) && SameOutside(old(tab), tab, old(own), r, v, n)
      ensures Drops(old(own), own, r, v, n) && |free| == |old(free)| + if doFree then n else 0
    {
      var i := 0;
      while i < n
        invariant 0 <= i <= n && Valid() && held == old(held) && KeepsBytes(own, held, old(mem), mem)
        invariant NoneMapped(tab, r, v, i) && SameOutside(old(tab), tab, old(own), r, v, i)
        invariant Drops(old(own), own, r, v, i) && |free| == |old(free)| + if doFree then i else 0
      {
        UnmapPage(r, v + i, doFree);
        i := i + 1;
      }
    }

    method Uvmcreate() returns (r: int)
      requires Valid()
      modifies this`freelist, this`free, this`held, this`mem, this`tab, this`own
      ensures Valid() && held == old(held) && KeepsBytes(old(own), held, old(mem), mem)
      ensures r == 0 <==> |old(free)| == 0
      ensures r == 0 ==> tab == old(tab) && own == old(own)
      ensures r != 0 ==> r !in old(own) && own == old(own)[r := Top(r)] && SameLeaves(old(tab), tab, old(own))
      ensures r != 0 ==> NoneMapped(tab, r, 0, MAXVPN)
    {
      r := Kalloc();
      if r != 0 {
        PoolOwn(lo, hi, free, own, held, r, Top(r));
        AddTop(tab, own, r, tab[r := Blank()], own[r := Top(r)]);
        tab := tab[r := Blank()];
        own := own[r := Top(r)];
        held := held - {r};
        assert held == old(held);
      }
    }

    /** uvmdealloc: sizes need not be aligned. */
    method Uvmdealloc(r: int, oldsz: int, newsz: int) returns (sz: int)
      requires Valid() && IsRoot(own, r) && 0 <= newsz && 0 <= oldsz && PageCount(oldsz) <= USERVPN
      requires forall w {:trigger Leaf(tab, r, w)} ::
        PageCount(newsz) <= w < PageCount(oldsz) ==> IsValid(Leaf(tab, r, w))
      modifies this`freelist, this`nxt, this`free, this`held, this`mem, this`tab, this`own
      ensures Valid() && held == old(held) && KeepsBytes(own, held, old(mem), mem)
      ensures sz == if newsz < oldsz then newsz else oldsz
      ensures var v, n := PageCount(sz), PageCount(oldsz) - PageCount(sz);
              && NoneMapped(tab, r, v, n) && SameOutside(old(tab), tab, old(own), r, v, n)
              && Drops(old(own), own, r, v, n) && |free| == |old(free)| + n
    {
      if newsz >= oldsz {
        return oldsz;
      }
      PageCountOrder(newsz, oldsz);
      if RoundUp(newsz) < RoundUp(oldsz) {
        var npages := (RoundUp(oldsz) - RoundUp(newsz)) / PGSIZE;
        Uvmunmap(r, RoundUp(newsz) / PGSIZE, npages, true);
      }
      return newsz;
    }

    /** mappages(r, va, PGSIZE, pa, perm) for a user page. */
    method MapOne(r: int, v: int, pa: int, perm: int) returns (ok: bool)
      requires Valid() && IsRoot(own, r) && 0 <= v < USERVPN && !IsValid(Leaf(tab, r, v)) && IsPerm(perm) && pa in held
      modifies this`freelist, this`free, this`held, this`mem, this`tab, this`own
      ensures Valid() && Gains(old(own), own, r) && KeepsBytes(old(own), old(held), old(mem), mem)
      ensures |free| <= |old(free)| <= |free| + 2
      ensures !ok ==> SameLeaves(old(tab), tab, old(own)) && held == old(held) && |old(free)| <= 1
      ensures ok ==>
        Leaf(tab, r, v) == Entry(pa, perm) && SameBut(old(tab), tab, old(own), r, v) && held == old(held) - {pa}
    {
      assert PoolAt(lo, hi, free, own, held, pa);
      ghost var k;
      assert RunHeld(held, pa, 1) by {
        OnePage(pa);
      }
      ok, k := Mappages(r, v, 1, pa, perm);
      assert held == if ok then old(held) - {pa} else old(held) by {
        OnePage(pa);
        forall p ensures p in held <==> p in old(held) && !(ok && p == pa) {
          assert old(PoolAt(lo, hi, free, own, held, p));
        }
      }
    }

    /** Map page `v` to a new page that holds `bytes`; what was allocated for it is freed again if that fails. */
    method MapFilled(r: int, v: int, perm: int, bytes: seq<int>) returns (ok: bool)
      requires Valid() && IsRoot(own, r) && 0 <= v < USERVPN && !IsValid(Leaf(tab, r, v)) && IsPerm(perm) &&
        |bytes| == 4096
      modifies this`freelist, this`nxt, this`free, this`held, this`mem, this`tab, this`own
      ensures Valid() && held == old(held) && Gains(old(own), own, r) && KeepsBytes(old(own), held, old(mem), mem)
      ensures |old(free)| <= |free| + 3 && (ok ==> |free| < |old(free)|)
      ensures !ok ==> SameLeaves(old(tab), tab, old(own)) && |old(free)| <= 2
      ensures ok ==> SameBut(old(tab), tab, old(own), r, v) && Holds(tab, mem, r, v, WithV(perm), bytes)
    {
      var p := Kalloc();
      if p == 0 {
        return false;
      }
      mem := mem[p := bytes];
      ok := MapOne(r, v, p, perm);
      if ok {
        EntryIs(p, perm);
        assert p in mem && mem[p] == bytes;
      } else {
        Kfree(p);
      }
      assert held == old(held);
    }

    /** uvmalloc: `ok` tells success from the error return 0. */
    method Uvmalloc(r: int, oldsz: int, newsz: int, xperm: int) returns (sz: int, ghost ok: bool)
      requires Valid() && IsRoot(own, r) && 0 <= oldsz && 0 <= newsz && IsXperm(xperm)
      requires PageCount(newsz) <= USERVPN || PageCount(oldsz) + |free| < USERVPN
      requires forall w {:trigger Leaf(tab, r, w)} ::
                 PageCount(oldsz) <= w < PageCount(newsz) && w < USERVPN ==> !IsValid(Leaf(tab, r, w))
      modifies this`freelist, this`nxt, this`free, this`held, this`mem, this`tab, this`own
      ensures Valid() && held == old(held) && Gains(old(own), own, r) && KeepsBytes(old(own), held, old(mem), mem)
      ensures newsz < oldsz ==> ok && sz == oldsz && SameLeaves(old(tab), tab, old(own))
      ensures newsz >= oldsz && ok ==>
        sz == newsz && ZeroRun(tab, mem, r, PageCount(oldsz), PageCount(newsz), 19 + xperm)
      ensures newsz >= oldsz && ok ==>
        UserZeros(tab, mem, r, PageCount(oldsz), PageCount(newsz), xperm == 4 || xperm == 12)
      ensures newsz >= oldsz && ok ==>
        SameOutside(old(tab), tab, old(own), r, PageCount(oldsz), PageCount(newsz) - PageCount(oldsz))
      ensures !ok ==>
        sz == 0 && SameLeaves(old(tab), tab, old(own)) && |old(free)| < 3 * (PageCount(newsz) - PageCount(oldsz))
    {
      if newsz < oldsz {
        return oldsz, true;
      }
      PageCountOrder(oldsz, newsz);
      var first := RoundUp(oldsz) / PGSIZE;
      var i := first;
      while i * PGSIZE < newsz
        invariant first <= i <= PageCount(newsz) && |free| + (i - first) <= |old(free)|
        invariant Valid() && held == old(held) && Gains(old(own), own, r) && KeepsBytes(old(own), held, old(mem), mem)
        invariant ZeroRun(tab, mem, r, first, i, 19 + xperm) &&
          SameOutside(old(tab), tab, old(own), r, first, i - first)
        invariant |old(free)| <= |free| + 3 * (i - first)
      {
        assert Leaf(tab, r, i) == old(Leaf(tab, r, i));
        var mapped := MapZeroed(r, first, i, xperm);
        if !mapped {
          UndoRun(r, first, i, old(tab), old(own), old(mem));
          return 0, false;
        }
        i := i + 1;
      }
      ZeroRunIs(tab, mem, r, first, i, xperm);
      return newsz, true;
    }

    /** One more zeroed page of a run. */
    method MapZeroed(r: int, first: int, i: int, xperm: int) returns (ok: bool)
      requires Valid() && IsRoot(own, r) && 0 <= first <= i < USERVPN && !IsValid(Leaf(tab, r, i)) && IsXperm(xperm)
      requires ZeroRun(tab, mem, r, first, i, 19 + xperm)
      modifies this`freelist, this`nxt, this`free, this`held, this`mem, this`tab, this`own
      ensures Valid() && held == old(held) && Gains(old(own), own, r) && KeepsBytes(old(own), held, old(mem), mem)
      ensures |old(free)| <= |free| + 3 && (ok ==> |free| < |old(free)|)
      ensures !ok ==> SameLeaves(old(tab), tab, old(own)) && |old(free)| <= 2
      ensures ok ==> SameBut(old(tab), tab, old(own), r, i) && ZeroRun(tab, mem, r, first, i + 1, 19 + xperm)
    {
      ok := MapFilled(r, i, PTE_R + PTE_U + xperm, Zeros());
      if ok {
        ZeroStep(old(tab), old(mem), old(own), held, r, first, i, 19 + xperm, tab, mem);
      }
    }

    /** The failure path of uvmalloc: the pages mapped so far are unmapped and freed. */
    method UndoRun(r: int, first: int, i: int, ghost tab0: Tables, ghost own0: map<int, Role>,
        ghost mem0: map<int, seq<int>>)
      requires Valid() && IsRoot(own0, r) && 0 <= first <= i <= USERVPN && Trees(tab0, own0) && Frames(tab0, own0)
      requires Gains(own0, own, r) && KeepsBytes(own0, held, mem0, mem)
      requires forall w {:trigger Leaf(tab0, r, w)} :: first <= w < i ==> !IsValid(Leaf(tab0, r, w))
      requires forall w {:trigger Leaf(tab, r, w)} :: first <= w < i ==> IsValid(Leaf(tab, r, w))
      requires SameOutside(tab0, tab, own0, r, first, i - first)
      modifies this`freelist, this`nxt, this`free, this`held, this`mem, this`tab, this`own
      ensures Valid() && held == old(held) && Gains(own0, own, r) && KeepsBytes(own0, held, mem0, mem)
      ensures SameLeaves(tab0, tab, own0)
    {
      PageCountOrder(first * PGSIZE, i * PGSIZE);
      var sz := Uvmdealloc(r, i * PGSIZE, first * PGSIZE);
      Undone(tab0, own0, old(tab), old(own), tab, own, r, first, i - first);
    }

    /** The failure path of uvmcopy. */
    method UndoCopy(r: int, i: int, ghost tab0: Tables, ghost own0: map<int, Role>, ghost mem0: map<int, seq<int>>)
      requires Valid() && IsRoot(own0, r) && 0 <= i <= USERVPN && Trees(tab0, own0) && Frames(tab0, own0)
      requires Gains(own0, own, r) && KeepsBytes(own0, held, mem0, mem)
      requires forall w {:trigger Leaf(tab0, r, w)} :: 0 <= w < i ==> !IsValid(Leaf(tab0, r, w))
      requires forall w {:trigger Leaf(tab, r, w)} :: 0 <= w < i ==> IsValid(Leaf(tab, r, w))
      requires SameOutside(tab0, tab, own0, r, 0, i)
      modifies this`freelist, this`nxt, this`free, this`held, this`mem, this`tab, this`own
      ensures Valid() && held == old(held) && Gains(own0, own, r) && KeepsBytes(own0, held, mem0, mem)
      ensures SameLeaves(tab0, tab, own0)
    {
      Uvmunmap(r, 0, i, true);
      Undone(tab0, own0, old(tab), old(own), tab, own, r, 0, i);
    }

    /** uvmcopy(src, dst, sz). */
    method Uvmcopy(src: int, dst: int, sz: int) returns (ok: bool)
      requires Valid() && IsRoot(own, src) && IsRoot(own, dst) && src != dst && 0 <= sz && PageCount(sz) <= USERVPN
      requires forall w {:trigger Leaf(tab, src, w)} :: 0 <= w < PageCount(sz) ==> IsValid(Leaf(tab, src, w))
      requires forall w {:trigger Leaf(tab, dst, w)} :: 0 <= w < PageCount(sz) ==> !IsValid(Leaf(tab, dst, w))
      modifies this`freelist, this`nxt, this`free, this`held, this`mem, this`tab, this`own
      ensures Valid() && held == old(held) && Gains(old(own), own, dst) && KeepsBytes(old(own), held, old(mem), mem)
      ensures ok ==>
        CopyRun(old(tab), old(mem), src, tab, mem, dst, PageCount(sz)) &&
        SameOutside(old(tab), tab, old(own), dst, 0, PageCount(sz))
      ensures ok ==> UserCopy(old(tab), old(mem), src, tab, mem, dst, PageCount(sz))
      ensures !ok ==> SameLeaves(old(tab), tab, old(own)) && |old(free)| < 3 * PageCount(sz)
    {
      var i := 0;
      while i * PGSIZE < sz
        invariant 0 <= i <= PageCount(sz)
        invariant Valid() && held == old(held) && Gains(old(own), own, dst) && KeepsBytes(old(own), held, old(mem), mem)
        invariant CopyRun(old(tab), old(mem), src, tab, mem, dst, i) && SameOutside(old(tab), tab, old(own), dst, 0, i)
        invariant |old(free)| <= |free| + 3 * i
      {
        ghost var tab1, mem1, own1 := tab, mem, own;
        var mapped := CopyPage(src, dst, i, old(tab), old(own), old(mem));
        if !mapped {
          UndoCopy(dst, i, old(tab), old(own), old(mem));
          return false;
        }
        CopyStep(old(tab), old(mem), src, tab1, mem1, own1, held, dst, i, tab, mem);
        i := i + 1;
      }
      CopyRunIs(old(tab), old(mem), src, tab, mem, dst, i);
      return true;
    }

    /** One turn of the loop of uvmcopy. */
    method CopyPage(src: int, dst: int, i: int, ghost tab0: Tables, ghost own0: map<int, Role>,
        ghost mem0: map<int, seq<int>>) returns (ok: bool)
      requires Valid() && IsRoot(own, src) && IsRoot(own, dst) && src != dst && 0 <= i < USERVPN
      requires Frames(tab0, own0) && IsRoot(own0, src) && Gains(own0, own, dst) && KeepsBytes(own0, held, mem0, mem)
      requires forall p {:trigger p in mem0} :: p in own0 ==> p in mem0
      requires Leaf(tab, src, i) == Leaf(tab0, src, i) && IsValid(Leaf(tab0, src, i)) && !IsValid(Leaf(tab, dst, i))
      modifies this`freelist, this`nxt, this`free, this`held, this`mem, this`tab, this`own
      ensures Valid() && held == old(held) && Gains(old(own), own, dst) && KeepsBytes(old(own), held, old(mem), mem)
      ensures |old(free)| <= |free| + 3
      ensures !ok ==> SameLeaves(old(tab), tab, old(own)) && |old(free)| <= 2
      ensures ok ==> SameBut(old(tab), tab, old(own), dst, i) && IsCopy(tab0, mem0, src, tab, mem, dst, i)
    {
      WalkRoles(tab, own, src, I2(i), I1(i));
      var b := Walk(src, i, false);
      var pte := tab[b][I0(i)];
      var pa := Pa(pte);
      var flags := Flags(pte);
      assert LeafOk(own0, src, i, Leaf(tab0, src, i));
      assert pa in own && pa in mem && |mem[pa]| == 4096 && mem[pa] == mem0[pa];
      LowBits(pte / 1024, flags);
      ok := MapFilled(dst, i, flags, mem[pa]);
    }

    method Uvmclear(r: int, v: int)
      requires Valid() && IsRoot(own, r) && 0 <= v < MAXVPN && LowOf(tab, r, I2(v), I1(v)) != 0
      modifies this`freelist, this`free, this`held, this`mem, this`tab, this`own
      ensures Valid() && own == old(own) && held == old(held) && free == old(free) && mem == old(mem)
      ensures SameBut(old(tab), tab, own, r, v)
      ensures var e, e' := old(Leaf(tab, r, v)), Leaf(tab, r, v);
              !IsUser(e') && Pa(e') == Pa(e) && IsValid(e') == IsValid(e) && IsWritable(e') == IsWritable(e)
      ensures var e, e' := old(Leaf(tab, r, v)), Leaf(tab, r, v); e' == if IsUser(e) then e - 16 else e
    {
      var b := Walk(r, v, false);
      var pte := tab[b][I0(v)];
      var e := if IsUser(pte) then pte - 16 else pte;
      ClearUser(tab, own, r, v, b, e);
      tab := Put(tab, b, I0(v), e);
    }

    /** freewalk: `tab0` and `own0` are the trees before any page was freed. */
    method Freewalk(p: int, ghost tab0: Tables, ghost own0: map<int, Role>)
      requires Pages() && Trees(tab0, own0) && p in own0 && !own0[p].Frame? && LowsBlank(tab0, own0, own0[p].root)
      requires Intact(tab0, own0, tab, own, own0[p])
      modifies this`freelist, this`nxt, this`free, this`held, this`mem, this`tab, this`own
      ensures Pages() && held == old(held) && KeepsBytes(own, held, old(mem), mem)
      ensures Pruned(old(own), own, old(tab), tab, own0[p])
      decreases Level(own0[p])
    {
      PrunedNone(tab0, own0, tab, own, p);
      var i := 0;
      while i < 512
        invariant 0 <= i <= 512 && Pages() && held == old(held) && KeepsBytes(own, held, old(mem), mem)
        invariant PrunedFirst(old(own), own, old(tab), tab, own0[p], i, p)
      {
        var pte := tab[p][i];
        assert EntryOk(tab0, own0, p, i) && pte == Get(tab0, p, i);
        if IsValid(pte) && IsInner(pte) {
          IntactChild(tab0, own0, old(tab), old(own), tab, own, p, i);
          ghost var tab1, own1 := tab, own;
          Freewalk(Pa(pte), tab0, own0);
          PrunedNext(tab0, own0, old(tab), old(own), tab1, own1, tab, own, p, i);
          tab := Put(tab, p, i, 0);
        } else {
          // A valid entry here would be the panic "freewalk: leaf".
          assert !IsValid(pte);
          PrunedSkip(tab0, own0, old(tab), old(own), tab, own, p, i);
        }
        i := i + 1;
      }
      PrunedDone(tab0, own0, old(tab), old(own), tab, own, p);
      PoolDisown(lo, hi, free, own, held, p);
      own := own - {p};
      held := held + {p};
      tab := tab - {p};
      Kfree(p);
      assert held == old(held);
    }

    /** uvmfree: every page of the tree and every page mapped in it goes back to the free list. */
    method Uvmfree(r: int, sz: int)
      requires Valid() && IsRoot(own, r) && 0 <= sz && PageCount(sz) <= USERVPN
      requires forall w {:trigger Leaf(tab, r, w)} ::
        0 <= w < MAXVPN ==> (IsValid(Leaf(tab, r, w)) <==> w < PageCount(sz))
      modifies this`freelist, this`nxt, this`free, this`held, this`mem, this`tab, this`own
      ensures Valid() && held == old(held) && KeepsBytes(own, held, old(mem), mem)
      ensures forall p :: p in own <==> p in old(own) && old(own)[p].root != r
      ensures forall p :: p in own ==> own[p] == old(own)[p]
      ensures forall p :: p in old(own) && old(own)[p].root == r ==> p in free
      ensures SameLeaves(old(tab), tab, own)
    {
      PageCountOrder(0, sz);
      if sz > 0 {
        Uvmunmap(r, 0, RoundUp(sz) / PGSIZE, true);
      }
      assert forall w {:trigger Leaf(tab, r, w)} :: 0 <= w < MAXVPN ==> Leaf(tab, r, w) == 0 by {
        forall w | 0 <= w < MAXVPN
          ensures Leaf(tab, r, w) == 0
        {
          assert LeafOk(own, r, w, Leaf(tab, r, w));
        }
      }
      BlankWhenUnmapped(tab, own, r);
      ghost var tab1, own1 := tab, own;
      assert Intact(tab, own, tab, own, Top(r)) by {
        forall q | q in own && Below(Top(r), own[q])
          ensures q in tab
        {
          assert RoleOk(tab, own, q);
        }
      }
      Freewalk(r, tab, own);
      PrunedTrees(tab1, own1, tab, own, r);
      forall p | p in old(own) && old(own)[p].root == r
        ensures p in free
      {
        assert old(PoolAt(lo, hi, free, own, held, p));
        assert PoolAt(lo, hi, free, own, held, p);
      }
    }

    /** walkaddr: the frame of a page that the user can read, or 0. */
    method Walkaddr(r: int, va: int) returns (pa: int)
      requires Valid() && IsRoot(own, r) && 0 <= va
      modifies this`freelist, this`free, this`held, this`mem, this`tab, this`own
      ensures tab == old(tab) && own == old(own) && mem == old(mem) && held == old(held) && Valid()
      ensures pa == 0 <==> !CanRead(tab, r, va)
      ensures pa != 0 ==> pa == Pa(Leaf(tab, r, va / 4096)) && pa in mem && |mem[pa]| == 4096
    {
      if va >= MAXVA {
        return 0;
      }
      var b := Walk(r, va / PGSIZE, false);
      if b == 0 || !IsValid(tab[b][I0(va / PGSIZE)]) || !IsUser(tab[b][I0(va / PGSIZE)]) {
        return 0;
      }
      ReadableFrame(tab, own, r, va);
      pa := Pa(tab[b][I0(va / PGSIZE)]);
      assert RoleOk(tab, own, pa);
    }

    /** copyout: `n` bytes were copied. */
    method Copyout(r: int, dstva: int, src: seq<int>) returns (ok: bool, ghost n: int)
      requires Valid() && IsRoot(own, r) && 0 <= dstva
      modifies this`freelist, this`free, this`held, this`mem, this`tab, this`own
      ensures Valid() && tab == old(tab) && own == old(own) && held == old(held)
      ensures 0 <= n <= |src| && (ok <==> n == |src|) && (!ok ==> !CanWrite(tab, r, dstva + n))
      ensures forall a {:trigger CanWrite(tab, r, a)} :: dstva <= a < dstva + n ==> CanWrite(tab, r, a)
      ensures CopiedOut(tab, own, old(mem), mem, r, dstva, src[..n]) && WritesOnly(own, old(mem), mem, r)
    {
      var done := 0;
      n := 0;
      while done < |src|
        invariant n == done && 0 <= n <= |src|
        invariant Valid() && tab == old(tab) && own == old(own) && held == old(held)
        invariant n == |src| || n == 0 || (dstva + n) % 4096 == 0
        invariant forall a {:trigger CanWrite(tab, r, a)} :: dstva <= a < dstva + n ==> CanWrite(tab, r, a)
        invariant CopiedOut(tab, own, old(mem), mem, r, dstva, src[..n]) && WritesOnly(own, old(mem), mem, r)
      {
        ghost var mem1 := mem;
        var m := CopyoutPage(r, dstva + done, src[done..]);
        if m == 0 {
          return false, n;
        }
        CopiedMore(tab, own, old(mem), mem1, mem, r, dstva, src, n, m);
        done, n := done + m, n + m;
      }
      return true, n;
    }

    /** One turn of the loop of copyout; 0 is the error return. */
    method CopyoutPage(r: int, va: int, src: seq<int>) returns (m: int)
      requires Valid() && IsRoot(own, r) && 0 <= va && |src| > 0
      modifies this`freelist, this`free, this`held, this`mem, this`tab, this`own
      ensures Valid() && tab == old(tab) && own == old(own) && held == old(held)
      ensures m == 0 <==> !CanWrite(tab, r, va)
      ensures 0 <= m <= |src| && (m == 0 ==> mem == old(mem)) && (m == 0 || m == |src| || (va + m) % 4096 == 0)
      ensures forall a {:trigger CanWrite(tab, r, a)} :: va <= a < va + m ==> CanWrite(tab, r, a)
      ensures CopiedOut(tab, own, old(mem), mem, r, va, src[..m]) && WritesOnly(own, old(mem), mem, r)
    {
      var va0 := RoundDown(va);
      InPage(va);
      if va0 >= MAXVA {
        return 0;
      }
      var b := Walk(r, va0 / PGSIZE, false);
      var e := if b == 0 then 0 else tab[b][I0(va0 / PGSIZE)];
      assert e == Leaf(tab, r, va / 4096);
      if b == 0 || !IsValid(e) || !IsUser(e) || !IsWritable(e) {
        return 0;
      }
      ReadableFrame(tab, own, r, va);
      var pa := Pa(e);
      m := PGSIZE - (va - va0);
      if m > |src| {
        m := |src|;
      }
      PatchedAll(tab, own, mem, r, va, pa, src[..m]);
      mem := mem[pa := Patch(mem[pa], va - va0, src[..m])];
    }

    method Copyin(r: int, srcva: int, len: int) returns (ok: bool, dst: seq<int>)
      requires Valid() && IsRoot(own, r) && 0 <= srcva && 0 <= len
      modifies this`freelist, this`free, this`held, this`mem, this`tab, this`own
      ensures Valid() && tab == old(tab) && own == old(own) && mem == old(mem) && held == old(held)
      ensures |dst| <= len && (ok <==> |dst| == len) && (!ok ==> !CanRead(tab, r, srcva + |dst|))
      ensures ReadIn(tab, mem, r, srcva, dst)
    {
      dst := [];
      while |dst| < len
        invariant Valid() && tab == old(tab) && own == old(own) && mem == old(mem) && held == old(held)
        invariant |dst| <= len && ReadIn(tab, mem, r, srcva, dst)
        decreases len - |dst|
      {
        var chunk := CopyinPage(r, srcva + |dst|, len - |dst|);
        if chunk == [] {
          return false, dst;
        }
        ReadMore(tab, mem, r, srcva, dst, chunk);
        dst := dst + chunk;
      }
      return true, dst;
    }

    /** The loop body of copyin: the bytes up to the end of the page, none if it is not mapped. */
    method CopyinPage(r: int, va: int, len: int) returns (chunk: seq<int>)
      requires Valid() && IsRoot(own, r) && 0 <= va && 0 < len
      modifies this`freelist, this`free, this`held, this`mem, this`tab, this`own
      ensures Valid() && tab == old(tab) && own == old(own) && mem == old(mem) && held == old(held)
      ensures |chunk| <= len && (chunk == [] <==> !CanRead(tab, r, va)) && ReadIn(tab, mem, r, va, chunk)
    {
      var va0 := RoundDown(va);
      InPage(va);
      var pa0 := Walkaddr(r, va0);
      if pa0 == 0 {
        return [];
      }
      var n := PGSIZE - (va - va0);
      if n > len {
        n := len;
      }
      chunk := mem[pa0][va - va0..va - va0 + n];
      ReadChunk(tab, mem, r, va, pa0, n);
    }

    method Copyinstr(r: int, srcva: int, max: int) returns (ok: bool, dst: seq<int>)
      requires Valid() && IsRoot(own, r) && 0 <= srcva && 0 <= max
      modifies this`freelist, this`free, this`held, this`mem, this`tab, this`own
      ensures Valid() && tab == old(tab) && own == old(own) && mem == old(mem) && held == old(held)
      ensures StringIn(tab, mem, r, srcva, max, ok, dst)
      ensures ok <==> HasString(tab, mem, r, srcva, max)
    {
      dst := [];
      ok := false;
      while !ok && |dst| < max
        invariant Valid() && tab == old(tab) && own == old(own) && mem == old(mem) && held == old(held)
        invariant |dst| <= max && ReadIn(tab, mem, r, srcva, dst) && EndsIf(ok, dst)
        decreases !ok, max - |dst|
      {
        var mapped, got, chunk := StringPage(r, srcva + |dst|, max - |dst|);
        if !mapped {
          break;
        }
        StringMore(tab, mem, r, srcva, dst, got, chunk);
        dst := dst + chunk;
        ok := got;
      }
      StringInMeans(tab, mem, r, srcva, max, ok, dst);
    }

    /** One turn of the outer loop of copyinstr. */
    method StringPage(r: int, va: int, max: int) returns (mapped: bool, got: bool, chunk: seq<int>)
      requires Valid() && IsRoot(own, r) && 0 <= va && 0 < max
      modifies this`freelist, this`free, this`held, this`mem, this`tab, this`own
      ensures Valid() && tab == old(tab) && own == old(own) && mem == old(mem) && held == old(held)
      ensures mapped <==> CanRead(tab, r, va)
      ensures mapped ==> 0 < |chunk| <= max && ReadIn(tab, mem, r, va, chunk) && EndsIf(got, chunk)
    {
      var va0 := RoundDown(va);
      assert va0 / 4096 == va / 4096 && (va0 < MAXVA <==> va < MAXVA);
      var pa0 := Walkaddr(r, va0);
      mapped, got, chunk := pa0 != 0, false, [];
      if mapped {
        var n := PGSIZE - (va - va0);
        if n > max {
          n := max;
        }
        got, chunk := ScanPage(mem[pa0], va - va0, n);
        ReadChunk(tab, mem, r, va, pa0, |chunk|);
      }
    }

    /** The inner loop of copyinstr: copy up to a NUL, at most `n` bytes. */
    method ScanPage(page: seq<int>, off: int, n: int) returns (got: bool, chunk: seq<int>)
      requires 0 <= off && 0 < n && off + n <= |page|
      ensures 0 < |chunk| <= n && chunk == page[off..off + |chunk|]
      ensures EndsIf(got, chunk) && (!got ==> |chunk| == n)
    {
      chunk := [];
      var i := 0;
      while i < n
        invariant 0 <= i <= n && chunk == page[off..off + i] && NoNul(chunk)
      {
        chunk := chunk + [page[off + i]];
        assert chunk[..|chunk| - 1] == page[off..off + i];
        if page[off + i] == 0 {
          return true, chunk;
        }
        i := i + 1;
      }
      return false, chunk;
    }

    /** What is copied out is what copying in gives back. */
    method CopyRoundTrip(r: int, va: int, src: seq<int>) returns (ok: bool, dst: seq<int>)
      requires Valid() && IsRoot(own, r) && 0 <= va
      modifies this`freelist, this`free, this`held, this`mem, this`tab, this`own
      ensures Valid() && (ok ==> dst == src)
      ensures ok <==> forall a {:trigger CanWrite(tab, r, a)} :: va <= a < va + |src| ==> CanWrite(tab, r, a)
    {
      ghost var n;
      ok, n := Copyout(r, va, src);
      dst := [];
      if ok {
        var back;
        back, dst := Copyin(r, va, |src|);
        assert src[..n] == src;
        assert |dst| < |src| ==> CanWrite(tab, r, va + |dst|);
        forall k | 0 <= k < |src|
          ensures dst[k] == src[k]
        {
          assert CanRead(tab, r, va + k);
        }
      }
    }
  }
}
