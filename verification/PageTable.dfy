/**
 Sv39 page tables as kernel/vm.c uses them: page-table entries and virtual
 addresses as numbers, taken apart with the shifts and masks of kernel/riscv.h
 (a shift is a division by a power of two).
 */
module Sv39 {
  import opened Division

  const PGSIZE: int := 4096
  const MAXVA: int := 0x40_0000_0000

  /** Page numbers below MAXVA. */
  const MAXVPN: int := 0x400_0000

  /** The pages below TRAPFRAME; the two topmost are the trapframe and the trampoline. */
  const USERVPN: int := 0x3ff_fffe

  /** PTE_V, PTE_W and PTE_U. */
  predicate IsValid(e: int) { e % 2 == 1 }
  predicate IsWritable(e: int) { (e / 4) % 2 == 1 }
  predicate IsUser(e: int) { (e / 16) % 2 == 1 }

  /** None of PTE_R, PTE_W, PTE_X: the entry of a lower-level table. */
  predicate IsInner(e: int) { (e / 2) % 8 == 0 }

  function Flags(e: int): int { e % 1024 }

  /** PTE2PA and PA2PTE. */
  function Pa(e: int): int { e / 1024 * 4096 }
  function Pte(pa: int): int { pa / 4096 * 1024 }

  /** PX(level, va) for the page number of va. */
  function I2(v: int): int { v / 262144 % 512 }
  function I1(v: int): int { v / 512 % 512 }
  function I0(v: int): int { v % 512 }

  function RoundDown(a: int): int { a / 4096 * 4096 }
  function RoundUp(a: int): int { (a + 4095) / 4096 * 4096 }

  /** The flag bits of an entry do not depend on its address part. */
  lemma LowBits(q: int, f: int)
    requires 0 <= f < 1024
    ensures IsValid(q * 1024 + f) == IsValid(f) && IsInner(q * 1024 + f) == IsInner(f)
    ensures IsWritable(q * 1024 + f) == IsWritable(f) && IsUser(q * 1024 + f) == IsUser(f)
  {
    Shifted(q * 64, f, 2, 8);
    Shifted(q * 128, f, 4, 2);
    Shifted(q * 32, f, 16, 2);
  }

  /** PTE_V, PTE_R, PTE_W, PTE_X and PTE_U of kernel/riscv.h, put together. */
  function FlagSum(v: bool, r: bool, w: bool, x: bool, u: bool): int {
    (if v then 1 else 0) + (if r then 2 else 0) + (if w then 4 else 0) + (if x then 8 else 0) + (if u then 16 else 0)
  }

  lemma FlagSumBits(v: bool, r: bool, w: bool, x: bool, u: bool)
    ensures var f := FlagSum(v, r, w, x, u);
            IsValid(f) == v && IsWritable(f) == w && IsUser(f) == u && (IsInner(f) <==> !r && !w && !x)
  {
  }

  /** In an entry for any page each test finds its own flag. */
  lemma FlagBits(q: int, v: bool, r: bool, w: bool, x: bool, u: bool)
    ensures var e := q * 1024 + FlagSum(v, r, w, x, u);
            && IsValid(e) == v && IsWritable(e) == w && IsUser(e) == u && (IsInner(e) <==> !r && !w && !x)
            && Pa(e) == q * 4096
  {
    var f := FlagSum(v, r, w, x, u);
    FlagSumBits(v, r, w, x, u);
    LowBits(q, f);
    DivOf(q * 1024 + f, 1024, q, f);
  }

  /** The flags of an entry decide what it allows. */
  lemma FlagsDecide(e: int)
    ensures IsValid(e) == IsValid(Flags(e)) && IsWritable(e) == IsWritable(Flags(e)) && IsUser(e) == IsUser(Flags(e))
  {
    LowBits(e / 1024, Flags(e));
  }

  /** The entry that walk writes for a new table, and the one that mappages writes. */
  lemma PteRoundTrip(pa: int, flags: int)
    requires 0 <= pa && pa % 4096 == 0 && 0 <= flags < 1024
    ensures var e := Pte(pa) + flags; Pa(e) == pa && Flags(e) == flags
    ensures var e := Pte(pa) + flags; IsValid(e) == IsValid(flags) && IsInner(e) == IsInner(flags)
    ensures var e := Pte(pa) + flags; IsWritable(e) == IsWritable(flags) && IsUser(e) == IsUser(flags)
  {
    DivOf(Pte(pa) + flags, 1024, pa / 4096, flags);
    LowBits(pa / 4096, flags);
  }

  /** The index split is injective below MAXVA: a page is found by its three indices. */
  lemma IndexSplit(v: int, w: int)
    requires 0 <= v < MAXVPN && 0 <= w < MAXVPN
    ensures I2(v) == I2(w) && I1(v) == I1(w) && I0(v) == I0(w) ==> v == w
  {
    assert v == v / 512 * 512 + v % 512 && v / 512 == v / 512 / 512 * 512 + v / 512 % 512 &&
        v / 512 / 512 == v / 262144;
    assert w == w / 512 * 512 + w % 512 && w / 512 == w / 512 / 512 * 512 + w / 512 % 512 &&
        w / 512 / 512 == w / 262144;
  }
}

/**
 The three-level tree in physical memory, the map from pages to entries that it
 represents, and who owns each physical page.
 */
module PageTable {
  import opened Sv39

  /** What a managed physical page is used for, besides being free or held by other kernel code. */
  datatype Role =
    | Top(root: int)
    | Mid(root: int, i: int)
    | Low(root: int, i: int, j: int)
    | Frame(root: int, v: int)

  type Tables = map<int, seq<int>>

  /** Entry `k` of the table page `p`; 0 if there is none. */
  function Get(tab: Tables, p: int, k: int): int {
    if p in tab && 0 <= k < |tab[p]| then tab[p][k] else 0
  }

  function Put(tab: Tables, p: int, k: int, e: int): Tables
    requires p in tab && 0 <= k < |tab[p]|
  {
    tab[p := tab[p][k := e]]
  }

  /** The page-table page that walk(.., 0) is in after level 2 and after level 1; 0 for none. */
  function MidOf(tab: Tables, r: int, i: int): int {
    var e := Get(tab, r, i);
    if IsValid(e) then Pa(e) else 0
  }

  function LowOf(tab: Tables, r: int, i: int, j: int): int {
    var a := MidOf(tab, r, i);
    var e := Get(tab, a, j);
    if a != 0 && IsValid(e) then Pa(e) else 0
  }

  /** The map that the tree represents: the leaf entry of page `v`, 0 if there is no table for it. */
  function Leaf(tab: Tables, r: int, v: int): int {
    var b := LowOf(tab, r, I2(v), I1(v));
    if b == 0 then 0 else Get(tab, b, I0(v))
  }

  predicate IsPtr(e: int) {
    IsValid(e) && IsInner(e) && Flags(e) == 1
  }

  /** Pages are aligned and not at address 0. */
  predicate IsPage(p: int) {
    0 < p && p % 4096 == 0
  }

  predicate IsIndex(k: int) {
    0 <= k < 512
  }

  /**
   The page-table pages form disjoint three-level trees: every table page has
   the role that the entry pointing to it says, and every entry of an upper
   table is 0 or points to a page with that role.
   */
  ghost predicate Trees(tab: Tables, own: map<int, Role>) {
    && (forall p {:trigger p in tab} :: p in tab ==> p in own && !own[p].Frame?)
    && (forall p {:trigger RoleOk(tab, own, p)} :: p in own ==> RoleOk(tab, own, p))
    && (forall p, k {:trigger EntryOk(tab, own, p, k)} :: p in own && IsIndex(k) ==> EntryOk(tab, own, p, k))
  }

  predicate RoleOk(tab: Tables, own: map<int, Role>, p: int)
    requires p in own
  {
    && IsPage(p)
    && match own[p]
       case Top(r) => r == p && p in tab && |tab[p]| == 512
       case Mid(r, i) => p in tab && |tab[p]| == 512 && IsIndex(i) && i < 256 && r in own && own[r] == Top(r) &&
           MidOf(tab, r, i) == p
       case Low(r, i, j) => p in tab && |tab[p]| == 512 && IsIndex(i) && i < 256 && IsIndex(j) && r in own &&
           own[r] == Top(r) && LowOf(tab, r, i, j) == p
       case Frame(r, v) => 0 <= v < USERVPN && r in own && own[r] == Top(r)
  }

  predicate EntryOk(tab: Tables, own: map<int, Role>, p: int, k: int)
    requires p in own
  {
    var e := Get(tab, p, k);
    match own[p]
    case Top(r) => e == 0 || (IsPtr(e) && Pa(e) in own && own[Pa(e)] == Mid(r, k))
    case Mid(r, i) => e == 0 || (IsPtr(e) && Pa(e) in own && own[Pa(e)] == Low(r, i, k))
    case _ => true
  }

  predicate IsRoot(own: map<int, Role>, r: int) {
    r in own && own[r] == Top(r)
  }

  /** A leaf entry is 0, or it is valid and not mistakable for an inner one, and a user page owns its frame. */
  predicate LeafOk(own: map<int, Role>, r: int, v: int, e: int) {
    || e == 0
    || (&& IsValid(e)
        && !IsInner(e)
        && if v < USERVPN then Pa(e) in own && own[Pa(e)] == Frame(r, v) else !IsUser(e))
  }

  predicate FrameOk(tab: Tables, own: map<int, Role>, p: int)
    requires p in own && own[p].Frame?
  {
    var e := Leaf(tab, own[p].root, own[p].v);
    IsValid(e) && Pa(e) == p
  }

  /** User pages own their frames, one each, and only user pages are accessible to the user. */
  ghost predicate Frames(tab: Tables, own: map<int, Role>) {
    && (forall p {:trigger FrameOk(tab, own, p)} :: p in own && own[p].Frame? ==> FrameOk(tab, own, p))
    && (forall r, v {:trigger LeafOk(own, r, v, Leaf(tab, r, v))} :: IsRoot(own, r) && 0 <= v < MAXVPN ==>
          LeafOk(own, r, v, Leaf(tab, r, v)))
  }

  /** Walking down from a root meets pages of the expected roles. */
  lemma WalkRoles(tab: Tables, own: map<int, Role>, r: int, i: int, j: int)
    requires Trees(tab, own) && r in own && own[r] == Top(r) && IsIndex(i) && IsIndex(j)
    ensures var a := MidOf(tab, r, i); a != 0 ==> a in own && own[a] == Mid(r, i) && IsPage(a)
    ensures var a := MidOf(tab, r, i); a == 0 ==> Get(tab, r, i) == 0
    ensures var b := LowOf(tab, r, i, j); b != 0 ==> b in own && own[b] == Low(r, i, j) && IsPage(b)
    ensures var a, b := MidOf(tab, r, i), LowOf(tab, r, i, j); a != 0 && b == 0 ==> Get(tab, a, j) == 0
  {
    assert RoleOk(tab, own, r) && EntryOk(tab, own, r, i);
    var e := Get(tab, r, i);
    if e != 0 {
      var a := Pa(e);
      assert RoleOk(tab, own, a);
      assert EntryOk(tab, own, a, j);
      var e' := Get(tab, a, j);
      if e' != 0 {
        assert RoleOk(tab, own, Pa(e'));
      }
    }
  }

  /** All trees represent the same maps, but for page `v` of root `r`. */
  ghost predicate SameBut(tab: Tables, tab': Tables, own: map<int, Role>, r: int, v: int) {
    forall r', v' {:trigger Leaf(tab', r', v')} :: IsRoot(own, r') && 0 <= v' < MAXVPN && (r' != r || v' != v) ==>
      Leaf(tab', r', v') == Leaf(tab, r', v')
  }

  ghost predicate SameLeaves(tab: Tables, tab': Tables, own: map<int, Role>) {
    forall r, v {:trigger Leaf(tab', r, v)} :: IsRoot(own, r) && 0 <= v < MAXVPN ==> Leaf(tab', r, v) == Leaf(tab, r, v)
  }

  /** A new, zeroed table page. */
  function Blank(): seq<int> {
    seq(512, _ => 0)
  }

  /** A new page's entries are 0, one entry points to it, and no other entry changes. */
  lemma GetAdded(tab: Tables, a: int, j: int, n: int, e: int, tab': Tables, p: int, k: int)
    requires a in tab && 0 <= j < |tab[a]| && n !in tab && tab' == Put(tab[n := Blank()], a, j, e)
    ensures Get(tab', p, k) == if p == n then 0 else if p == a && k == j then e else Get(tab, p, k)
  {
  }

  /** The walk after walk's allocation at level 2. */
  lemma AddMidWalk(tab: Tables, own: map<int, Role>, r: int, i: int, n: int, tab': Tables, r': int, i': int, j': int)
    requires Trees(tab, own) && IsRoot(own, r) && IsIndex(i) && IsPage(n) && n !in own && Get(tab, r, i) == 0
    requires r in tab && |tab[r]| == 512 && tab' == Put(tab[n := Blank()], r, i, Pte(n) + 1)
    requires IsRoot(own, r') && IsIndex(i') && IsIndex(j')
    ensures MidOf(tab', r', i') == if r' == r && i' == i then n else MidOf(tab, r', i')
    ensures LowOf(tab', r', i', j') == LowOf(tab, r', i', j')
  {
    PteRoundTrip(n, 1);
    WalkRoles(tab, own, r', i', j');
    GetAdded(tab, r, i, n, Pte(n) + 1, tab', r', i');
    GetAdded(tab, r, i, n, Pte(n) + 1, tab', MidOf(tab', r', i'), j');
  }

  /** walk's allocation at level 2: a blank page in an empty entry of the top table. */
  lemma AddMid(tab: Tables, own: map<int, Role>, r: int, i: int, n: int, tab': Tables, own': map<int, Role>)
    requires Trees(tab, own) && IsRoot(own, r) && IsIndex(i) && i < 256 && IsPage(n) && n !in own && Get(tab, r, i) == 0
    requires r in tab && |tab[r]| == 512
    requires tab' == Put(tab[n := Blank()], r, i, Pte(n) + 1) && own' == own[n := Mid(r, i)]
    ensures Trees(tab', own') && SameLeaves(tab, tab', own)
  {
    PteRoundTrip(n, 1);
    assert n !in tab && n != r;
    forall r', i', j' | IsRoot(own, r') && IsIndex(i') && IsIndex(j')
      ensures MidOf(tab', r', i') == if r' == r && i' == i then n else MidOf(tab, r', i')
      ensures LowOf(tab', r', i', j') == LowOf(tab, r', i', j')
    {
      AddMidWalk(tab, own, r, i, n, tab', r', i', j');
    }
    forall p | p in own'
      ensures RoleOk(tab', own', p)
    {
      if p != n {
        assert RoleOk(tab, own, p);
        assert IsIndex(0);
      }
    }
    forall p, k | p in own' && IsIndex(k)
      ensures EntryOk(tab', own', p, k)
    {
      GetAdded(tab, r, i, n, Pte(n) + 1, tab', p, k);
      if p != n {
        assert EntryOk(tab, own, p, k);
      }
    }
    forall r', v | IsRoot(own, r') && 0 <= v < MAXVPN
      ensures Leaf(tab', r', v) == Leaf(tab, r', v)
    {
      WalkRoles(tab, own, r', I2(v), I1(v));
      GetAdded(tab, r, i, n, Pte(n) + 1, tab', LowOf(tab, r', I2(v), I1(v)), I0(v));
    }
  }

  /** The walk after walk's allocation at level 1. */
  lemma AddLowWalk(tab: Tables, own: map<int, Role>, r: int, i: int, j: int, a: int, n: int, tab': Tables, r': int,
      i': int, j': int)
    requires Trees(tab, own) && IsRoot(own, r) && IsIndex(i) && IsIndex(j) && IsPage(n) && n !in own
    requires a in own && own[a] == Mid(r, i) && a in tab && |tab[a]| == 512 && Get(tab, a, j) == 0
    requires tab' == Put(tab[n := Blank()], a, j, Pte(n) + 1)
    requires IsRoot(own, r') && IsIndex(i') && IsIndex(j')
    ensures MidOf(tab', r', i') == MidOf(tab, r', i')
    ensures LowOf(tab', r', i', j') == if r' == r && i' == i && j' == j then n else LowOf(tab, r', i', j')
  {
    PteRoundTrip(n, 1);
    assert RoleOk(tab, own, a);
    WalkRoles(tab, own, r', i', j');
    GetAdded(tab, a, j, n, Pte(n) + 1, tab', r', i');
    GetAdded(tab, a, j, n, Pte(n) + 1, tab', MidOf(tab, r', i'), j');
  }

  /** walk's allocation at level 1. */
  lemma AddLow(tab: Tables, own: map<int, Role>, r: int, i: int, j: int, a: int, n: int, tab': Tables,
      own': map<int, Role>)
    requires Trees(tab, own) && IsRoot(own, r) && IsIndex(i) && IsIndex(j) && IsPage(n) && n !in own
    requires a in own && own[a] == Mid(r, i) && a in tab && |tab[a]| == 512 && Get(tab, a, j) == 0
    requires tab' == Put(tab[n := Blank()], a, j, Pte(n) + 1) && own' == own[n := Low(r, i, j)]
    ensures Trees(tab', own') && SameLeaves(tab, tab', own)
  {
    PteRoundTrip(n, 1);
    assert n !in tab && n != a && RoleOk(tab, own, a);
    forall r', i', j' | IsRoot(own, r') && IsIndex(i') && IsIndex(j')
      ensures MidOf(tab', r', i') == MidOf(tab, r', i')
      ensures LowOf(tab', r', i', j') == if r' == r && i' == i && j' == j then n else LowOf(tab, r', i', j')
    {
      AddLowWalk(tab, own, r, i, j, a, n, tab', r', i', j');
    }
    forall p | p in own'
      ensures RoleOk(tab', own', p)
    {
      if p != n {
        assert RoleOk(tab, own, p);
        assert IsIndex(0);
      }
    }
    forall p, k | p in own' && IsIndex(k)
      ensures EntryOk(tab', own', p, k)
    {
      if p != n {
        assert RoleOk(tab, own, p) && EntryOk(tab, own, p, k);
      }
    }
    forall r', v | IsRoot(own, r') && 0 <= v < MAXVPN
      ensures Leaf(tab', r', v) == Leaf(tab, r', v)
    {
      AddLowLeaf(tab, own, r, i, j, a, n, tab', r', v);
    }
  }

  lemma AddLowLeaf(tab: Tables, own: map<int, Role>, r: int, i: int, j: int, a: int, n: int, tab': Tables, r': int,
      v: int)
    requires Trees(tab, own) && IsRoot(own, r) && IsIndex(i) && IsIndex(j) && IsPage(n) && n !in own
    requires a in own && own[a] == Mid(r, i) && a in tab && |tab[a]| == 512 && Get(tab, a, j) == 0
    requires tab' == Put(tab[n := Blank()], a, j, Pte(n) + 1)
    requires IsRoot(own, r')
    ensures Leaf(tab', r', v) == Leaf(tab, r', v)
  {
    AddLowWalk(tab, own, r, i, j, a, n, tab', r', I2(v), I1(v));
    WalkRoles(tab, own, r', I2(v), I1(v));
    assert n !in tab && n != a;
    WalkRoles(tab, own, r, i, j);
    assert RoleOk(tab, own, a);
  }

  /** Writing a leaf entry changes one page of one map, and no tree. */
  lemma SetLeaf(tab: Tables, own: map<int, Role>, r: int, v: int, b: int, e: int, tab': Tables)
    requires Trees(tab, own) && IsRoot(own, r) && 0 <= v < MAXVPN
    requires b != 0 && b == LowOf(tab, r, I2(v), I1(v)) && b in tab && |tab[b]| == 512
    requires tab' == Put(tab, b, I0(v), e)
    ensures Trees(tab', own) && SameBut(tab, tab', own, r, v) && Leaf(tab', r, v) == e
  {
    WalkRoles(tab, own, r, I2(v), I1(v));
    assert own[b] == Low(r, I2(v), I1(v));
    forall r', i', j' | IsRoot(own, r') && IsIndex(i') && IsIndex(j')
      ensures MidOf(tab', r', i') == MidOf(tab, r', i')
      ensures LowOf(tab', r', i', j') == LowOf(tab, r', i', j')
    {
      WalkRoles(tab, own, r', i', j');
    }
    forall p | p in own
      ensures RoleOk(tab', own, p)
    {
      assert RoleOk(tab, own, p);
    }
    forall p, k | p in own && IsIndex(k)
      ensures EntryOk(tab', own, p, k)
    {
      assert EntryOk(tab, own, p, k);
    }
    forall r', v' | IsRoot(own, r') && 0 <= v' < MAXVPN && (r' != r || v' != v)
      ensures Leaf(tab', r', v') == Leaf(tab, r', v')
    {
      WalkRoles(tab, own, r', I2(v'), I1(v'));
      IndexSplit(v, v');
    }
  }

  /** A frame joins: page `v` of root `r`, unmapped so far, gets the held page `f`. */
  lemma AddFrame(tab: Tables, own: map<int, Role>, r: int, v: int, f: int, e: int, tab': Tables, own': map<int, Role>)
    requires Trees(tab, own) && Frames(tab, own) && Trees(tab', own) && IsRoot(own, r) && 0 <= v < MAXVPN
    requires SameBut(tab, tab', own, r, v) && Leaf(tab', r, v) == e && IsValid(e) && Pa(e) == f && !IsInner(e) &&
      !IsValid(Leaf(tab, r, v))
    requires if v < USERVPN then IsPage(f) && f !in own && own' == own[f := Frame(r, v)] else own' == own && !IsUser(e)
    ensures Trees(tab', own') && Frames(tab', own')
  {
    forall p | p in own'
      ensures RoleOk(tab', own', p)
    {
      if p in own {
        assert RoleOk(tab', own, p);
      }
    }
    forall p, k | p in own' && IsIndex(k)
      ensures EntryOk(tab', own', p, k)
    {
      if p in own {
        assert EntryOk(tab', own, p, k);
      }
    }
    forall p | p in own' && own'[p].Frame?
      ensures FrameOk(tab', own', p)
    {
      if p in own {
        assert RoleOk(tab', own, p) && FrameOk(tab, own, p);
        assert own[p].root != r || own[p].v != v;
      }
    }
    forall r', v' | IsRoot(own', r') && 0 <= v' < MAXVPN
      ensures LeafOk(own', r', v', Leaf(tab', r', v'))
    {
      if r' != r || v' != v {
        assert Leaf(tab', r', v') == Leaf(tab, r', v');
        assert LeafOk(own, r', v', Leaf(tab, r', v'));
      }
    }
  }

  /** A frame leaves: page `v` of root `r` is unmapped. */
  lemma DropFrame(tab: Tables, own: map<int, Role>, r: int, v: int, tab': Tables, own': map<int, Role>)
    requires Trees(tab, own) && Frames(tab, own) && Trees(tab', own) && IsRoot(own, r) && 0 <= v < MAXVPN
    requires SameBut(tab, tab', own, r, v) && IsValid(Leaf(tab, r, v)) && Leaf(tab', r, v) == 0
    requires own' == if v < USERVPN then own - {Pa(Leaf(tab, r, v))} else own
    ensures v < USERVPN ==> Pa(Leaf(tab, r, v)) in own && own[Pa(Leaf(tab, r, v))] == Frame(r, v)
    ensures Trees(tab', own') && Frames(tab', own')
  {
    var f := Pa(Leaf(tab, r, v));
    assert LeafOk(own, r, v, Leaf(tab, r, v));
    assert v < USERVPN ==> f in own && own[f] == Frame(r, v);
    forall p | p in own'
      ensures RoleOk(tab', own', p)
    {
      assert RoleOk(tab', own, p);
    }
    forall p, k | p in own' && IsIndex(k)
      ensures EntryOk(tab', own', p, k)
    {
      assert EntryOk(tab', own, p, k);
    }
    forall p | p in own' && own'[p].Frame?
      ensures FrameOk(tab', own', p)
    {
      assert RoleOk(tab', own, p) && FrameOk(tab, own, p);
      assert own[p] != Frame(r, v);
    }
    forall r', v' | IsRoot(own', r') && 0 <= v' < MAXVPN
      ensures LeafOk(own', r', v', Leaf(tab', r', v'))
    {
      if r' != r || v' != v {
        assert Leaf(tab', r', v') == Leaf(tab, r', v');
        assert LeafOk(own, r', v', Leaf(tab, r', v'));
      }
    }
  }

  /** Adding table pages changes no leaf, so frames stay. */
  lemma FramesSame(tab: Tables, own: map<int, Role>, tab': Tables, n: int, role: Role)
    requires Frames(tab, own) && SameLeaves(tab, tab', own) && n !in own && Trees(tab, own)
    requires role.Mid? || role.Low? || (role == Top(n) && forall v {:trigger Leaf(tab', n, v)} :: Leaf(tab', n, v) == 0)
    ensures Frames(tab', own[n := role])
  {
    var own' := own[n := role];
    forall p | p in own' && own'[p].Frame?
      ensures FrameOk(tab', own', p)
    {
      assert RoleOk(tab, own, p) && FrameOk(tab, own, p);
    }
    forall r, v | IsRoot(own', r) && 0 <= v < MAXVPN
      ensures LeafOk(own', r, v, Leaf(tab', r, v))
    {
      if r != n {
        assert LeafOk(own, r, v, Leaf(tab, r, v));
      }
    }
  }

  /** uvmcreate: an empty tree. */
  lemma AddTop(tab: Tables, own: map<int, Role>, n: int, tab': Tables, own': map<int, Role>)
    requires Trees(tab, own) && Frames(tab, own) && IsPage(n) && n !in own
    requires tab' == tab[n := Blank()] && own' == own[n := Top(n)]
    ensures Trees(tab', own') && Frames(tab', own') && SameLeaves(tab, tab', own)
    ensures forall v {:trigger Leaf(tab', n, v)} :: Leaf(tab', n, v) == 0
  {
    assert n !in tab;
    forall r', i', j' | IsRoot(own, r') && IsIndex(i') && IsIndex(j')
      ensures MidOf(tab', r', i') == MidOf(tab, r', i')
      ensures LowOf(tab', r', i', j') == LowOf(tab, r', i', j')
    {
      WalkRoles(tab, own, r', i', j');
    }
    forall p | p in own'
      ensures RoleOk(tab', own', p)
    {
      if p != n {
        assert RoleOk(tab, own, p);
      }
    }
    forall p, k | p in own' && IsIndex(k)
      ensures EntryOk(tab', own', p, k)
    {
      if p != n {
        assert EntryOk(tab, own, p, k);
      }
    }
    forall r', v | IsRoot(own, r') && 0 <= v < MAXVPN
      ensures Leaf(tab', r', v) == Leaf(tab, r', v)
    {
      WalkRoles(tab, own, r', I2(v), I1(v));
    }
    FramesSame(tab, own, tab', n, Top(n));
  }
}
