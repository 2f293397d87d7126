/** The subtree of page-table pages below a page, for freewalk. */
module Subtree {
  import opened Division
  import opened Sv39
  import opened PageTable

  function Level(role: Role): int {
    match role
    case Top(_) => 2
    case Mid(_, _) => 1
    case Low(_, _, _) => 0
    case Frame(_, _) => -1
  }

  /** The role of the page that entry `k` points to. */
  function Child(role: Role, k: int): Role {
    match role
    case Top(r) => Mid(r, k)
    case Mid(r, i) => Low(r, i, k)
    case _ => role
  }

  /** A page with role `x` is in the subtree of the page with role `role`. */
  predicate Below(role: Role, x: Role) {
    match role
    case Top(r) => !x.Frame? && x.root == r
    case Mid(r, i) => (x.Mid? || x.Low?) && x.root == r && x.i == i
    case _ => x == role
  }

  /** It is in the subtree of one of the first `n` entries. */
  predicate BelowFirst(role: Role, n: int, x: Role) {
    match role
    case Top(r) => (x.Mid? || x.Low?) && x.root == r && x.i < n
    case Mid(r, i) => x.Low? && x.root == r && x.i == i && x.j < n
    case _ => false
  }

  lemma BelowSteps(tab: Tables, own: map<int, Role>, role: Role, n: int, q: int)
    requires Trees(tab, own) && q in own && IsIndex(n) && !role.Frame?
    ensures !BelowFirst(role, 0, own[q])
    ensures Level(role) > 0 ==>
      (BelowFirst(role, n + 1, own[q]) <==> BelowFirst(role, n, own[q]) || Below(Child(role, n), own[q]))
    ensures Below(role, own[q]) && own[q] != role ==> BelowFirst(role, 512, own[q])
    ensures own[q] == role || BelowFirst(role, 512, own[q]) ==> Below(role, own[q])
    ensures own[q] == role ==> !BelowFirst(role, n, own[q])
  {
    assert RoleOk(tab, own, q);
  }

  /** Below an entry that is 0 there is nothing. */
  lemma NothingBelow(tab: Tables, own: map<int, Role>, p: int, k: int, q: int)
    requires Trees(tab, own) && p in own && q in own && IsIndex(k) && Level(own[p]) > 0 && Get(tab, p, k) == 0
    ensures !Below(Child(own[p], k), own[q])
  {
    assert RoleOk(tab, own, p) && RoleOk(tab, own, q);
  }

  /** Only one page has a given table role. */
  lemma RoleIsUnique(tab: Tables, own: map<int, Role>, p: int, q: int)
    requires Trees(tab, own) && p in own && q in own && own[p] == own[q] && !own[p].Frame?
    ensures p == q
  {
    assert RoleOk(tab, own, p) && RoleOk(tab, own, q);
  }

  /** The level-0 tables of root `r` are blank. */
  ghost predicate LowsBlank(tab: Tables, own: map<int, Role>, r: int) {
    forall q, k {:trigger Get(tab, q, k)} :: q in own && own[q].Low? && own[q].root == r ==> Get(tab, q, k) == 0
  }

  lemma Compose(i: int, j: int, k: int)
    requires 0 <= i < 256 && IsIndex(j) && IsIndex(k)
    ensures var v := i * 262144 + j * 512 + k; 0 <= v < MAXVPN && I2(v) == i && I1(v) == j && I0(v) == k
  {
    var v := i * 262144 + j * 512 + k;
    DivOf(v, 512, i * 512 + j, k);
    DivOf(v, 262144, i, j * 512 + k);
  }

  /** When no page is mapped, the level-0 tables are blank. */
  lemma BlankWhenUnmapped(tab: Tables, own: map<int, Role>, r: int)
    requires Trees(tab, own)
    requires forall v {:trigger Leaf(tab, r, v)} :: 0 <= v < MAXVPN ==> Leaf(tab, r, v) == 0
    ensures LowsBlank(tab, own, r)
  {
    forall q, k | q in own && own[q].Low? && own[q].root == r
      ensures Get(tab, q, k) == 0
    {
      assert RoleOk(tab, own, q);
      if IsIndex(k) {
        Compose(own[q].i, own[q].j, k);
        assert Leaf(tab, r, own[q].i * 262144 + own[q].j * 512 + k) == 0;
      }
    }
  }

  /** The pages of `own` other than those in the subtree of `role` are left, as they were. */
  ghost predicate Pruned(own: map<int, Role>, own': map<int, Role>, tab: Tables, tab': Tables, role: Role) {
    forall q {:trigger q in own'} {:trigger q in tab'} ::
      && (q in own' <==> q in own && !Below(role, own[q]))
      && (q in own' ==> own'[q] == own[q] && (q in tab' <==> q in tab) && (q in tab ==> tab'[q] == tab[q]))
      && (q in tab' ==> q in own')
  }

  /** The walks from the other roots when one tree is gone. */
  lemma PrunedWalk(tab: Tables, own: map<int, Role>, tab': Tables, own': map<int, Role>, r: int, r': int, i: int,
      j: int)
    requires Trees(tab, own) && Pruned(own, own', tab, tab', Top(r)) && IsRoot(own, r') && r' != r && IsIndex(i) &&
      IsIndex(j)
    ensures MidOf(tab', r', i) == MidOf(tab, r', i) && LowOf(tab', r', i, j) == LowOf(tab, r', i, j)
    ensures var b := LowOf(tab, r', i, j); b != 0 ==> b in tab && b in tab' && tab'[b] == tab[b]
  {
    WalkRoles(tab, own, r', i, j);
    var a, b := MidOf(tab, r', i), LowOf(tab, r', i, j);
    assert r' in own' && RoleOk(tab, own, r');
    if a != 0 {
      assert a in own' && RoleOk(tab, own, a);
    }
    if b != 0 {
      assert b in own' && RoleOk(tab, own, b);
    }
  }

  /** The other trees when one tree with no mapped pages is gone. */
  lemma PrunedTrees(tab: Tables, own: map<int, Role>, tab': Tables, own': map<int, Role>, r: int)
    requires Trees(tab, own) && Frames(tab, own) && Pruned(own, own', tab, tab', Top(r))
    requires forall v {:trigger Leaf(tab, r, v)} :: 0 <= v < MAXVPN ==> Leaf(tab, r, v) == 0
    ensures Trees(tab', own') && Frames(tab', own') && SameLeaves(tab, tab', own')
    ensures forall p :: p in own' <==> p in own && own[p].root != r
  {
    forall p | p in own && own[p].root == r
      ensures p !in own'
    {
      assert RoleOk(tab, own, p);
      if own[p].Frame? {
        assert FrameOk(tab, own, p);
      }
    }
    forall r', v | IsRoot(own', r') && 0 <= v < MAXVPN
      ensures Leaf(tab', r', v) == Leaf(tab, r', v)
    {
      PrunedWalk(tab, own, tab', own', r, r', I2(v), I1(v));
    }
    PrunedTables(tab, own, tab', own', r);
    forall p | p in own' && own'[p].Frame?
      ensures FrameOk(tab', own', p)
    {
      assert RoleOk(tab, own, p) && FrameOk(tab, own, p);
    }
    forall r', v | IsRoot(own', r') && 0 <= v < MAXVPN
      ensures LeafOk(own', r', v, Leaf(tab', r', v))
    {
      assert LeafOk(own, r', v, Leaf(tab, r', v));
    }
  }

  lemma PrunedTables(tab: Tables, own: map<int, Role>, tab': Tables, own': map<int, Role>, r: int)
    requires Trees(tab, own) && Pruned(own, own', tab, tab', Top(r))
    requires forall p :: p in own' ==> p in own && own[p].root != r
    ensures Trees(tab', own')
  {
    forall p | p in own'
      ensures RoleOk(tab', own', p)
    {
      assert RoleOk(tab, own, p);
      var role := own[p];
      if role.Mid? {
        PrunedWalk(tab, own, tab', own', r, role.root, role.i, 0);
      } else if role.Low? {
        PrunedWalk(tab, own, tab', own', r, role.root, role.i, role.j);
      }
    }
    forall p, k | p in own' && IsIndex(k)
      ensures EntryOk(tab', own', p, k)
    {
      assert RoleOk(tab, own, p) && EntryOk(tab, own, p, k);
    }
  }

  /** Some pages of the trees `tab`, `own` are gone, but none in the subtree of `role`. */
  ghost predicate Intact(tab: Tables, own: map<int, Role>, tab': Tables, own': map<int, Role>, role: Role) {
    forall q {:trigger q in own'} {:trigger q in tab'} ::
      && (q in own && Below(role, own[q]) ==> q in own' && q in tab' && q in tab && tab'[q] == tab[q])
      && (q in own' ==> q in own && own'[q] == own[q])
      && (q in tab' ==> q in own')
  }

  /** freewalk in page `p` has dealt with the first `n` entries. */
  ghost predicate PrunedFirst(own: map<int, Role>, own': map<int, Role>, tab: Tables, tab': Tables, role: Role, n: int,
      p: int) {
    && p in tab && |tab[p]| == 512 && p in tab' && |tab'[p]| == 512
    && (forall k :: 0 <= k < 512 && n <= k ==> tab'[p][k] == tab[p][k])
    && (forall q {:trigger q in own'} {:trigger q in tab'} ::
          && (q in own' <==> q in own && !BelowFirst(role, n, own[q]))
          && (q in own' ==> own'[q] == own[q])
          && (q in own' && q != p ==> (q in tab' <==> q in tab) && (q in tab ==> tab'[q] == tab[q]))
          && (q in tab' ==> q in own'))
  }

  lemma PrunedNone(tab0: Tables, own0: map<int, Role>, tab: Tables, own: map<int, Role>, p: int)
    requires Trees(tab0, own0) && p in own0 && !own0[p].Frame? && Intact(tab0, own0, tab, own, own0[p])
    ensures PrunedFirst(own, own, tab, tab, own0[p], 0, p) && p in own && tab[p] == tab0[p] && own[p] == own0[p]
  {
    assert RoleOk(tab0, own0, p);
    forall q | q in own
      ensures !BelowFirst(own0[p], 0, own[q])
    {
      BelowSteps(tab0, own0, own0[p], 0, q);
    }
  }

  /** The subtree of the next entry is still there. */
  lemma IntactChild(tab0: Tables, own0: map<int, Role>, tab: Tables, own: map<int, Role>, tab': Tables,
      own': map<int, Role>, p: int, n: int)
    requires Trees(tab0, own0) && p in own0 && Level(own0[p]) > 0 && Intact(tab0, own0, tab, own, own0[p])
    requires PrunedFirst(own, own', tab, tab', own0[p], n, p) && IsIndex(n)
    ensures Intact(tab0, own0, tab', own', Child(own0[p], n))
  {
    var role := own0[p];
    forall q | q in own0 && Below(Child(role, n), own0[q])
      ensures q in own' && q in tab' && tab'[q] == tab0[q] && q in tab0
    {
      assert RoleOk(tab0, own0, q) && Below(role, own0[q]) && !BelowFirst(role, n, own0[q]) && q != p;
      assert q in own && q in tab && q in own';
    }
  }

  /** The subtree of entry `n` is freed and the entry cleared. */
  lemma PrunedNext(tab0: Tables, own0: map<int, Role>, tab: Tables, own: map<int, Role>, tab1: Tables,
      own1: map<int, Role>, tab2: Tables, own2: map<int, Role>, p: int, n: int)
    requires Trees(tab0, own0) && p in own0 && Level(own0[p]) > 0 && IsIndex(n) && Intact(tab0, own0, tab, own, own0[p])
    requires PrunedFirst(own, own1, tab, tab1, own0[p], n, p) && Pruned(own1, own2, tab1, tab2, Child(own0[p], n))
    ensures p in tab2 && |tab2[p]| == 512 && PrunedFirst(own, own2, tab, Put(tab2, p, n, 0), own0[p], n + 1, p)
  {
    var role := own0[p];
    assert p in own1;
    assert p in own2 && p in tab2;
    var tab3 := Put(tab2, p, n, 0);
    forall q
      ensures q in own2 <==> q in own && !BelowFirst(role, n + 1, own[q])
    {
      assert q in own2 <==> q in own1 && !Below(Child(role, n), own1[q]);
      assert q in own1 <==> q in own && !BelowFirst(role, n, own[q]);
      if q in own {
        BelowSteps(tab0, own0, role, n, q);
      }
    }
  }

  /** An entry that is 0 has no subtree. */
  lemma PrunedSkip(tab0: Tables, own0: map<int, Role>, tab: Tables, own: map<int, Role>, tab1: Tables,
      own1: map<int, Role>, p: int, n: int)
    requires Trees(tab0, own0) && p in own0 && !own0[p].Frame? && IsIndex(n) && Intact(tab0, own0, tab, own, own0[p])
    requires PrunedFirst(own, own1, tab, tab1, own0[p], n, p) && Get(tab0, p, n) == 0
    ensures PrunedFirst(own, own1, tab, tab1, own0[p], n + 1, p)
  {
    var role := own0[p];
    forall q | q in own
      ensures BelowFirst(role, n + 1, own[q]) <==> BelowFirst(role, n, own[q])
    {
      BelowSteps(tab0, own0, role, n, q);
      if Level(role) > 0 {
        NothingBelow(tab0, own0, p, n, q);
      }
    }
  }

  /** At last the page itself. */
  lemma PrunedDone(tab0: Tables, own0: map<int, Role>, tab: Tables, own: map<int, Role>, tab1: Tables,
      own1: map<int, Role>, p: int)
    requires Trees(tab0, own0) && p in own0 && !own0[p].Frame? && Intact(tab0, own0, tab, own, own0[p])
    requires PrunedFirst(own, own1, tab, tab1, own0[p], 512, p)
    ensures Pruned(own, own1 - {p}, tab, tab1 - {p}, own0[p])
  {
    var role := own0[p];
    var own2, tab2 := own1 - {p}, tab1 - {p};
    forall q
      ensures q in own2 <==> q in own && !Below(role, own[q])
    {
      assert q in own1 <==> q in own && !BelowFirst(role, 512, own[q]);
      if q in own {
        BelowSteps(tab0, own0, role, 0, q);
        if own[q] == role {
          RoleIsUnique(tab0, own0, p, q);
        }
      }
      assert p in own1;
    }
  }
}
