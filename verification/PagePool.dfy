/**
 The pool of physical pages: kernel/kalloc.c hands out each managed page to at
 most one holder, and kernel/vm.c moves held pages into and out of page tables.
 */
module PagePool {
  import opened PageTable

  /** The pages that freerange(lo, hi) puts on the list. */
  predicate IsManaged(lo: int, hi: int, p: int) {
    IsPage(p) && lo <= p && p + 4096 <= hi
  }

  function Head(free: seq<int>): int {
    if free == [] then 0 else free[0]
  }

  /** The list that starts with page `head` and follows the `next` words holds the pages `free`, in order. */
  predicate IsList(head: int, nxt: map<int, int>, free: seq<int>)
    decreases |free|
  {
    && head == Head(free)
    && (free != [] ==> free[0] in nxt && IsList(nxt[free[0]], nxt, free[1..]))
  }

  /** Writing the `next` word of a page that is not on the list. */
  lemma {:induction false} ListFrame(head: int, nxt: map<int, int>, free: seq<int>, p: int, n: int)
    requires IsList(head, nxt, free) && p !in free
    ensures IsList(head, nxt[p := n], free)
    decreases |free|
  {
    if free != [] {
      ListFrame(nxt[free[0]], nxt, free[1..], p, n);
    }
  }

  /** A managed page is free, or part of a page table, or held by the code that allocated it: exactly one of these. */
  ghost predicate PoolAt(lo: int, hi: int, free: seq<int>, own: map<int, Role>, held: set<int>, p: int) {
    && (IsManaged(lo, hi, p) <==> p in free || p in own || p in held)
    && !(p in free && p in own) && !(p in free && p in held) && !(p in own && p in held)
  }

  ghost predicate Pool(lo: int, hi: int, free: seq<int>, own: map<int, Role>, held: set<int>) {
    && (forall j, k :: 0 <= j < k < |free| ==> free[j] != free[k])
    && (forall p {:trigger PoolAt(lo, hi, free, own, held, p)} :: PoolAt(lo, hi, free, own, held, p))
  }

  lemma PoolTake(lo: int, hi: int, free: seq<int>, own: map<int, Role>, held: set<int>)
    requires Pool(lo, hi, free, own, held) && |free| > 0
    ensures Pool(lo, hi, free[1..], own, held + {free[0]})
    ensures PoolAt(lo, hi, free, own, held, free[0])
  {
    var free', held' := free[1..], held + {free[0]};
    assert free == [free[0]] + free';
    forall p
      ensures PoolAt(lo, hi, free', own, held', p)
    {
      assert PoolAt(lo, hi, free, own, held, p);
    }
  }

  lemma PoolGive(lo: int, hi: int, free: seq<int>, own: map<int, Role>, held: set<int>, p: int)
    requires Pool(lo, hi, free, own, held) && p in held
    ensures Pool(lo, hi, [p] + free, own, held - {p})
    ensures PoolAt(lo, hi, free, own, held, p)
  {
    var free', held' := [p] + free, held - {p};
    assert PoolAt(lo, hi, free, own, held, p);
    assert forall k :: 0 < k < |free'| ==> free'[k] == free[k - 1] && free[k - 1] in free;
    forall q
      ensures PoolAt(lo, hi, free', own, held', q)
    {
      assert PoolAt(lo, hi, free, own, held, q);
    }
  }

  lemma PoolOwn(lo: int, hi: int, free: seq<int>, own: map<int, Role>, held: set<int>, p: int, role: Role)
    requires Pool(lo, hi, free, own, held) && p in held
    ensures Pool(lo, hi, free, own[p := role], held - {p})
    ensures PoolAt(lo, hi, free, own, held, p)
  {
    var own', held' := own[p := role], held - {p};
    forall q
      ensures PoolAt(lo, hi, free, own', held', q)
    {
      assert PoolAt(lo, hi, free, own, held, q);
    }
  }

  lemma PoolDisown(lo: int, hi: int, free: seq<int>, own: map<int, Role>, held: set<int>, p: int)
    requires Pool(lo, hi, free, own, held) && p in own
    ensures Pool(lo, hi, free, own - {p}, held + {p})
    ensures PoolAt(lo, hi, free, own, held, p)
  {
    var own', held' := own - {p}, held + {p};
    forall q
      ensures PoolAt(lo, hi, free, own', held', q)
    {
      assert PoolAt(lo, hi, free, own, held, q);
    }
  }
}
