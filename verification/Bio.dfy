/** The doubly linked ring of kernel/bio.c. Buffers are numbers from 1 on; 0 is bcache.head. */
module LruRing {

  /** Element `i` of the ring that starts and ends at the head. */
  function Node(order: seq<int>, i: int): int {
    if 1 <= i <= |order| then order[i - 1] else 0
  }

  predicate LinkOk(next: seq<int>, prev: seq<int>, order: seq<int>, i: int) {
    var a, b := Node(order, i), Node(order, i + 1);
    0 <= a < |next| && 0 <= b < |prev| && next[a] == b && prev[b] == a
  }

  predicate Apart(order: seq<int>, i: int, j: int)
    requires 0 <= i < |order| && 0 <= j < |order|
  {
    order[i] != order[j]
  }

  /** `next` visits the buffers in `order`, and `prev` visits them in the other direction. */
  ghost predicate RingOk(next: seq<int>, prev: seq<int>, order: seq<int>) {
    && |next| == |prev| && 0 < |next|
    && (forall i {:trigger order[i]} :: 0 <= i < |order| ==> 0 < order[i] < |next|)
    && (forall i, j {:trigger Apart(order, i, j)} :: 0 <= i < j < |order| ==> Apart(order, i, j))
    && (forall i {:trigger LinkOk(next, prev, order, i)} :: 0 <= i <= |order| ==> LinkOk(next, prev, order, i))
  }

  function RemoveAt(order: seq<int>, i: int): seq<int>
    requires 0 <= i < |order|
  {
    order[..i] + order[i + 1..]
  }

  lemma RemoveElems(order: seq<int>, i: int)
    requires 0 <= i < |order| && forall j, k {:trigger Apart(order, j, k)} ::
      0 <= j < k < |order| ==> Apart(order, j, k)
    ensures forall x :: x in RemoveAt(order, i) <==> x in order && x != order[i]
  {
    var order' := RemoveAt(order, i);
    assert order == order[..i] + [order[i]] + order[i + 1..];
    forall k | 0 <= k < |order'|
      ensures order'[k] != order[i]
    {
      assert order'[k] == order[if k < i then k else k + 1];
      assert if k < i then Apart(order, k, i) else Apart(order, i, k + 1);
    }
  }

  /** The first two lines of moving a buffer: its neighbours are linked to each other. */
  lemma UnlinkRing(next: seq<int>, prev: seq<int>, order: seq<int>, i: int)
    requires RingOk(next, prev, order) && 0 <= i < |order|
    ensures var b := order[i];
            0 < b < |next| && 0 <= next[b] < |prev| && 0 <= prev[b] < |next| &&
            RingOk(next[prev[b] := next[b]], prev[next[b] := prev[b]], RemoveAt(order, i))
  {
    var b := order[i];
    assert LinkOk(next, prev, order, i) && LinkOk(next, prev, order, i + 1);
    assert Node(order, i + 1) == b;
    var next', prev', order' := next[prev[b] := next[b]], prev[next[b] := prev[b]], RemoveAt(order, i);
    assert prev[b] == Node(order, i) && next[b] == Node(order, i + 2);
    forall j, k | 0 <= j < k < |order'|
      ensures Apart(order', j, k)
    {
      assert Apart(order, if j < i then j else j + 1, if k < i then k else k + 1);
    }
    forall k | 0 <= k < |order'|
      ensures 0 < order'[k] < |next'|
    {
      assert order'[k] == order[if k < i then k else k + 1];
    }
    forall k | 0 <= k <= |order'|
      ensures LinkOk(next', prev', order', k)
    {
      UnlinkStep(next, prev, order, i, k);
    }
  }

  lemma NodesApart(next: seq<int>, prev: seq<int>, order: seq<int>, i: int, j: int)
    requires RingOk(next, prev, order) && 0 <= i < j <= |order|
    ensures Node(order, i) != Node(order, j) && 0 < Node(order, j) < |next| && 0 <= Node(order, i) < |next|
  {
    assert 0 < order[j - 1];
    if i > 0 {
      assert Apart(order, i - 1, j - 1);
      assert 0 < order[i - 1];
    }
  }

  lemma UnlinkStep(next: seq<int>, prev: seq<int>, order: seq<int>, i: int, k: int)
    requires RingOk(next, prev, order) && 0 <= i < |order| && 0 <= k < |order|
    requires var b := order[i];
      0 < b < |next| && prev[b] == Node(order, i) && next[b] == Node(order, i + 2) && 0 <= next[b] < |prev| &&
      0 <= prev[b] < |next|
    ensures var b := order[i]; LinkOk(next[prev[b] := next[b]], prev[next[b] := prev[b]], RemoveAt(order, i), k)
  {
    var order' := RemoveAt(order, i);
    var k' := if k <= i then k else k + 1;
    assert Node(order', k) == Node(order, k');
    assert Node(order', k + 1) == Node(order, if k < i then k + 1 else k + 2);
    if k != i {
      assert LinkOk(next, prev, order, k');
      if k' < i {
        NodesApart(next, prev, order, k', i);
      } else {
        NodesApart(next, prev, order, i, k');
      }
      NextNodesApart(next, prev, order, k' + 1, i + 2);
    }
  }

  lemma NextNodesApart(next: seq<int>, prev: seq<int>, order: seq<int>, i: int, j: int)
    requires RingOk(next, prev, order) && 1 <= i <= |order| + 1 && 1 <= j <= |order| + 1 && i != j
    ensures Node(order, i) != Node(order, j)
  {
    var lo, hi := if i < j then i else j, if i < j then j else i;
    if hi <= |order| {
      NodesApart(next, prev, order, lo, hi);
    } else {
      NodesApart(next, prev, order, 0, lo);
    }
  }

  /** The other lines: a buffer that is in no ring goes to the front. */
  lemma FrontRing(next: seq<int>, prev: seq<int>, order: seq<int>, b: int)
    requires RingOk(next, prev, order) && 0 < b < |next| && b !in order
    ensures 0 <= next[0] < |prev|
    ensures RingOk(next[b := next[0]][0 := b], prev[b := 0][next[0] := b], [b] + order)
  {
    assert LinkOk(next, prev, order, 0);
    var next', prev', order' := next[b := next[0]][0 := b], prev[b := 0][next[0] := b], [b] + order;
    assert next[0] == Node(order, 1) && b != Node(order, 1);
    forall j, k | 0 <= j < k < |order'|
      ensures Apart(order', j, k)
    {
      if j > 0 {
        assert Apart(order, j - 1, k - 1);
      } else {
        assert order'[k] == order[k - 1] && order[k - 1] in order;
      }
    }
    forall k | 0 <= k < |order'|
      ensures 0 < order'[k] < |next'|
    {
      assert k > 0 ==> order'[k] == order[k - 1];
    }
    forall k | 0 <= k <= |order'|
      ensures LinkOk(next', prev', order', k)
    {
      assert Node(order', 0) == 0 && Node(order', 1) == b;
      assert k > 0 ==> Node(order', k + 1) == Node(order, k);
      if k > 1 {
        assert LinkOk(next, prev, order, k - 1);
        assert Node(order', k) == Node(order, k - 1) && order[k - 2] in order;
        NextNodesApart(next, prev, order, k, 1);
      }
    }
  }
}

/** The buffers of kernel/bio.c and the block store that they stand for. */
module BufferCache {

  type Id = (int, int)

  /** struct buf without its links; `holder` is the process that holds its sleep-lock, -1 for none. */
  datatype Buf = Buf(dev: int, blockno: int, refcnt: int, valid: bool, data: seq<int>, holder: int)

  /**
   Buffer 0 is the list head and is not used. `disk` is what the device holds.
   The rest is history: the processes that got each buffer and have not released
   it, how often it is pinned, the flat store that clients think they use, and
   the buffers that hold a change which is not on disk.
   */
  datatype Cache = Cache(bufs: seq<Buf>, users: seq<set<int>>, pins: seq<int>,
                         disk: map<Id, seq<int>>, store: map<Id, seq<int>>, dirty: map<Id, int>)

  predicate IsBuf(c: Cache, b: int) {
    1 <= b < |c.bufs| && |c.users| == |c.bufs| && |c.pins| == |c.bufs|
  }

  function IdOf(c: Cache, b: int): Id
    requires IsBuf(c, b)
  {
    (c.bufs[b].dev, c.bufs[b].blockno)
  }

  /** A reference for every user and every pin; only a user holds the lock; what is valid is what the store holds. */
  predicate BufOk(c: Cache, b: int)
    requires IsBuf(c, b)
  {
    var x := c.bufs[b];
    && 0 <= c.pins[b] && x.refcnt == |c.users[b]| + c.pins[b]
    && (x.holder != -1 ==> x.holder in c.users[b])
    && (x.dev >= 1 && x.valid ==> IdOf(c, b) in c.store && x.data == c.store[IdOf(c, b)])
  }

  /** Two buffers do not hold the same block of a device. */
  predicate IdsApart(c: Cache, a: int, b: int) {
    IsBuf(c, a) && IsBuf(c, b) && a != b && c.bufs[a].dev >= 1 ==> IdOf(c, a) != IdOf(c, b)
  }

  /** A block is on disk, or its change is in a buffer that is locked or pinned. */
  predicate BlockOk(c: Cache, id: Id) {
    && (id in c.store <==> id in c.disk)
    && (id in c.dirty ==>
          && id in c.store && IsBuf(c, c.dirty[id]) && IdOf(c, c.dirty[id]) == id && id.0 >= 1
          && c.bufs[c.dirty[id]].valid && (c.bufs[c.dirty[id]].holder != -1 || c.pins[c.dirty[id]] > 0))
    && (id in c.store && id !in c.dirty ==> c.disk[id] == c.store[id])
  }

  ghost predicate Inv(c: Cache) {
    && |c.users| == |c.bufs| && |c.pins| == |c.bufs| && 0 < |c.bufs|
    && (forall b {:trigger BufOk(c, b)} :: IsBuf(c, b) ==> BufOk(c, b))
    && (forall a, b {:trigger IdsApart(c, a, b)} :: IdsApart(c, a, b))
    && (forall id {:trigger BlockOk(c, id)} :: BlockOk(c, id))
  }

  /** A buffer changes in a way that matters to no other buffer and to no block. */
  lemma SameBlocks(c: Cache, c': Cache, b: int)
    requires Inv(c) && IsBuf(c, b) && IsBuf(c', b) && |c'.bufs| == |c.bufs| && c'.disk == c.disk &&
      c'.store == c.store && c'.dirty == c.dirty
    requires forall a ::
      0 <= a < |c.bufs| && a != b ==> c'.bufs[a] == c.bufs[a] && c'.users[a] == c.users[a] && c'.pins[a] == c.pins[a]
    requires IdOf(c', b) == IdOf(c, b) && (c.bufs[b].valid ==> c'.bufs[b].valid) && BufOk(c', b)
    requires IdOf(c, b) in c.dirty && c.dirty[IdOf(c, b)] == b ==> c'.bufs[b].holder != -1 || c'.pins[b] > 0
    ensures Inv(c')
  {
    forall a | IsBuf(c', a)
      ensures BufOk(c', a)
    {
      assert a != b ==> BufOk(c, a);
    }
    forall x, y
      ensures IdsApart(c', x, y)
    {
      assert IdsApart(c, x, y);
    }
    forall id
      ensures BlockOk(c', id)
    {
      assert BlockOk(c, id);
    }
  }

  // ----- Steps -----

  /** bget finds the block: process `p` gets a reference. */
  function Hit(c: Cache, p: int, b: int): Cache
    requires IsBuf(c, b)
  {
    c.(bufs := c.bufs[b := c.bufs[b].(refcnt := c.bufs[b].refcnt + 1)], users := c.users[b := c.users[b] + {p}])
  }

  lemma HitInv(c: Cache, p: int, b: int)
    requires Inv(c) && IsBuf(c, b) && p !in c.users[b]
    ensures Inv(Hit(c, p, b))
  {
    assert BufOk(c, b);
    assert BlockOk(c, IdOf(c, b));
    SameBlocks(c, Hit(c, p, b), b);
  }

  /** bget recycles an unused buffer. */
  function Recycled(c: Cache, p: int, b: int, id: Id): Cache
    requires IsBuf(c, b)
  {
    c.(bufs := c.bufs[b := c.bufs[b].(dev := id.0, blockno := id.1, valid := false, refcnt := 1)],
        users := c.users[b := {p}])
  }

  ghost predicate NotCached(c: Cache, id: Id) {
    forall a {:trigger IsBuf(c, a)} :: IsBuf(c, a) ==> IdOf(c, a) != id
  }

  /** A buffer with no references is not locked, not pinned and holds no change. */
  lemma UnusedIsClean(c: Cache, b: int)
    requires Inv(c) && IsBuf(c, b) && c.bufs[b].refcnt == 0
    ensures c.users[b] == {} && c.pins[b] == 0 && c.bufs[b].holder == -1
    ensures forall id {:trigger id in c.dirty} :: id in c.dirty ==> c.dirty[id] != b
  {
    assert BufOk(c, b);
    forall id | id in c.dirty
      ensures c.dirty[id] != b
    {
      assert BlockOk(c, id);
    }
  }

  lemma RecycleInv(c: Cache, p: int, b: int, id: Id)
    requires Inv(c) && IsBuf(c, b) && c.bufs[b].refcnt == 0 && NotCached(c, id)
    ensures Inv(Recycled(c, p, b, id))
  {
    var c' := Recycled(c, p, b, id);
    UnusedIsClean(c, b);
    forall a | IsBuf(c', a)
      ensures BufOk(c', a)
    {
      assert IsBuf(c, a) && BufOk(c, a);
    }
    forall x, y
      ensures IdsApart(c', x, y)
    {
      assert IdsApart(c, x, y);
      assert IsBuf(c', x) ==> IsBuf(c, x);
      assert IsBuf(c', y) ==> IsBuf(c, y);
    }
    forall i
      ensures BlockOk(c', i)
    {
      assert BlockOk(c, i);
      assert i in c.dirty ==> c.dirty[i] != b;
    }
  }

  /** acquiresleep by a process that has a reference. */
  function Locked(c: Cache, p: int, b: int): Cache
    requires IsBuf(c, b)
  {
    c.(bufs := c.bufs[b := c.bufs[b].(holder := p)])
  }

  lemma LockInv(c: Cache, p: int, b: int)
    requires Inv(c) && IsBuf(c, b) && p != -1 && p in c.users[b] && c.bufs[b].holder == -1
    ensures Inv(Locked(c, p, b))
  {
    assert BufOk(c, b);
    SameBlocks(c, Locked(c, p, b), b);
  }

  /** bread reads the block if the buffer does not hold it yet. */
  function Filled(c: Cache, b: int): Cache
    requires IsBuf(c, b) && IdOf(c, b) in c.disk
  {
    if c.bufs[b].valid then c else c.(bufs := c.bufs[b := c.bufs[b].(valid := true, data := c.disk[IdOf(c, b)])])
  }

  /** What bread returns is what the flat store holds. */
  lemma FillInv(c: Cache, b: int)
    requires Inv(c) && IsBuf(c, b) && c.bufs[b].dev >= 1 && IdOf(c, b) in c.disk
    ensures var c' := Filled(c, b);
      Inv(c') && c'.bufs[b].valid && IdOf(c', b) in c'.store && c'.bufs[b].data == c.store[IdOf(c, b)]
  {
    var id := IdOf(c, b);
    assert BufOk(c, b) && BlockOk(c, id);
    if id in c.dirty {
      assert IdsApart(c, c.dirty[id], b);
    }
    if !c.bufs[b].valid {
      SameBlocks(c, Filled(c, b), b);
    }
  }

  /** A client that holds the lock changes the block. */
  function Modified(c: Cache, b: int, data: seq<int>): Cache
    requires IsBuf(c, b)
  {
    var id := IdOf(c, b);
    c.(bufs := c.bufs[b := c.bufs[b].(data := data)], store := c.store[id := data], dirty := c.dirty[id := b])
  }

  lemma ModifyInv(c: Cache, b: int, data: seq<int>)
    requires Inv(c) && IsBuf(c, b) && c.bufs[b].dev >= 1 && c.bufs[b].valid && c.bufs[b].holder != -1
    ensures Inv(Modified(c, b, data))
  {
    var c', id := Modified(c, b, data), IdOf(c, b);
    assert BufOk(c, b) && BlockOk(c, id);
    forall a | IsBuf(c', a)
      ensures BufOk(c', a)
    {
      assert BufOk(c, a) && IdsApart(c, b, a);
    }
    forall x, y
      ensures IdsApart(c', x, y)
    {
      assert IdsApart(c, x, y);
    }
    forall i
      ensures BlockOk(c', i)
    {
      assert BlockOk(c, i);
    }
  }

  /** bwrite. */
  function Written(c: Cache, b: int): Cache
    requires IsBuf(c, b)
  {
    c.(disk := c.disk[IdOf(c, b) := c.bufs[b].data], dirty := c.dirty - {IdOf(c, b)})
  }

  lemma WriteInv(c: Cache, b: int)
    requires Inv(c) && IsBuf(c, b) && c.bufs[b].dev >= 1 && c.bufs[b].valid
    ensures Inv(Written(c, b))
  {
    var c', id := Written(c, b), IdOf(c, b);
    assert BufOk(c, b) && BlockOk(c, id);
    forall a | IsBuf(c', a)
      ensures BufOk(c', a)
    {
      assert BufOk(c, a);
    }
    forall x, y
      ensures IdsApart(c', x, y)
    {
      assert IdsApart(c, x, y);
    }
    forall i
      ensures BlockOk(c', i)
    {
      assert BlockOk(c, i);
    }
  }

  /** brelse gives up the sleep-lock. */
  function Unlocked(c: Cache, b: int): Cache
    requires IsBuf(c, b)
  {
    c.(bufs := c.bufs[b := c.bufs[b].(holder := -1)])
  }

  /** A change that is not on disk is pinned when the buffer is released. */
  predicate MayRelease(c: Cache, b: int) {
    IsBuf(c, b) && (IdOf(c, b) in c.dirty ==> c.pins[b] > 0)
  }

  lemma UnlockInv(c: Cache, p: int, b: int)
    requires Inv(c) && IsBuf(c, b) && p != -1 && c.bufs[b].holder == p && MayRelease(c, b)
    ensures p in c.users[b] && Inv(Unlocked(c, b))
  {
    assert BufOk(c, b);
    SameBlocks(c, Unlocked(c, b), b);
  }

  /** Then, in a critical section of its own, it gives up the reference; another process may hold the lock by now. */
  function Dropped(c: Cache, p: int, b: int): Cache
    requires IsBuf(c, b)
  {
    c.(bufs := c.bufs[b := c.bufs[b].(refcnt := c.bufs[b].refcnt - 1)], users := c.users[b := c.users[b] - {p}])
  }

  lemma DropInv(c: Cache, p: int, b: int)
    requires Inv(c) && IsBuf(c, b) && p in c.users[b] && c.bufs[b].holder != p
    ensures Inv(Dropped(c, p, b)) && c.bufs[b].refcnt > 0
  {
    assert BufOk(c, b);
    assert |c.users[b] - {p}| == |c.users[b]| - 1;
    assert BlockOk(c, IdOf(c, b));
    SameBlocks(c, Dropped(c, p, b), b);
  }

  /** bpin and bunpin. */
  function Pinned(c: Cache, b: int, d: int): Cache
    requires IsBuf(c, b)
  {
    c.(bufs := c.bufs[b := c.bufs[b].(refcnt := c.bufs[b].refcnt + d)], pins := c.pins[b := c.pins[b] + d])
  }

  lemma PinInv(c: Cache, b: int, d: int)
    requires Inv(c) && IsBuf(c, b) && (d == 1 || (d == -1 && c.pins[b] > 0 && IdOf(c, b) !in c.dirty))
    ensures Inv(Pinned(c, b, d))
  {
    assert BufOk(c, b);
    SameBlocks(c, Pinned(c, b, d), b);
  }

  // ----- Runs -----

  datatype Event =
    | GetHit(p: int, b: int)
    | GetNew(p: int, b: int, id: Id)
    | Lock(p: int, b: int)
    | Fill(b: int)
    | Modify(p: int, b: int, data: seq<int>)
    | Write(b: int)
    | Unlock(p: int, b: int)
    | Drop(p: int, b: int)
    | Pin(b: int)
    | Unpin(b: int)

  /** The steps of clients that pin or write every change before they release it. */
  ghost predicate Next(c: Cache, c': Cache, e: Event) {
    && (e.GetNew? || IsBuf(c, e.b))
    && (|| (e.GetHit? && e.p !in c.users[e.b] && c' == Hit(c, e.p, e.b))
        || (e.GetNew? && IsBuf(c, e.b) && c.bufs[e.b].refcnt == 0 && e.id.0 >= 1 && NotCached(c, e.id) &&
            c' == Recycled(c, e.p, e.b, e.id))
        || (e.Lock? && e.p != -1 && e.p in c.users[e.b] && c.bufs[e.b].holder == -1 && c' == Locked(c, e.p, e.b))
        || (e.Fill? && c.bufs[e.b].dev >= 1 && c.bufs[e.b].holder != -1 && IdOf(c, e.b) in c.disk &&
            c' == Filled(c, e.b))
        || (e.Modify? && e.p != -1 && c.bufs[e.b].holder == e.p && c.bufs[e.b].dev >= 1 && c.bufs[e.b].valid &&
            c' == Modified(c, e.b, e.data))
        || (e.Write? && c.bufs[e.b].holder != -1 && c.bufs[e.b].dev >= 1 && c.bufs[e.b].valid && c' == Written(c, e.b))
        || (e.Unlock? && e.p != -1 && c.bufs[e.b].holder == e.p && MayRelease(c, e.b) && c' == Unlocked(c, e.b))
        || (e.Drop? && e.p in c.users[e.b] && c.bufs[e.b].holder != e.p && c' == Dropped(c, e.p, e.b))
        || (e.Pin? && c.bufs[e.b].refcnt > 0 && c' == Pinned(c, e.b, 1))
        || (e.Unpin? && c.pins[e.b] > 0 && IdOf(c, e.b) !in c.dirty && c' == Pinned(c, e.b, -1)))
  }

  /** After binit: no buffer holds a block of a device, and the store is the disk. */
  predicate Init(c: Cache) {
    && 0 < |c.bufs| && |c.users| == |c.bufs| && |c.pins| == |c.bufs| && c.store == c.disk && c.dirty == map[]
    && (forall b ::
        0 <= b < |c.bufs| ==>
        c.bufs[b].dev == 0 && c.bufs[b].refcnt == 0 && c.bufs[b].holder == -1 && c.users[b] == {} && c.pins[b] == 0)
  }

  lemma InitInv(c: Cache)
    requires Init(c)
    ensures Inv(c)
  {
  }

  lemma StepInv(c: Cache, c': Cache, e: Event)
    requires Inv(c) && Next(c, c', e)
    ensures Inv(c')
  {
    match e
    case GetHit(p, b) => HitInv(c, p, b);
    case GetNew(p, b, id) => RecycleInv(c, p, b, id);
    case Lock(p, b) => LockInv(c, p, b);
    case Fill(b) => FillInv(c, b);
    case Modify(_, b, data) => ModifyInv(c, b, data);
    case Write(b) => WriteInv(c, b);
    case Unlock(p, b) => UnlockInv(c, p, b);
    case Drop(p, b) => DropInv(c, p, b);
    case Pin(b) => PinInv(c, b, 1);
    case Unpin(b) => PinInv(c, b, -1);
  }

  ghost predicate Step(c: Cache, c': Cache) {
    exists e :: Next(c, c', e)
  }

  ghost predicate StepAt(run: seq<Cache>, i: int)
    requires 0 <= i < |run|
  {
    i == 0 || Step(run[i - 1], run[i])
  }

  ghost predicate IsRun(run: seq<Cache>) {
    |run| > 0 && Init(run[0]) && forall i {:trigger StepAt(run, i)} :: 0 <= i < |run| ==> StepAt(run, i)
  }

  lemma {:induction false} RunInv(run: seq<Cache>, i: int)
    requires IsRun(run) && 0 <= i < |run|
    ensures Inv(run[i])
  {
    if i == 0 {
      InitInv(run[0]);
    } else {
      RunInv(run, i - 1);
      assert StepAt(run, i);
      var e :| Next(run[i - 1], run[i], e);
      StepInv(run[i - 1], run[i], e);
    }
  }

  /**
   In every state of every run, a buffer that bread would return holds what the
   flat store holds, and it is the only buffer for its block.
   */
  lemma ReadsAreFlat(run: seq<Cache>, i: int, b: int, a: int)
    requires IsRun(run) && 0 <= i < |run| && IsBuf(run[i], b) && run[i].bufs[b].dev >= 1
    ensures var c := run[i]; c.bufs[b].valid ==> IdOf(c, b) in c.store && c.bufs[b].data == c.store[IdOf(c, b)]
    ensures var c := run[i];
      !c.bufs[b].valid && IdOf(c, b) in c.disk ==> IdOf(c, b) in c.store && c.disk[IdOf(c, b)] == c.store[IdOf(c, b)]
    ensures IsBuf(run[i], a) && a != b ==> IdOf(run[i], a) != IdOf(run[i], b)
  {
    RunInv(run, i);
    var c, id := run[i], IdOf(run[i], b);
    assert BufOk(c, b) && BlockOk(c, id) && IdsApart(c, b, a);
    if id in c.dirty {
      assert IdsApart(c, c.dirty[id], b);
    }
  }

  /** The flat store changes when a client changes a block, as it changes it, and not otherwise. */
  lemma StoreChanges(c: Cache, c': Cache, e: Event)
    requires Next(c, c', e)
    ensures e.Modify? ==> IsBuf(c, e.b) && c'.store == c.store[IdOf(c, e.b) := e.data] && c'.bufs[e.b].data == e.data
    ensures !e.Modify? ==> c'.store == c.store
  {
  }

  /** The disk changes when a buffer is written, to what the buffer holds, and not otherwise. */
  lemma DiskChanges(c: Cache, c': Cache, e: Event)
    requires Next(c, c', e)
    ensures e.Write? ==> IsBuf(c, e.b) && c'.disk == c.disk[IdOf(c, e.b) := c.bufs[e.b].data]
    ensures !e.Write? ==> c'.disk == c.disk
  {
  }

  /** bget makes the process a user of the buffer and counts it. */
  lemma GetGives(c: Cache, c': Cache, e: Event)
    requires Inv(c) && Next(c, c', e) && (e.GetHit? || e.GetNew?)
    ensures IsBuf(c, e.b) && IsBuf(c', e.b) && e.p in c'.users[e.b] && c'.bufs[e.b].refcnt == c.bufs[e.b].refcnt + 1
    ensures e.GetHit? ==> c'.bufs[e.b] == c.bufs[e.b].(refcnt := c.bufs[e.b].refcnt + 1)
    ensures e.GetNew? ==> IdOf(c', e.b) == e.id && !c'.bufs[e.b].valid && c'.users[e.b] == {e.p}
  {
  }

  /** Only its own brelse makes a process give up a buffer. */
  lemma UserStays(c: Cache, c': Cache, e: Event, p: int, b: int)
    requires Inv(c) && Next(c, c', e) && IsBuf(c, b) && p in c.users[b]
    ensures IsBuf(c', b) && (p in c'.users[b] || e == Drop(p, b))
    ensures c.bufs[b].refcnt > 0 && IdOf(c', b) == IdOf(c, b)
  {
    assert BufOk(c, b);
    UsersCount(c.users[b], p);
  }

  lemma UsersCount(users: set<int>, p: int)
    requires p in users
    ensures |users| > 0
  {
  }

  /** In every run, from the step that gives a process a buffer until it drops it, the buffer keeps its block. */
  lemma {:induction false} UserKeepsBlock(run: seq<Cache>, j: int, i: int, p: int, b: int)
    requires IsRun(run) && 0 <= j <= i < |run| && IsBuf(run[j], b)
    requires forall k {:trigger run[k]} :: j <= k <= i && IsBuf(run[k], b) ==> p in run[k].users[b]
    ensures IsBuf(run[i], b) && IdOf(run[i], b) == IdOf(run[j], b) && run[i].bufs[b].refcnt > 0
    decreases i - j
  {
    RunInv(run, i);
    if i == j {
      assert p in run[j].users[b] && BufOk(run[j], b);
      UsersCount(run[j].users[b], p);
    } else {
      UserKeepsBlock(run, j, i - 1, p, b);
      RunInv(run, i - 1);
      assert StepAt(run, i);
      var e :| Next(run[i - 1], run[i], e);
      UserStays(run[i - 1], run[i], e, p, b);
      assert p in run[i].users[b] && BufOk(run[i], b);
      UsersCount(run[i].users[b], p);
    }
  }

  /** A buffer that someone uses or has pinned keeps its block, in every step. */
  lemma InUseKeepsBlock(run: seq<Cache>, i: int, b: int)
    requires IsRun(run) && 0 < i < |run| && IsBuf(run[i - 1], b) && run[i - 1].bufs[b].refcnt > 0
    ensures IsBuf(run[i], b) && IdOf(run[i], b) == IdOf(run[i - 1], b)
  {
    assert StepAt(run, i);
    var e :| Next(run[i - 1], run[i], e);
  }
}

/** kernel/bio.c itself. */
module BioCode {
  import opened LruRing
  import opened BufferCache

  /** Element `i` of the ring was moved to the front after element `j`. */
  predicate Later(order: seq<int>, stamp: seq<int>, i: int, j: int)
    requires 0 <= i < |order| && 0 <= j < |order|
  {
    0 < order[i] < |stamp| && 0 < order[j] < |stamp| && stamp[order[i]] > stamp[order[j]]
  }

  /** The ring is sorted by the time at which each buffer was last moved to the front. */
  ghost predicate StampsOk(order: seq<int>, stamp: seq<int>, clock: int) {
    && (forall i, j {:trigger Later(order, stamp, i, j)} :: 0 <= i < j < |order| ==> Later(order, stamp, i, j))
    && (forall b {:trigger stamp[b]} :: 0 <= b < |stamp| ==> stamp[b] < clock)
  }

  lemma MoveStamp(order: seq<int>, stamp: seq<int>, clock: int, i: int)
    requires StampsOk(order, stamp, clock) && 0 <= i < |order| && 0 < order[i] < |stamp|
    requires forall k {:trigger order[k]} :: 0 <= k < |order| ==> 0 < order[k] < |stamp|
    requires forall j, k {:trigger Apart(order, j, k)} :: 0 <= j < k < |order| ==> Apart(order, j, k)
    ensures StampsOk([order[i]] + RemoveAt(order, i), stamp[order[i] := clock], clock + 1)
  {
    var order', stamp' := [order[i]] + RemoveAt(order, i), stamp[order[i] := clock];
    forall j, k | 0 <= j < k < |order'|
      ensures Later(order', stamp', j, k)
    {
      var k' := if k <= i then k - 1 else k;
      assert order'[k] == order[k'];
      assert if k' < i then Apart(order, k', i) else Apart(order, i, k');
      if j > 0 {
        var j' := if j <= i then j - 1 else j;
        assert order'[j] == order[j'];
        assert if j' < i then Apart(order, j', i) else Apart(order, i, j');
        assert Later(order, stamp, j', k');
      }
    }
  }

  lemma NewStamp(order: seq<int>, stamp: seq<int>, clock: int, b: int)
    requires StampsOk(order, stamp, clock) && 0 < b < |stamp| && b !in order
    requires forall k {:trigger order[k]} :: 0 <= k < |order| ==> 0 < order[k] < |stamp|
    ensures StampsOk([b] + order, stamp[b := clock], clock + 1)
  {
    var order', stamp' := [b] + order, stamp[b := clock];
    forall j, k | 0 <= j < k < |order'|
      ensures Later(order', stamp', j, k)
    {
      assert order'[k] == order[k - 1] && order[k - 1] in order;
      if j > 0 {
        assert order'[j] == order[j - 1] && order[j - 1] in order;
        assert Later(order, stamp, j - 1, k - 1);
      }
    }
  }

  /** `b` leaves its place and becomes the first. */
  ghost predicate MovedToFront(order: seq<int>, order': seq<int>, b: int) {
    exists i {:trigger order[i]} :: 0 <= i < |order| && order[i] == b && order' == [b] + RemoveAt(order, i)
  }

  /** The order of the first two assignments does not matter: neither writes what the other reads. */
  lemma UnlinkKeeps(next: seq<int>, prev: seq<int>, order: seq<int>, i: int)
    requires RingOk(next, prev, order) && 0 <= i < |order|
    ensures var b := order[i]; 0 < b < |next| && next[b] != b && prev[b] != b
  {
    var b := order[i];
    assert LinkOk(next, prev, order, i) && LinkOk(next, prev, order, i + 1);
    NodesApart(next, prev, order, i, i + 1);
    if i + 1 < |order| {
      NodesApart(next, prev, order, i + 1, i + 2);
    }
  }

  /** Buffer `b` is moved to the front if that was its last reference, and otherwise the ring stays as it is. */
  ghost predicate FrontIfLast(last: bool, order: seq<int>, order': seq<int>, stamp: seq<int>, stamp': seq<int>,
                              clock: int, clock': int, b: int) {
    if last then
      MovedToFront(order, order', b) && 0 <= b < |stamp| && stamp' == stamp[b := clock] && clock' == clock + 1
    else order' == order && stamp' == stamp && clock' == clock
  }

  class Bcache {
    const buf: array<Buf>
    const next: array<int>
    const prev: array<int>
    var disk: map<Id, seq<int>>
    ghost var users: seq<set<int>>
    ghost var pins: seq<int>
    ghost var store: map<Id, seq<int>>
    ghost var dirty: map<Id, int>
    ghost var order: seq<int>
    ghost var stamp: seq<int>
    ghost var clock: int

    ghost function View(): Cache
      reads this, buf
    {
      Cache(buf[..], users, pins, disk, store, dirty)
    }

    /** The ring holds every buffer once. */
    ghost predicate Ring()
      reads this, next, prev
    {
      && next != prev && next.Length == buf.Length && prev.Length == buf.Length && |stamp| == buf.Length
      && RingOk(next[..], prev[..], order) && StampsOk(order, stamp, clock)
      && (forall b {:trigger b in order} :: b in order <==> 1 <= b < buf.Length)
    }

    ghost predicate Valid()
      reads this, buf, next, prev
    {
      Ring() && Inv(View())
    }

    /** binit, for `n` buffers in front of a disk. */
    constructor (n: int, blocks: map<Id, seq<int>>)
      requires 0 <= n
      ensures Valid() && Init(View()) && disk == blocks && buf.Length == n + 1 && fresh(buf) && fresh(next) &&
        fresh(prev)
    {
      buf := new Buf[n + 1](_ => Buf(0, 0, 0, false, [], -1));
      next := new int[n + 1](_ => 0);
      prev := new int[n + 1](_ => 0);
      disk, store, dirty := blocks, blocks, map[];
      users, pins := seq(n + 1, _ => {}), seq(n + 1, _ => 0);
      order, stamp, clock := [], seq(n + 1, _ => -1), 0;
      new;
      InitInv(View());
      LinkAll();
    }

    /** The loop of binit. */
    method LinkAll()
      requires 0 < buf.Length && next != prev && next.Length == buf.Length && prev.Length == buf.Length &&
        |stamp| == buf.Length
      requires order == [] && clock == 0 && forall b :: 0 <= b < |stamp| ==> stamp[b] < 0
      modifies next, prev, this`order, this`stamp, this`clock
      ensures Ring()
    {
      prev[0] := 0;
      next[0] := 0;
      assert LinkOk(next[..], prev[..], order, 0);
      var b := 1;
      while b < buf.Length
        invariant 1 <= b <= buf.Length && |stamp| == buf.Length
        invariant RingOk(next[..], prev[..], order) && StampsOk(order, stamp, clock)
        invariant forall x {:trigger x in order} :: x in order <==> 1 <= x < b
      {
        ghost var nx, pv := next[..], prev[..];
        FrontRing(nx, pv, order, b);
        NewStamp(order, stamp, clock, b);
        next[b] := next[0];
        prev[b] := 0;
        prev[next[0]] := b;
        next[0] := b;
        assert next[..] == nx[b := nx[0]][0 := b] && prev[..] == pv[b := 0][nx[0] := b];
        order := [b] + order;
        stamp := stamp[b := clock];
        clock := clock + 1;
        b := b + 1;
      }
    }

    /** The first loop of bget: a buffer for the block, or 0. */
    method Find(dev: int, blockno: int) returns (b: int)
      requires Valid() && dev >= 1
      ensures b == 0 ==> NotCached(View(), (dev, blockno))
      ensures b != 0 ==> IsBuf(View(), b) && IdOf(View(), b) == (dev, blockno)
    {
      ghost var i := 1;
      assert LinkOk(next[..], prev[..], order, 0);
      b := next[0];
      while b != 0
        invariant 1 <= i <= |order| + 1 && b == Node(order, i) && (b == 0 ==> i == |order| + 1)
        invariant forall k {:trigger order[k]} ::
          0 <= k < i - 1 ==> (buf[order[k]].dev, buf[order[k]].blockno) != (dev, blockno)
        decreases |order| + 1 - i
      {
        assert order[i - 1] == b && b in order;
        if buf[b].dev == dev && buf[b].blockno == blockno {
          return;
        }
        assert LinkOk(next[..], prev[..], order, i);
        b := next[b];
        i := i + 1;
        assert i <= |order| ==> order[i - 1] in order;
      }
      forall a | IsBuf(View(), a)
        ensures IdOf(View(), a) != (dev, blockno)
      {
        assert a in order;
        var k :| 0 <= k < |order| && order[k] == a;
      }
    }

    /** The second loop of bget: the unused buffer that was moved to the front longest ago, or 0. */
    method FindUnused() returns (b: int)
      requires Valid()
      ensures b == 0 ==> forall a {:trigger buf[a]} :: 1 <= a < buf.Length ==> buf[a].refcnt != 0
      ensures b != 0 ==> IsBuf(View(), b) && buf[b].refcnt == 0
      ensures b != 0 ==> forall a {:trigger stamp[a]} ::
        1 <= a < buf.Length && buf[a].refcnt == 0 ==> stamp[b] <= stamp[a]
    {
      ghost var i := |order|;
      assert LinkOk(next[..], prev[..], order, |order|);
      b := prev[0];
      while b != 0
        invariant 0 <= i <= |order| && b == Node(order, i) && (b == 0 ==> i == 0)
        invariant forall k {:trigger order[k]} :: i <= k < |order| ==> order[k] in order && buf[order[k]].refcnt != 0
        decreases i
      {
        assert order[i - 1] == b && b in order;
        if buf[b].refcnt == 0 {
          forall a | 1 <= a < buf.Length && buf[a].refcnt == 0
            ensures stamp[b] <= stamp[a]
          {
            assert a in order;
            var k :| 0 <= k < |order| && order[k] == a;
            assert k < i - 1 ==> Later(order, stamp, k, i - 1);
          }
          return;
        }
        assert LinkOk(next[..], prev[..], order, i - 1);
        b := prev[b];
        i := i - 1;
        assert i > 0 ==> order[i - 1] in order;
      }
      forall a | 1 <= a < buf.Length
        ensures buf[a].refcnt != 0
      {
        assert a in order;
        var k :| 0 <= k < |order| && order[k] == a;
      }
    }

    /** bget's work under bcache.lock, for process `p`; 0 is the panic "no buffers". */
    method Bget(p: int, dev: int, blockno: int) returns (b: int)
      requires Valid() && dev >= 1
      requires forall a {:trigger users[a]} :: IsBuf(View(), a) && IdOf(View(), a) == (dev, blockno) ==> p !in users[a]
      modifies this, buf
      ensures Valid() && order == old(order) && stamp == old(stamp)
      ensures b == 0 ==> View() == old(View()) && NotCached(View(), (dev, blockno)) && forall a ::
        1 <= a < buf.Length ==> buf[a].refcnt != 0
      ensures b != 0 ==> IsBuf(old(View()), b) && IsBuf(View(), b) && IdOf(View(), b) == (dev, blockno)
      ensures b != 0 ==> p in users[b] && forall a :: 0 <= a < buf.Length && a != b ==> buf[a] == old(buf[a])
      ensures b != 0 && old(IdOf(View(), b)) == (dev, blockno) ==>
        buf[b] == old(buf[b]).(refcnt := old(buf[b].refcnt) + 1)
      ensures b != 0 && old(IdOf(View(), b)) != (dev, blockno) ==> buf[b].refcnt == 1 && !buf[b].valid
      ensures b != 0 && old(IdOf(View(), b)) == (dev, blockno) ==> View() == Hit(old(View()), p, b)
      ensures b != 0 && old(IdOf(View(), b)) != (dev, blockno) ==>
                && old(NotCached(View(), (dev, blockno))) && old(buf[b].refcnt) == 0 &&
                    View() == Recycled(old(View()), p, b, (dev, blockno))
                && forall a {:trigger stamp[a]} ::
                    1 <= a < buf.Length && old(buf[a].refcnt) == 0 ==> stamp[b] <= stamp[a]
    {
      ghost var c := View();
      b := Find(dev, blockno);
      if b != 0 {
        HitInv(c, p, b);
        buf[b] := buf[b].(refcnt := buf[b].refcnt + 1);
        users := users[b := users[b] + {p}];
        assert View() == Hit(c, p, b);
        return;
      }
      b := FindUnused();
      if b != 0 {
        RecycleInv(c, p, b, (dev, blockno));
        buf[b] := buf[b].(dev := dev, blockno := blockno, valid := false, refcnt := 1);
        users := users[b := {p}];
        assert View() == Recycled(c, p, b, (dev, blockno));
      }
    }

    /** The rest of bread: acquiresleep, once the lock is free, and a read from disk if the buffer is not valid. */
    method Bread(p: int, b: int)
      requires Valid() && IsBuf(View(), b) && p != -1 && p in users[b] && buf[b].holder == -1
      requires buf[b].dev >= 1 && IdOf(View(), b) in disk
      modifies buf
      ensures Valid() && View() == Filled(Locked(old(View()), p, b), b)
      ensures IdOf(View(), b) in store && buf[b].data == store[IdOf(View(), b)] && buf[b].holder == p && buf[b].valid
      ensures buf[b].refcnt == old(buf[b].refcnt) && (old(buf[b].valid) ==> buf[b].data == old(buf[b].data))
      ensures forall a :: 0 <= a < buf.Length && a != b ==> buf[a] == old(buf[a])
    {
      ghost var c := View();
      LockInv(c, p, b);
      buf[b] := buf[b].(holder := p);
      assert View() == Locked(c, p, b);
      FillInv(View(), b);
      if !buf[b].valid {
        buf[b] := buf[b].(data := disk[(buf[b].dev, buf[b].blockno)], valid := true);
      }
      assert View() == Filled(Locked(c, p, b), b);
    }

    /** A client writes to b->data. */
    method Change(p: int, b: int, data: seq<int>)
      requires Valid() && IsBuf(View(), b) && p != -1 && buf[b].holder == p && buf[b].valid && buf[b].dev >= 1
      modifies this, buf
      ensures Valid() && View() == Modified(old(View()), b, data)
      ensures buf[b] == old(buf[b]).(data := data) && store == old(store)[IdOf(View(), b) := data] && disk == old(disk)
    {
      ghost var c := View();
      ModifyInv(c, b, data);
      buf[b] := buf[b].(data := data);
      store, dirty := Modified(c, b, data).store, Modified(c, b, data).dirty;
      assert View() == Modified(c, b, data);
    }

    method Bwrite(p: int, b: int)
      requires Valid() && IsBuf(View(), b) && p != -1 && buf[b].holder == p && buf[b].valid && buf[b].dev >= 1
      modifies this
      ensures Valid() && View() == Written(old(View()), b)
      ensures disk == old(disk)[IdOf(View(), b) := buf[b].data] && IdOf(View(), b) !in dirty && store == old(store)
    {
      ghost var c := View();
      WriteInv(c, b);
      disk := disk[(buf[b].dev, buf[b].blockno) := buf[b].data];
      dirty := Written(c, b).dirty;
      assert View() == Written(c, b);
    }

    /** brelse, when no other process comes in between its two parts. */
    method Brelse(p: int, b: int)
      requires Valid() && p != -1 && MayRelease(View(), b) && buf[b].holder == p
      modifies this, buf, next, prev
      ensures Valid() && View() == Dropped(Unlocked(old(View()), b), p, b)
      ensures FrontIfLast(old(buf[b].refcnt) == 1, old(order), order, old(stamp), stamp, old(clock), clock, b)
    {
      Unlock(p, b);
      Drop(p, b);
    }

    /** releasesleep(&b->lock) */
    method Unlock(p: int, b: int)
      requires Valid() && p != -1 && MayRelease(View(), b) && buf[b].holder == p
      modifies buf
      ensures Valid() && View() == Unlocked(old(View()), b) && p in users[b]
      ensures buf[b] == old(buf[b]).(holder := -1)
    {
      ghost var c := View();
      UnlockInv(c, p, b);
      buf[b] := buf[b].(holder := -1);
      assert View() == Unlocked(c, b);
    }

    /** The part of brelse under bcache.lock: the last reference moves the buffer to the front of the ring. */
    method Drop(p: int, b: int)
      requires Valid() && IsBuf(View(), b) && p in users[b] && buf[b].holder != p
      modifies this, buf, next, prev
      ensures Valid() && View() == Dropped(old(View()), p, b)
      ensures buf[b] == old(buf[b]).(refcnt := old(buf[b].refcnt) - 1) && p !in users[b]
      ensures FrontIfLast(old(buf[b].refcnt) == 1, old(order), order, old(stamp), stamp, old(clock), clock, b)
    {
      ghost var c := View();
      DropInv(c, p, b);
      buf[b] := buf[b].(refcnt := buf[b].refcnt - 1);
      users := users[b := users[b] - {p}];
      assert View() == Dropped(c, p, b);
      if buf[b].refcnt == 0 {
        MoveToFront(b);
      }
    }

    /** The six assignments of brelse. */
    method MoveToFront(b: int)
      requires Ring() && 1 <= b < buf.Length
      modifies next, prev, this`order, this`stamp, this`clock
      ensures Ring() && MovedToFront(old(order), order, b) && stamp == old(stamp)[b := old(clock)] &&
        clock == old(clock) + 1
    {
      assert b in order;
      ghost var i :| 0 <= i < |order| && order[i] == b;
      ghost var nx, pv := next[..], prev[..];
      UnlinkRing(nx, pv, order, i);
      RemoveElems(order, i);
      MoveStamp(order, stamp, clock, i);
      prev[next[b]] := prev[b];
      next[prev[b]] := next[b];
      ghost var nx1, pv1 := nx[pv[b] := nx[b]], pv[nx[b] := pv[b]];
      UnlinkKeeps(nx, pv, order, i);
      assert prev[..] == pv1 && next[..] == nx1;
      FrontRing(nx1, pv1, RemoveAt(order, i), b);
      next[b] := next[0];
      prev[b] := 0;
      prev[next[0]] := b;
      next[0] := b;
      assert next[..] == nx1[b := nx1[0]][0 := b] && prev[..] == pv1[b := 0][nx1[0] := b];
      order := [b] + RemoveAt(order, i);
      stamp := stamp[b := clock];
      clock := clock + 1;
    }

    method Bpin(b: int)
      requires Valid() && IsBuf(View(), b) && buf[b].refcnt > 0
      modifies this, buf
      ensures Valid() && View() == Pinned(old(View()), b, 1)
      ensures buf[b] == old(buf[b]).(refcnt := old(buf[b].refcnt) + 1) && users == old(users)
    {
      ghost var c := View();
      PinInv(c, b, 1);
      buf[b] := buf[b].(refcnt := buf[b].refcnt + 1);
      pins := pins[b := pins[b] + 1];
      assert View() == Pinned(c, b, 1);
    }

    method Bunpin(b: int)
      requires Valid() && IsBuf(View(), b) && pins[b] > 0 && IdOf(View(), b) !in dirty
      modifies this, buf
      ensures Valid() && View() == Pinned(old(View()), b, -1)
      ensures buf[b] == old(buf[b]).(refcnt := old(buf[b].refcnt) - 1) && users == old(users)
    {
      ghost var c := View();
      PinInv(c, b, -1);
      buf[b] := buf[b].(refcnt := buf[b].refcnt - 1);
      pins := pins[b := pins[b] - 1];
      assert View() == Pinned(c, b, -1);
    }
  }
}
