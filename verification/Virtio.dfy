/**
 The driver of kernel/virtio_disk.c and a device that takes requests in order
 and completes them in any order. Ring indices are 16-bit and wrap around.
 */
module VirtQueue {
  import opened Division

  /** The queue sizes that the indices allow: the size divides 2^16 and is less than it. */
  type QueueSize = n: int | 0 < n < 65536 && 65536 % n == 0 witness 8

  const NUM: QueueSize

  /** Where a request is: in the avail ring, with the device, in the used ring, or reported to its issuer. */
  datatype Stage = Queued | Taken | Completed | Reported

  /** An in-flight request: its second and third descriptor, its buffer, whether it writes the disk, and where. */
  datatype Chain = Chain(d1: int, d2: int, buf: int, write: bool, sector: int, stage: Stage)

  /** struct virtq_desc; the address is what it points to. */
  datatype Target = Nothing | Header(head: int) | Data(buf: int) | Status(head: int)
  datatype Desc = Desc(target: Target, toDevice: bool, hasNext: bool, next: int)

  /** disk.info[i], with the disk.ops[i] it goes with. */
  datatype Info = Info(buf: int, status: int, write: bool, sector: int)

  /**
   The queue as driver and device share it; `takenIdx` is the device's own
   index into the avail ring. `busy` is the b->disk flag of each
   buffer. The rest is history: who owns each descriptor, the requests in
   flight, the heads in the avail ring that the device has not taken, the heads
   in the used ring that the driver has not looked at, and how many entries
   were ever put into either ring.
   */
  datatype Queue = Queue(free: seq<bool>, desc: seq<Desc>, info: seq<Info>, avail: seq<int>, used: seq<int>,
                         availIdx: int, takenIdx: int, usedIdx: int, seenIdx: int, busy: map<int, bool>,
                         own: seq<int>, chains: map<int, Chain>, pending: seq<int>, done: seq<int>,
                         puts: int, gets: int)

  predicate IsDesc(i: int) {
    0 <= i < NUM
  }

  predicate Sizes(q: Queue) {
    |q.free| == NUM && |q.desc| == NUM && |q.info| == NUM && |q.avail| == NUM && |q.used| == NUM && |q.own| == NUM
  }

  /** A descriptor is free, or it belongs to one request. */
  predicate DescOk(q: Queue, i: int)
    requires Sizes(q) && IsDesc(i)
  {
    && (q.free[i] <==> q.own[i] == -1)
    && (q.own[i] != -1 ==>
        q.own[i] in q.chains && (i == q.own[i] || i == q.chains[q.own[i]].d1 || i == q.chains[q.own[i]].d2))
  }

  /** A request: three descriptors of its own, linked and filled in for its buffer. */
  predicate ChainOk(q: Queue, h: int)
    requires Sizes(q) && h in q.chains
  {
    var c := q.chains[h];
    && IsDesc(h) && IsDesc(c.d1) && IsDesc(c.d2) && h != c.d1 && h != c.d2 && c.d1 != c.d2
    && q.own[h] == h && q.own[c.d1] == h && q.own[c.d2] == h
    && q.desc[h] == Desc(Header(h), true, true, c.d1)
    && q.desc[c.d1] == Desc(Data(c.buf), c.write, true, c.d2)
    && q.desc[c.d2] == Desc(Status(h), false, false, 0)
    && q.info[h].buf == c.buf && q.info[h].write == c.write && q.info[h].sector == c.sector
    && (c.stage.Completed? || c.stage.Reported? ==> q.info[h].status == 0)
    && c.buf in q.busy && (q.busy[c.buf] <==> !c.stage.Reported?)
  }

  /** Two requests have different buffers. */
  predicate BufsApart(q: Queue, h: int, h': int) {
    h in q.chains && h' in q.chains && h != h' ==> q.chains[h].buf != q.chains[h'].buf
  }

  function CountFree(free: seq<bool>): int {
    if free == [] then 0 else (if free[0] then 1 else 0) + CountFree(free[1..])
  }

  ghost predicate NoDup(s: seq<int>) {
    forall j, k :: 0 <= j < k < |s| ==> s[j] != s[k]
  }

  /** Entry `k` of those not consumed yet, when `total` were ever put into the ring. */
  predicate SlotOk(ring: seq<int>, heads: seq<int>, total: int, k: int)
    requires |ring| == NUM && 0 <= k < |heads|
  {
    ring[(total - |heads| + k) % NUM] == heads[k]
  }

  ghost predicate RingOk(ring: seq<int>, heads: seq<int>, total: int) {
    && |ring| == NUM && NoDup(heads) && |heads| <= total
    && forall k {:trigger SlotOk(ring, heads, total, k)} :: 0 <= k < |heads| ==> SlotOk(ring, heads, total, k)
  }

  /** The rings hold the requests whose stage says so. */
  predicate StageOk(q: Queue, h: int) {
    && (h in q.pending <==> h in q.chains && q.chains[h].stage.Queued?)
    && (h in q.done <==> h in q.chains && q.chains[h].stage.Completed?)
  }

  /** Every descriptor is accounted for, and every request is set up. */
  ghost predicate Tables(q: Queue) {
    && Sizes(q)
    && (forall i {:trigger DescOk(q, i)} :: IsDesc(i) ==> DescOk(q, i))
    && (forall h {:trigger ChainOk(q, h)} :: h in q.chains ==> ChainOk(q, h))
    && (forall h, h' {:trigger BufsApart(q, h, h')} :: BufsApart(q, h, h'))
    && CountFree(q.free) + 3 * |q.chains| == NUM
  }

  /** The rings hold the requests that are on their way, and the 16-bit indices say where. */
  ghost predicate Rings(q: Queue) {
    && RingOk(q.avail, q.pending, q.puts) && RingOk(q.used, q.done, q.gets)
    && (forall h {:trigger StageOk(q, h)} :: StageOk(q, h))
    && q.availIdx == Wrap(q.puts) && q.takenIdx == Wrap(q.puts - |q.pending|)
    && q.usedIdx == Wrap(q.gets) && q.seenIdx == Wrap(q.gets - |q.done|)
  }

  ghost predicate Inv(q: Queue) {
    Tables(q) && Rings(q)
  }

  /** A count kept in a 16-bit index. */
  function Wrap(n: int): int {
    n % 65536
  }

  // ----- Counting -----

  lemma {:induction false} CountSet(free: seq<bool>, i: int, v: bool)
    requires 0 <= i < |free| && free[i] != v
    ensures CountFree(free[i := v]) == CountFree(free) + if v then 1 else -1
  {
    if i == 0 {
      assert free[0 := v][1..] == free[1..];
    } else {
      assert free[i := v][1..] == free[1..][i - 1 := v];
      CountSet(free[1..], i - 1, v);
    }
  }

  lemma {:induction false} CountBounds(free: seq<bool>)
    ensures 0 <= CountFree(free) <= |free|
    ensures CountFree(free) == 0 <==> forall i :: 0 <= i < |free| ==> !free[i]
  {
    if free != [] {
      CountBounds(free[1..]);
      assert forall i :: 0 < i < |free| ==> free[i] == free[1..][i - 1];
    }
  }

  lemma {:induction false} NoDupFits(s: seq<int>, keys: set<int>)
    requires NoDup(s) && forall k :: 0 <= k < |s| ==> s[k] in keys
    ensures |s| <= |keys|
    decreases |s|
  {
    if s != [] {
      var last := s[|s| - 1];
      NoDupFits(s[..|s| - 1], keys - {last});
    }
  }

  /** Requests take three descriptors each, so neither ring is ever half full. */
  lemma RingsShort(q: Queue)
    requires Inv(q)
    ensures 3 * |q.chains| <= NUM && |q.pending| <= |q.chains| && |q.done| <= |q.chains|
  {
    CountBounds(q.free);
    forall k | 0 <= k < |q.pending|
      ensures q.pending[k] in q.chains.Keys
    {
      assert q.pending[k] in q.pending && StageOk(q, q.pending[k]);
    }
    NoDupFits(q.pending, q.chains.Keys);
    forall k | 0 <= k < |q.done|
      ensures q.done[k] in q.chains.Keys
    {
      assert q.done[k] in q.done && StageOk(q, q.done[k]);
    }
    NoDupFits(q.done, q.chains.Keys);
  }

  // ----- Rings -----

  /** Putting an entry at the 16-bit index overwrites none that is still to be consumed. */
  lemma PutEntry(ring: seq<int>, heads: seq<int>, total: int, h: int)
    requires RingOk(ring, heads, total) && |heads| < NUM && h !in heads
    ensures RingOk(ring[Wrap(total) % NUM := h], heads + [h], total + 1)
  {
    WrapMod(total);
    var ring', heads', total' := ring[total % NUM := h], heads + [h], total + 1;
    forall k | 0 <= k < |heads'|
      ensures SlotOk(ring', heads', total', k)
    {
      assert total' - |heads'| == total - |heads|;
      if k < |heads| {
        assert SlotOk(ring, heads, total, k);
        SlotsApart(total, total - |heads| + k, NUM);
      }
    }
  }

  /** NUM divides 65536, so that the wrapped index finds the same slot. */
  lemma WrapMod(n: int)
    ensures Wrap(n) % NUM == n % NUM && 0 <= n % NUM < NUM
  {
    SameSlot(n, 65536, NUM);
  }

  lemma WrapNext(n: int)
    ensures Wrap(Wrap(n) + 1) == Wrap(n + 1)
  {
  }

  lemma WrapApart(x: int, n: int)
    requires 0 < n < 65536
    ensures Wrap(x - n) != Wrap(x)
  {
  }

  lemma Dequeued(s: seq<int>)
    requires s != [] && NoDup(s)
    ensures forall x {:trigger x in s[1..]} :: x in s[1..] <==> x in s && x != s[0]
  {
    assert s == [s[0]] + s[1..];
  }

  /** Taking the oldest entry. */
  lemma TakeEntry(ring: seq<int>, heads: seq<int>, total: int)
    requires RingOk(ring, heads, total) && heads != []
    ensures RingOk(ring, heads[1..], total) && heads[0] !in heads[1..]
    ensures ring[Wrap(total - |heads|) % NUM] == heads[0]
  {
    WrapMod(total - |heads|);
    assert SlotOk(ring, heads, total, 0);
    var heads' := heads[1..];
    forall k | 0 <= k < |heads'|
      ensures SlotOk(ring, heads', total, k)
    {
      assert SlotOk(ring, heads, total, k + 1);
    }
  }

  // ----- Steps -----

  /** virtio_disk_rw up to its wait: three free descriptors become a request for `buf`. */
  function Submitted(q: Queue, h: int, d1: int, d2: int, buf: int, write: bool, sector: int): Queue
    requires Sizes(q) && IsDesc(h) && IsDesc(d1) && IsDesc(d2)
  {
    q.(free := q.free[h := false][d1 := false][d2 := false],
       desc := q.desc[h := Desc(Header(h), true, true, d1)]
                     [d1 := Desc(Data(buf), write, true, d2)]
                     [d2 := Desc(Status(h), false, false, 0)],
       info := q.info[h := Info(buf, 0xff, write, sector)],
       busy := q.busy[buf := true],
       avail := q.avail[q.availIdx % NUM := h],
       availIdx := Wrap(q.availIdx + 1),
       own := q.own[h := h][d1 := h][d2 := h],
       chains := q.chains[h := Chain(d1, d2, buf, write, sector, Queued)],
       pending := q.pending + [h],
       puts := q.puts + 1)
  }

  /** `buf` has no request in flight. */
  ghost predicate IsIdle(q: Queue, buf: int) {
    forall h {:trigger h in q.chains} :: h in q.chains ==> q.chains[h].buf != buf
  }

  predicate CanSubmit(q: Queue, h: int, d1: int, d2: int)
    requires Sizes(q)
  {
    && IsDesc(h) && IsDesc(d1) && IsDesc(d2) && h != d1 && h != d2 && d1 != d2
    && q.free[h] && q.free[d1] && q.free[d2]
  }

  lemma SubmitInv(q: Queue, h: int, d1: int, d2: int, buf: int, write: bool, sector: int)
    requires Inv(q) && CanSubmit(q, h, d1, d2) && IsIdle(q, buf)
    ensures Inv(Submitted(q, h, d1, d2, buf, write, sector)) && h !in q.chains
  {
    SubmitTables(q, h, d1, d2, buf, write, sector);
    RingsShort(q);
    SubmitRings(q, h, d1, d2, buf, write, sector);
  }

  lemma SubmitRings(q: Queue, h: int, d1: int, d2: int, buf: int, write: bool, sector: int)
    requires Sizes(q) && Rings(q) && |q.pending| < NUM && CanSubmit(q, h, d1, d2) && h !in q.chains
    ensures Rings(Submitted(q, h, d1, d2, buf, write, sector))
  {
    var q' := Submitted(q, h, d1, d2, buf, write, sector);
    assert StageOk(q, h);
    PutEntry(q.avail, q.pending, q.puts, h);
    WrapNext(q.puts);
    forall g
      ensures StageOk(q', g)
    {
      assert StageOk(q, g);
    }
  }

  lemma CountThree(free: seq<bool>, a: int, b: int, c: int, v: bool)
    requires 0 <= a < |free| && 0 <= b < |free| && 0 <= c < |free| && a != b && a != c && b != c
    requires free[a] != v && free[b] != v && free[c] != v
    ensures CountFree(free[a := v][b := v][c := v]) == CountFree(free) + if v then 3 else -3
  {
    CountSet(free, a, v);
    CountSet(free[a := v], b, v);
    CountSet(free[a := v][b := v], c, v);
  }

  lemma SubmitTables(q: Queue, h: int, d1: int, d2: int, buf: int, write: bool, sector: int)
    requires Tables(q) && CanSubmit(q, h, d1, d2) && IsIdle(q, buf)
    ensures h !in q.chains && Tables(Submitted(q, h, d1, d2, buf, write, sector))
  {
    var q' := Submitted(q, h, d1, d2, buf, write, sector);
    assert DescOk(q, h) && DescOk(q, d1) && DescOk(q, d2);
    assert h in q.chains ==> ChainOk(q, h);
    CountThree(q.free, h, d1, d2, false);
    forall i | IsDesc(i)
      ensures DescOk(q', i)
    {
      assert DescOk(q, i);
    }
    forall g | g in q'.chains
      ensures ChainOk(q', g)
    {
      if g != h {
        SubmitOther(q, h, d1, d2, buf, write, sector, g);
      }
    }
    forall g, g'
      ensures BufsApart(q', g, g')
    {
      assert BufsApart(q, g, g');
    }
  }

  lemma SubmitOther(q: Queue, h: int, d1: int, d2: int, buf: int, write: bool, sector: int, g: int)
    requires Tables(q) && CanSubmit(q, h, d1, d2) && IsIdle(q, buf) && g in q.chains && g != h
    ensures ChainOk(Submitted(q, h, d1, d2, buf, write, sector), g)
  {
    assert DescOk(q, h) && DescOk(q, d1) && DescOk(q, d2);
    assert ChainOk(q, g);
  }

  function WithStage(q: Queue, h: int, stage: Stage): map<int, Chain>
    requires h in q.chains
  {
    q.chains[h := q.chains[h].(stage := stage)]
  }

  /** The device takes the oldest entry of the avail ring. */
  function TakenOne(q: Queue): Queue
    requires q.pending != [] && q.pending[0] in q.chains
  {
    q.(chains := WithStage(q, q.pending[0], Taken), pending := q.pending[1..], takenIdx := Wrap(q.takenIdx + 1))
  }

  lemma TakeInv(q: Queue)
    requires Inv(q) && q.pending != []
    ensures q.pending[0] in q.chains && Inv(TakenOne(q))
    ensures q.avail[q.takenIdx % NUM] == q.pending[0]
  {
    var h := q.pending[0];
    assert h in q.pending && StageOk(q, h) && ChainOk(q, h);
    assert q.busy[q.chains[h].buf := true] == q.busy;
    StageTables(q, TakenOne(q), h);
    TakeRings(q);
  }

  lemma TakeRings(q: Queue)
    requires Rings(q) && q.pending != [] && q.pending[0] in q.chains
    ensures Rings(TakenOne(q)) && q.avail[q.takenIdx % NUM] == q.pending[0]
  {
    var q' := TakenOne(q);
    TakeEntry(q.avail, q.pending, q.puts);
    Dequeued(q.pending);
    forall g
      ensures StageOk(q', g)
    {
      assert StageOk(q, g);
    }
    WrapNext(q.puts - |q.pending|);
  }

  /** A change of stage leaves descriptors and other requests alone. */
  lemma StageTables(q: Queue, q': Queue, h: int)
    requires Tables(q) && h in q.chains && h in q'.chains && Sizes(q')
    requires q'.chains == q.chains[h := q.chains[h].(stage := q'.chains[h].stage)]
    requires q'.free == q.free && q'.own == q.own && q'.desc == q.desc
    requires q'.busy == q.busy[q.chains[h].buf := !q'.chains[h].stage.Reported?]
    requires forall i :: 0 <= i < NUM && i != h ==> q'.info[i] == q.info[i]
    requires ChainOk(q, h) ==> q'.info[h] == q.info[h].(status := q'.info[h].status)
    requires q'.chains[h].stage.Completed? || q'.chains[h].stage.Reported? ==> IsDesc(h) && q'.info[h].status == 0
    ensures Tables(q')
  {
    assert q'.chains.Keys == q.chains.Keys;
    assert |q'.chains| == |q'.chains.Keys| && |q.chains| == |q.chains.Keys|;
    forall i | IsDesc(i)
      ensures DescOk(q', i)
    {
      assert DescOk(q, i);
    }
    forall g | g in q'.chains
      ensures ChainOk(q', g)
    {
      assert ChainOk(q, g) && BufsApart(q, g, h);
    }
    forall g, g'
      ensures BufsApart(q', g, g')
    {
      assert BufsApart(q, g, g');
    }
  }

  /**
   The device completes a request that it has taken, whichever: it writes the
   status and puts the head into the used ring.
   */
  function CompletedOne(q: Queue, h: int): Queue
    requires Sizes(q) && h in q.chains && IsDesc(h)
  {
    q.(chains := WithStage(q, h, Completed), info := q.info[h := q.info[h].(status := 0)],
       used := q.used[q.usedIdx % NUM := h], usedIdx := Wrap(q.usedIdx + 1),
       done := q.done + [h], gets := q.gets + 1)
  }

  lemma CompleteInv(q: Queue, h: int)
    requires Inv(q) && h in q.chains && q.chains[h].stage.Taken?
    ensures IsDesc(h) && Inv(CompletedOne(q, h))
  {
    assert ChainOk(q, h);
    assert q.busy[q.chains[h].buf := true] == q.busy;
    StageTables(q, CompletedOne(q, h), h);
    RingsShort(q);
    CompleteRings(q, h);
  }

  lemma CompleteRings(q: Queue, h: int)
    requires Sizes(q) && Rings(q) && |q.done| < NUM && h in q.chains && q.chains[h].stage.Taken? && IsDesc(h)
    ensures Rings(CompletedOne(q, h))
  {
    var q' := CompletedOne(q, h);
    assert StageOk(q, h);
    PutEntry(q.used, q.done, q.gets, h);
    forall g
      ensures StageOk(q', g)
    {
      assert StageOk(q, g);
    }
    WrapNext(q.gets);
    assert q'.gets - |q'.done| == q.gets - |q.done|;
  }

  /** One turn of the loop of virtio_disk_intr: the buffer of the oldest used entry is done. */
  function ReportedOne(q: Queue): Queue
    requires Sizes(q) && IsDesc(q.used[q.seenIdx % NUM]) && q.done != [] && q.done[0] in q.chains
  {
    var id := q.used[q.seenIdx % NUM];
    q.(busy := q.busy[q.info[id].buf := false], seenIdx := Wrap(q.seenIdx + 1),
       chains := WithStage(q, q.done[0], Reported), done := q.done[1..])
  }

  /** The entry is the one that the device put there first, and the buffer cleared is the one that issued it. */
  lemma ReportInv(q: Queue)
    requires Inv(q) && q.done != []
    ensures var id := q.used[q.seenIdx % NUM];
            id == q.done[0] && IsDesc(id) && id in q.chains && q.info[id].status == 0 &&
                q.info[id].buf == q.chains[id].buf
    ensures Inv(ReportedOne(q))
  {
    TakeEntry(q.used, q.done, q.gets);
    var h := q.done[0];
    assert h in q.done && StageOk(q, h) && ChainOk(q, h);
    StageTables(q, ReportedOne(q), h);
    ReportRings(q);
  }

  lemma ReportRings(q: Queue)
    requires Sizes(q) && Rings(q) && q.done != [] && q.done[0] in q.chains && IsDesc(q.used[q.seenIdx % NUM])
    ensures Rings(ReportedOne(q))
  {
    var q' := ReportedOne(q);
    TakeEntry(q.used, q.done, q.gets);
    Dequeued(q.done);
    forall g
      ensures StageOk(q', g)
    {
      assert StageOk(q, g);
    }
    WrapNext(q.gets - |q.done|);
  }

  /** The loop test of virtio_disk_intr, on 16-bit counters, sees exactly whether there is an entry left. */
  lemma SeesEntries(q: Queue)
    requires Inv(q)
    ensures q.seenIdx != q.usedIdx <==> q.done != []
  {
    RingsShort(q);
    if q.done != [] {
      WrapApart(q.gets, |q.done|);
    }
  }

  const BLANK: Desc := Desc(Nothing, false, false, 0)

  /** The end of virtio_disk_rw: the three descriptors are free again. */
  function Finished(q: Queue, h: int): Queue
    requires Sizes(q) && h in q.chains && ChainOk(q, h)
  {
    var c := q.chains[h];
    q.(free := q.free[h := true][c.d1 := true][c.d2 := true],
       desc := q.desc[h := BLANK][c.d1 := BLANK][c.d2 := BLANK],
       info := q.info[h := q.info[h].(buf := 0)],
       own := q.own[h := -1][c.d1 := -1][c.d2 := -1],
       chains := q.chains - {h})
  }

  lemma FinishInv(q: Queue, h: int)
    requires Inv(q) && h in q.chains && q.chains[h].stage.Reported?
    ensures ChainOk(q, h) && Inv(Finished(q, h))
    ensures !q.free[h] && !q.free[q.chains[h].d1] && !q.free[q.chains[h].d2]
  {
    assert ChainOk(q, h);
    FinishTables(q, h);
    var q' := Finished(q, h);
    forall g
      ensures StageOk(q', g)
    {
      assert StageOk(q, g);
    }
  }

  lemma FinishTables(q: Queue, h: int)
    requires Tables(q) && h in q.chains && ChainOk(q, h)
    ensures Tables(Finished(q, h))
    ensures !q.free[h] && !q.free[q.chains[h].d1] && !q.free[q.chains[h].d2]
  {
    var q', c := Finished(q, h), q.chains[h];
    assert DescOk(q, h) && DescOk(q, c.d1) && DescOk(q, c.d2);
    CountThree(q.free, h, c.d1, c.d2, true);
    assert q'.chains.Keys == q.chains.Keys - {h};
    assert |q'.chains| == |q'.chains.Keys| && |q.chains| == |q.chains.Keys|;
    forall i | IsDesc(i)
      ensures DescOk(q', i)
    {
      assert DescOk(q, i);
    }
    forall g | g in q'.chains
      ensures ChainOk(q', g)
    {
      FinishOther(q, h, g);
    }
    forall g, g'
      ensures BufsApart(q', g, g')
    {
      assert BufsApart(q, g, g');
    }
  }

  lemma FinishOther(q: Queue, h: int, g: int)
    requires Tables(q) && h in q.chains && g in q.chains && g != h && ChainOk(q, h)
    ensures ChainOk(Finished(q, h), g)
  {
    assert ChainOk(q, g);
  }

  // ----- Runs -----

  datatype Event =
    | Submit(h: int, d1: int, d2: int, buf: int, write: bool, sector: int)
    | Take
    | Complete(h: int)
    | Report
    | Finish(h: int)

  /** Driver and device steps in any order; the device completes what it has taken in any order. */
  ghost predicate Next(q: Queue, q': Queue, e: Event) {
    && Sizes(q)
    && (|| (e.Submit? && CanSubmit(q, e.h, e.d1, e.d2) && IsIdle(q, e.buf) &&
        q' == Submitted(q, e.h, e.d1, e.d2, e.buf, e.write, e.sector))
        || (e.Take? && q.pending != [] && q.pending[0] in q.chains && q' == TakenOne(q))
        || (e.Complete? && IsDesc(e.h) && e.h in q.chains && q.chains[e.h].stage.Taken? && q' == CompletedOne(q, e.h))
        || (e.Report? && q.done != [] && q.done[0] in q.chains && IsDesc(q.used[q.seenIdx % NUM]) &&
            q' == ReportedOne(q))
        || (e.Finish? && e.h in q.chains && ChainOk(q, e.h) && q.chains[e.h].stage.Reported? && q' == Finished(q, e.h)))
  }

  /** After virtio_disk_init. */
  predicate Init(q: Queue) {
    && Sizes(q) && q.chains == map[] && q.pending == [] && q.done == []
    && (forall i :: 0 <= i < NUM ==> q.free[i] && q.own[i] == -1)
    && q.availIdx == 0 && q.takenIdx == 0 && q.usedIdx == 0 && q.seenIdx == 0 && q.puts == 0 && q.gets == 0
  }

  lemma InitInv(q: Queue)
    requires Init(q)
    ensures Inv(q)
  {
    AllFree(q.free);
  }

  lemma {:induction false} AllFree(free: seq<bool>)
    requires forall i :: 0 <= i < |free| ==> free[i]
    ensures CountFree(free) == |free|
  {
    if free != [] {
      AllFree(free[1..]);
    }
  }

  lemma StepInv(q: Queue, q': Queue, e: Event)
    requires Inv(q) && Next(q, q', e)
    ensures Inv(q')
  {
    match e
    case Submit(h, d1, d2, buf, write, sector) => SubmitInv(q, h, d1, d2, buf, write, sector);
    case Take => TakeInv(q);
    case Complete(h) => CompleteInv(q, h);
    case Report => ReportInv(q);
    case Finish(h) => FinishInv(q, h);
  }

  ghost predicate Step(q: Queue, q': Queue) {
    exists e :: Next(q, q', e)
  }

  ghost predicate StepAt(run: seq<Queue>, i: int)
    requires 0 <= i < |run|
  {
    i == 0 || Step(run[i - 1], run[i])
  }

  ghost predicate IsRun(run: seq<Queue>) {
    |run| > 0 && Init(run[0]) && forall i {:trigger StepAt(run, i)} :: 0 <= i < |run| ==> StepAt(run, i)
  }

  lemma {:induction false} RunInv(run: seq<Queue>, i: int)
    requires IsRun(run) && 0 <= i < |run|
    ensures Inv(run[i])
  {
    if i == 0 {
      InitInv(run[0]);
    } else {
      RunInv(run, i - 1);
      assert StepAt(run, i);
      var e :| Next(run[i - 1], run[i], e);
      StepInv(run[i - 1], run[i], e);
    }
  }

  /** In every state of every run no descriptor is lost: each request in flight has three, and the rest are free. */
  lemma FreeCount(run: seq<Queue>, i: int)
    requires IsRun(run) && 0 <= i < |run|
    ensures CountFree(run[i].free) == NUM - 3 * |run[i].chains|
  {
    RunInv(run, i);
  }

  /** In every state of every run a request has three descriptors that are in use, and is set up for its own buffer. */
  lemma RequestSafe(run: seq<Queue>, i: int, h: int)
    requires IsRun(run) && 0 <= i < |run| && h in run[i].chains
    ensures var q, c := run[i], run[i].chains[h];
            && |{h, c.d1, c.d2}| == 3 && {h, c.d1, c.d2} <= (set d | 0 <= d < |q.free| && !q.free[d])
            && h < |q.info| && q.info[h].buf == c.buf
  {
    RunInv(run, i);
    var q := run[i];
    assert ChainOk(q, h);
    assert DescOk(q, h) && DescOk(q, q.chains[h].d1) && DescOk(q, q.chains[h].d2);
  }

  /** In every state of every run two requests share no descriptor and no buffer. */
  lemma DescriptorsSafe(run: seq<Queue>, i: int, h: int, g: int)
    requires IsRun(run) && 0 <= i < |run| && h in run[i].chains && g in run[i].chains && h != g
    ensures var c, d := run[i].chains[h], run[i].chains[g]; {h, c.d1, c.d2} !! {g, d.d1, d.d2} && c.buf != d.buf
  {
    RunInv(run, i);
    var q := run[i];
    assert ChainOk(q, h) && ChainOk(q, g) && BufsApart(q, h, g);
  }

  /** A request keeps its descriptors, its buffer and its direction while it is in flight. */
  lemma RequestStays(q: Queue, q': Queue, e: Event, h: int)
    requires Inv(q) && Next(q, q', e) && h in q.chains
    ensures h in q'.chains <==> e != Finish(h)
    ensures h in q'.chains ==> q'.chains[h] == q.chains[h].(stage := q'.chains[h].stage)
  {
    if e.Submit? {
      assert ChainOk(q, h) && DescOk(q, e.h);
    }
  }

  /** b->blockno * (BSIZE / 512), computed in 32 bits. */
  function Sector(blockno: int): int {
    blockno * 2 % 0x1_0000_0000
  }

  /** Two blocks have different sectors, and a block's two sectors are its own, up to the block that wraps around. */
  lemma SectorsApart(a: int, b: int)
    requires 0 <= a < b < 0x1_0000_0000
    ensures b < 0x8000_0000 ==> Sector(a) == 2 * a && Sector(a) + 2 <= Sector(b)
    ensures Sector(a) == Sector(b) <==> b == a + 0x8000_0000
  {
  }

  /** What virtio_disk_rw asked for, `buf` read or written, is what the device finds. */
  predicate AsksFor(q: Queue, h: int, d1: int, d2: int, buf: int, write: bool, sector: int) {
    && Sizes(q) && IsDesc(h) && IsDesc(d1) && IsDesc(d2)
    && q.desc[h] == Desc(Header(h), true, true, d1) && q.info[h].buf == buf && q.info[h].write == write
    && q.info[h].sector == sector
    && q.desc[d1] == Desc(Data(buf), write, true, d2) && q.desc[d2] == Desc(Status(h), false, false, 0)
  }

  /** The request waits for its answer, its buffer is busy, and the device is told of its head. */
  predicate Announced(q: Queue, q': Queue, h: int, d1: int, d2: int, buf: int) {
    && Sizes(q) && Sizes(q') && IsDesc(h) && q'.info[h].status == 0xff
    && buf in q'.busy && q'.busy[buf] && q'.availIdx == Wrap(q.availIdx + 1)
    && 0 <= q.availIdx % NUM < NUM && q'.avail[q.availIdx % NUM] == h
    && forall i :: 0 <= i < NUM ==> q'.free[i] == (q.free[i] && i != h && i != d1 && i != d2)
  }

  lemma SubmitAsks(q: Queue, h: int, d1: int, d2: int, buf: int, write: bool, sector: int)
    requires Sizes(q) && CanSubmit(q, h, d1, d2)
    ensures var q' := Submitted(q, h, d1, d2, buf, write, sector);
            AsksFor(q', h, d1, d2, buf, write, sector) && Announced(q, q', h, d1, d2, buf)
  {
  }

  lemma ChainAsks(q: Queue, h: int)
    requires Inv(q) && h in q.chains
    ensures var c := q.chains[h]; AsksFor(q, h, c.d1, c.d2, c.buf, c.write, c.sector)
  {
    assert ChainOk(q, h);
  }

  /** In every run a request in flight asks for what it was submitted for. */
  lemma RequestKept(run: seq<Queue>, j: int, i: int, e: Event)
    requires IsRun(run) && 0 < j <= i < |run| && e.Submit? && Next(run[j - 1], run[j], e)
    requires forall k {:trigger run[k]} :: j <= k <= i ==> e.h in run[k].chains
    ensures e.h in run[i].chains && AsksFor(run[i], e.h, e.d1, e.d2, e.buf, e.write, e.sector)
  {
    ChainKept(run, j, i, e);
    RunInv(run, i);
    ChainAsks(run[i], e.h);
  }

  lemma {:induction false} ChainKept(run: seq<Queue>, j: int, i: int, e: Event)
    requires IsRun(run) && 0 < j <= i < |run| && e.Submit? && Next(run[j - 1], run[j], e)
    requires forall k {:trigger run[k]} :: j <= k <= i ==> e.h in run[k].chains
    ensures e.h in run[i].chains
    ensures run[i].chains[e.h] == Chain(e.d1, e.d2, e.buf, e.write, e.sector, run[i].chains[e.h].stage)
    decreases i - j
  {
    assert e.h in run[i].chains;
    if i > j {
      ChainKept(run, j, i - 1, e);
      RunInv(run, i - 1);
      assert StepAt(run, i);
      var e' :| Next(run[i - 1], run[i], e');
      RequestStays(run[i - 1], run[i], e', e.h);
    }
  }

  /** Between the step that puts an entry into the avail ring and the step that takes it, its slot keeps its head. */
  lemma EntriesSurvive(run: seq<Queue>, i: int, k: int)
    requires IsRun(run) && 0 <= i < |run| && 0 <= k < |run[i].pending|
    ensures var q := run[i]; |q.avail| == NUM && q.avail[(q.puts - |q.pending| + k) % NUM] == q.pending[k]
    ensures var q := run[i]; q.pending[k] in q.chains && q.chains[q.pending[k]].stage.Queued? && 3 * |q.pending| <= NUM
  {
    RunInv(run, i);
    var q := run[i];
    assert SlotOk(q.avail, q.pending, q.puts, k);
    assert q.pending[k] in q.pending && StageOk(q, q.pending[k]);
    RingsShort(q);
  }
}

/** kernel/virtio_disk.c itself, on arrays. */
module VirtioCode {
  import opened VirtQueue

  /** A failed alloc3_desc may clear free descriptors. */
  lemma ClearedFree(q: Queue, desc: seq<Desc>)
    requires Inv(q) && |desc| == NUM && forall i :: 0 <= i < NUM && !q.free[i] ==> desc[i] == q.desc[i]
    ensures Inv(q.(desc := desc))
  {
    var q' := q.(desc := desc);
    forall i | IsDesc(i)
      ensures DescOk(q', i)
    {
      assert DescOk(q, i);
    }
    forall h
      ensures StageOk(q', h)
    {
      assert StageOk(q, h);
    }
    forall h | h in q'.chains
      ensures ChainOk(q', h)
    {
      assert ChainOk(q, h);
      assert DescOk(q, h) && DescOk(q, q.chains[h].d1) && DescOk(q, q.chains[h].d2);
    }
    forall g, g'
      ensures BufsApart(q', g, g')
    {
      assert BufsApart(q, g, g');
    }
  }

  /**
   From `q` to `q'`, some requests of the used ring have been reported to the
   buffers that issued them, and nothing else has happened.
   */
  ghost predicate Reports(q: Queue, q': Queue) {
    && q'.(chains := q.chains, busy := q.busy, done := q.done, seenIdx := q.seenIdx) == q
    && (forall h {:trigger h in q'.chains} :: h in q'.chains <==> h in q.chains)
    && (forall h {:trigger q'.chains[h]} :: h in q.chains && h in q'.chains ==>
          && q'.chains[h] == q.chains[h].(stage := if h in q.done && h !in q'.done then Reported else q.chains[h].stage)
          && (q.chains[h].buf in q.busy ==> q.chains[h].buf in q'.busy))
    && (forall h {:trigger h in q'.done} :: h in q'.done ==> h in q.done)
    && (forall b {:trigger b in q'.busy} ::
        b in q.busy ==> b in q'.busy && (q'.busy[b] <==> q.busy[b] && !IssuedReported(q, q', b)))
  }

  /** `b` is the buffer of one of the requests reported. */
  ghost predicate IssuedReported(q: Queue, q': Queue, b: int) {
    exists h {:trigger h in q.done} :: h in q.done && h !in q'.done && h in q.chains && q.chains[h].buf == b
  }

  ghost predicate ReportsAll(q: Queue, q': Queue) {
    Reports(q, q') && q'.done == []
  }

  lemma ReportedNone(q: Queue)
    ensures Reports(q, q)
  {
  }

  lemma ReportsMore(q: Queue, q1: Queue)
    requires Inv(q) && Inv(q1) && Reports(q, q1) && q1.done != [] && q1.done[0] in q1.chains &&
      IsDesc(q1.used[q1.seenIdx % NUM])
    ensures Reports(q, ReportedOne(q1))
  {
    ReportInv(q1);
    var q2, h := ReportedOne(q1), q1.done[0];
    Dequeued(q1.done);
    assert h in q1.done && ChainOk(q, h);
    forall b | b in q.busy
      ensures b in q2.busy && (q2.busy[b] <==> q.busy[b] && !IssuedReported(q, q2, b))
    {
      if IssuedReported(q, q1, b) {
        var g :| g in q.done && g !in q1.done && g in q.chains && q.chains[g].buf == b;
        assert g !in q2.done;
      }
      if b == q.chains[h].buf {
        assert h in q.done && h !in q2.done;
      }
    }
  }

  /** The links that free_chain follows. */
  predicate Linked(desc: seq<Desc>, free: seq<bool>, h: int, d1: int, d2: int) {
    && |desc| == NUM && |free| == NUM && IsDesc(h) && IsDesc(d1) && IsDesc(d2) && h != d1 && h != d2 && d1 != d2
    && desc[h].hasNext && desc[h].next == d1 && desc[d1].hasNext && desc[d1].next == d2 && !desc[d2].hasNext
    && !free[h] && !free[d1] && !free[d2]
  }

  class Disk {
    const free: array<bool>
    const desc: array<Desc>
    const info: array<Info>
    const avail: array<int>
    const used: array<int>
    var availIdx: int
    var takenIdx: int
    var usedIdx: int
    var seenIdx: int
    var busy: map<int, bool>
    ghost var own: seq<int>
    ghost var chains: map<int, Chain>
    ghost var pending: seq<int>
    ghost var done: seq<int>
    ghost var puts: int
    ghost var gets: int

    ghost predicate Arrays() {
      free.Length == NUM && desc.Length == NUM && info.Length == NUM && avail.Length == NUM && used.Length == NUM &&
          avail != used
    }

    ghost function View(): Queue
      reads this, free, desc, info, avail, used
    {
      Queue(free[..], desc[..], info[..], avail[..], used[..], availIdx, takenIdx, usedIdx, seenIdx, busy, own, chains,
          pending, done, puts, gets)
    }

    ghost predicate Valid()
      reads this, free, desc, info, avail, used
    {
      Arrays() && Inv(View())
    }

    /** alloc_desc: the first free descriptor, or -1. */
    method AllocDesc() returns (i: int)
      requires free.Length == NUM
      modifies free
      ensures i == -1 <==> CountFree(old(free[..])) == 0
      ensures i == -1 ==> free[..] == old(free[..])
      ensures i != -1 ==> IsDesc(i) && old(free[i]) && free[..] == old(free[..])[i := false]
    {
      CountBounds(free[..]);
      i := 0;
      while i < NUM
        invariant 0 <= i <= NUM && free[..] == old(free[..])
        invariant forall k :: 0 <= k < i ==> !old(free[..])[k]
      {
        if free[i] {
          assert old(free[..])[i];
          free[i] := false;
          return;
        }
        i := i + 1;
      }
      i := -1;
    }

    /** free_desc; its two panics are the preconditions. */
    method FreeDesc(i: int)
      requires Arrays() && IsDesc(i) && !free[i]
      modifies free, desc
      ensures free[..] == old(free[..])[i := true] && desc[..] == old(desc[..])[i := BLANK]
    {
      desc[i] := BLANK;
      free[i] := true;
    }

    method FreeChain(head: int, ghost d1: int, ghost d2: int)
      requires Arrays() && Linked(desc[..], free[..], head, d1, d2)
      modifies free, desc
      ensures free[..] == old(free[..])[head := true][d1 := true][d2 := true]
      ensures desc[..] == old(desc[..])[head := BLANK][d1 := BLANK][d2 := BLANK]
    {
      var i := head;
      ghost var n := 0;
      while true
        invariant 0 <= n < 3 && i == (if n == 0 then head else if n == 1 then d1 else d2)
        invariant n == 0 ==> free[..] == old(free[..]) && desc[..] == old(desc[..])
        invariant n == 1 ==> free[..] == old(free[..])[head := true] && desc[..] == old(desc[..])[head := BLANK]
        invariant n == 2 ==>
          free[..] == old(free[..])[head := true][d1 := true] && desc[..] == old(desc[..])[head := BLANK][d1 := BLANK]
        decreases 3 - n
      {
        assert free[i] == free[..][i] && desc[i] == desc[..][i];
        var flag := desc[i].hasNext;
        var nxt := desc[i].next;
        FreeDesc(i);
        if flag {
          i := nxt;
          n := n + 1;
        } else {
          break;
        }
      }
    }

    /** alloc3_desc: three descriptors, or none. */
    method Alloc3Desc() returns (ok: bool, h: int, d1: int, d2: int)
      requires Arrays()
      modifies free, desc
      ensures ok ==>
        desc[..] == old(desc[..]) && IsDesc(h) && IsDesc(d1) && IsDesc(d2) && h != d1 && h != d2 && d1 != d2
      ensures ok ==>
        old(free[h]) && old(free[d1]) && old(free[d2]) &&
        free[..] == old(free[..])[h := false][d1 := false][d2 := false]
      ensures !ok ==> free[..] == old(free[..]) && CountFree(free[..]) < 3
      ensures !ok ==> forall i :: 0 <= i < NUM && !free[i] ==> desc[i] == old(desc[i])
    {
      ok, h, d1, d2 := false, -1, -1, -1;
      h := AllocDesc();
      if h < 0 {
        return;
      }
      CountSet(old(free[..]), h, false);
      d1 := AllocDesc();
      if d1 < 0 {
        FreeDesc(h);
        assert free[..] == old(free[..]);
        return;
      }
      CountSet(old(free[..])[h := false], d1, false);
      assert d1 != h && old(free[..])[d1];
      d2 := AllocDesc();
      if d2 < 0 {
        assert !free[..][h];
        FreeDesc(h);
        assert !free[..][d1];
        FreeDesc(d1);
        assert free[..] == old(free[..]);
        return;
      }
      assert d2 != h && d2 != d1 && old(free[..])[d2];
      ok := true;
    }

    /** virtio_disk_init's software part. */
    constructor ()
      ensures Valid() && Init(View()) && fresh(free) && fresh(desc) && fresh(info) && fresh(avail) && fresh(used)
    {
      free := new bool[NUM](i => true);
      desc := new Desc[NUM](i => BLANK);
      info := new Info[NUM](i => Info(0, 0, false, 0));
      avail := new int[NUM](i => 0);
      used := new int[NUM](i => 0);
      availIdx, takenIdx, usedIdx, seenIdx, busy := 0, 0, 0, 0, map[];
      own := seq(NUM, _ => -1);
      chains, pending, done, puts, gets := map[], [], [], 0, 0;
      new;
      InitInv(View());
    }

    /** virtio_disk_rw formats the three descriptors. */
    method FillIn(h: int, d1: int, d2: int, buf: int, write: bool, sector: int)
      requires Arrays() && IsDesc(h) && IsDesc(d1) && IsDesc(d2)
      modifies desc, info
      ensures desc[..] == old(desc[..])[h := Desc(Header(h), true, true, d1)]
                                       [d1 := Desc(Data(buf), write, true, d2)]
                                       [d2 := Desc(Status(h), false, false, 0)]
      ensures info[..] == old(info[..])[h := Info(buf, 0xff, write, sector)]
    {
      desc[h] := Desc(Header(h), true, true, d1);
      desc[d1] := Desc(Data(buf), write, true, d2);
      info[h] := Info(buf, 0xff, write, sector);
      desc[d2] := Desc(Status(h), false, false, 0);
    }

    /**
     virtio_disk_rw from one attempt to allocate descriptors up to the wait for the
     interrupt; without descriptors it sleeps and tries again.
     */
    method Rw(buf: int, write: bool, blockno: int) returns (ok: bool, h: int, ghost d1: int, ghost d2: int)
      requires Valid() && IsIdle(View(), buf)
      modifies this, free, desc, info, avail
      ensures Valid()
      ensures ok ==>
        CanSubmit(old(View()), h, d1, d2) && View() == Submitted(old(View()), h, d1, d2, buf, write, Sector(blockno))
      ensures !ok ==> View() == old(View()).(desc := desc[..]) && CountFree(free[..]) < 3
      ensures ok ==> AsksFor(View(), h, d1, d2, buf, write, Sector(blockno))
      ensures ok ==> Announced(old(View()), View(), h, d1, d2, buf)
    {
      var sector := Sector(blockno);
      ghost var q := View();
      var i1, i2;
      ok, h, i1, i2 := Alloc3Desc();
      d1, d2 := i1, i2;
      if !ok {
        ClearedFree(q, desc[..]);
        return;
      }
      Submit(h, i1, i2, buf, write, sector, q);
      SubmitAsks(q, h, d1, d2, buf, write, sector);
    }

    /** virtio_disk_rw once it has its descriptors. */
    method Submit(h: int, d1: int, d2: int, buf: int, write: bool, sector: int, ghost q: Queue)
      requires Arrays() && Inv(q) && CanSubmit(q, h, d1, d2) && IsIdle(q, buf)
      requires View() == q.(free := q.free[h := false][d1 := false][d2 := false])
      modifies this, desc, info, avail
      ensures Valid() && View() == Submitted(q, h, d1, d2, buf, write, sector)
    {
      SubmitInv(q, h, d1, d2, buf, write, sector);
      FillIn(h, d1, d2, buf, write, sector);
      ghost var q' := Submitted(q, h, d1, d2, buf, write, sector);
      assert View() == q.(free := q'.free, desc := q'.desc, info := q'.info);
      Announce(buf, h, q, q');
    }

    /** virtio_disk_rw hands the chain to the device. */
    method Announce(buf: int, h: int, ghost q: Queue, ghost q': Queue)
      requires Arrays() && Sizes(q) && q.availIdx == availIdx &&
        View() == q.(free := q'.free, desc := q'.desc, info := q'.info)
      requires q' == q.(free := q'.free, desc := q'.desc, info := q'.info,
                        own := q'.own, chains := q'.chains, pending := q'.pending, puts := q'.puts,
                        busy := busy[buf := true],
                        avail := q.avail[availIdx % NUM := h],
                        availIdx := Wrap(availIdx + 1))
      modifies this, avail
      ensures View() == q'
    {
      busy := busy[buf := true];
      avail[availIdx % NUM] := h;
      availIdx := Wrap(availIdx + 1);
      own, chains, pending, puts := q'.own, q'.chains, q'.pending, q'.puts;
      assert avail[..] == q'.avail;
    }

    /** The device reads the avail entry after the last one it took. */
    method DeviceTake() returns (h: int)
      requires Valid() && pending != []
      modifies this
      ensures Valid() && old(pending[0] in chains) && View() == TakenOne(old(View())) && h == old(pending[0])
    {
      ghost var q := View();
      TakeInv(q);
      h := avail[takenIdx % NUM];
      assert h == q.avail[q.takenIdx % NUM];
      takenIdx := Wrap(takenIdx + 1);
      chains, pending := WithStage(q, h, Taken), pending[1..];
      assert View() == TakenOne(q);
    }

    /** The device is done with request `h`. */
    method DeviceComplete(h: int)
      requires Valid() && h in chains && chains[h].stage.Taken?
      modifies this, info, used
      ensures Valid() && IsDesc(h) && View() == CompletedOne(old(View()), h)
      ensures info[h] == old(info[h]).(status := 0) && usedIdx == Wrap(old(usedIdx) + 1)
    {
      hide Rings, ChainOk, DescOk, StageOk;
      ghost var q := View();
      CompleteInv(q, h);
      info[h] := info[h].(status := 0);
      used[usedIdx % NUM] := h;
      usedIdx := Wrap(usedIdx + 1);
      ghost var q' := CompletedOne(q, h);
      assert used[..] == q'.used && info[..] == q'.info;
      chains, done, gets := q'.chains, q'.done, q'.gets;
      assert View() == q';
    }

    /** virtio_disk_intr: every buffer whose request is in the used ring is done, and no other. */
    method Intr()
      requires Valid()
      modifies this
      ensures Valid() && done == [] && seenIdx == usedIdx
      ensures ReportsAll(old(View()), View())
    {
      ghost var q := View();
      ReportedNone(q);
      SeesEntries(q);
      while seenIdx != usedIdx
        invariant Valid() && (seenIdx != usedIdx <==> done != [])
        invariant Reports(q, View())
        decreases |done|
      {
        ghost var q1 := View();
        ReportInv(q1);
        var id := used[seenIdx % NUM];
        assert id == q1.used[q1.seenIdx % NUM] && info[id] == q1.info[id];
        // A status other than 0 would be the panic.
        assert info[id].status == 0;
        busy := busy[info[id].buf := false];
        seenIdx := Wrap(seenIdx + 1);
        chains, done := WithStage(q1, q1.done[0], Reported), done[1..];
        assert View() == ReportedOne(q1);
        ReportsMore(q, q1);
        SeesEntries(View());
      }
    }

    /** virtio_disk_rw after its wait: the request gives its descriptors back. */
    method Finish(h: int)
      requires Valid() && h in chains && chains[h].buf in busy && !busy[chains[h].buf]
      modifies this, free, desc, info
      ensures Valid() && old(ChainOk(View(), h)) && View() == Finished(old(View()), h)
      ensures var c := old(chains[h]);
              forall i :: 0 <= i < NUM ==> free[i] == (old(free[i]) || i == h || i == c.d1 || i == c.d2)
      ensures info[h].buf == 0 && h !in chains
    {
      ghost var q := View();
      assert ChainOk(q, h);
      FinishInv(q, h);
      info[h] := info[h].(buf := 0);
      ghost var c := q.chains[h];
      assert Linked(desc[..], free[..], h, c.d1, c.d2);
      FreeChain(h, c.d1, c.d2);
      ghost var q' := Finished(q, h);
      own, chains := q'.own, q'.chains;
      assert View() == q';
    }
  }
}
