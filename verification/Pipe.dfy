/**
 kernel/pipe.c: a ring of bytes with 32-bit counters that wrap around, and the
 processes asleep on it. Each method is one stretch of code that runs with
 pi->lock held: from acquire, or from waking up in sleep, to release or sleep.
 */
module PipeRing {
  import opened Division

  /** The sizes that the counters allow: the size divides 2^32 and is less than it. */
  type RingSize = n: int | 0 < n < 0x1_0000_0000 && 0x1_0000_0000 % n == 0 witness 512

  const PIPESIZE: RingSize

  /** A count kept in a `uint`. */
  function Wrap32(n: int): int {
    n % 0x1_0000_0000
  }

  /** PIPESIZE divides 2^32, so that the wrapped counter finds the same slot. */
  lemma WrapSlot(n: int)
    ensures Wrap32(n) % PIPESIZE == n % PIPESIZE && 0 <= n % PIPESIZE < PIPESIZE
  {
    SameSlot(n, 0x1_0000_0000, PIPESIZE);
  }

  /** The test for a full ring and the test for an empty one, on wrapped counters. */
  lemma WrapTests(got: int, sent: int)
    requires 0 <= got <= sent <= got + PIPESIZE
    ensures Wrap32(sent) == Wrap32(Wrap32(got) + PIPESIZE) <==> sent == got + PIPESIZE
    ensures Wrap32(got) == Wrap32(sent) <==> got == sent
  {
  }

  lemma WrapNext(n: int)
    ensures Wrap32(Wrap32(n) + 1) == Wrap32(n + 1)
  {
  }

  /** Byte `k` ever written is still in its slot. */
  predicate SlotOk(data: seq<int>, sent: seq<int>, k: int)
    requires |data| == PIPESIZE && 0 <= k < |sent|
  {
    data[k % PIPESIZE] == sent[k]
  }

  /** `sent` are the bytes ever written, of which the first `got` have been read. */
  ghost predicate RingOk(data: seq<int>, nread: int, nwrite: int, sent: seq<int>, got: int) {
    && |data| == PIPESIZE && 0 <= got <= |sent| <= got + PIPESIZE
    && nread == Wrap32(got) && nwrite == Wrap32(|sent|)
    && forall k {:trigger SlotOk(data, sent, k)} :: got <= k < |sent| ==> SlotOk(data, sent, k)
  }

  /** Writing a byte into a ring that is not full. */
  lemma PutByte(data: seq<int>, nread: int, nwrite: int, sent: seq<int>, got: int, ch: int)
    requires RingOk(data, nread, nwrite, sent, got) && |sent| < got + PIPESIZE
    ensures 0 <= nwrite % PIPESIZE < PIPESIZE
    ensures RingOk(data[nwrite % PIPESIZE := ch], nread, Wrap32(nwrite + 1), sent + [ch], got)
  {
    WrapSlot(|sent|);
    WrapNext(|sent|);
    var data', sent' := data[nwrite % PIPESIZE := ch], sent + [ch];
    forall k | got <= k < |sent'|
      ensures SlotOk(data', sent', k)
    {
      if k < |sent| {
        assert SlotOk(data, sent, k);
        SlotsApart(|sent|, k, PIPESIZE);
      }
    }
  }

  /** Reading a byte from a ring that is not empty gives the oldest one. */
  lemma GetByte(data: seq<int>, nread: int, nwrite: int, sent: seq<int>, got: int)
    requires RingOk(data, nread, nwrite, sent, got) && got < |sent|
    ensures 0 <= nread % PIPESIZE < PIPESIZE && data[nread % PIPESIZE] == sent[got]
    ensures RingOk(data, Wrap32(nread + 1), nwrite, sent, got + 1)
  {
    WrapSlot(got);
    WrapNext(got);
    assert SlotOk(data, sent, got);
  }

  /**
   Nobody sleeps without reason: a sleeping writer means a full ring whose read
   end is open, a sleeping reader means an empty ring whose write end is open.
   */
  predicate AwakeOk(readers: set<int>, writers: set<int>, readopen: bool, writeopen: bool, sent: int, got: int) {
    && (writers != {} ==> sent == got + PIPESIZE && readopen)
    && (readers != {} ==> sent == got && writeopen)
  }

  /**
   A writer that has something to write, writes some of it, and is then found to
   be killed: it leaves without waking up readers.
   */
  predicate KilledMidway(readopen: bool, inRing: int, n: int, i0: int, killAt: int, faultAt: int) {
    readopen && i0 < killAt < n && killAt - i0 <= PIPESIZE - inRing && !(i0 <= faultAt < killAt)
  }
}

module PipeCode {
  import opened PipeRing

  /** How a stretch of pipewrite or piperead ends: it returns a count, returns -1, or goes to sleep. */
  datatype Outcome = Returned | Failed | Slept

  class Pipe {
    const data: array<int>
    var nread: int
    var nwrite: int
    var readopen: bool
    var writeopen: bool
    var readers: set<int>
    var writers: set<int>
    ghost var sent: seq<int>
    ghost var got: int

    ghost predicate Ring()
      reads this, data
    {
      RingOk(data[..], nread, nwrite, sent, got)
    }

    ghost predicate Awake()
      reads this
    {
      AwakeOk(readers, writers, readopen, writeopen, |sent|, got)
    }

    /** The pipe that pipealloc sets up. */
    constructor ()
      ensures Ring() && Awake() && sent == [] && got == 0 && readopen && writeopen && readers == {} && writers == {} &&
        fresh(data)
    {
      data := new int[PIPESIZE](_ => 0);
      nread, nwrite, readopen, writeopen, readers, writers := 0, 0, true, true, {}, {};
      sent, got := [], 0;
    }

    /**
     pipewrite by process `p` from byte `i0` of `src` on. killed() starts to
     answer yes once `killAt` bytes are written; copyin fails at byte `faultAt`.
     */
    method Write(p: int, src: seq<int>, i0: int, killAt: int, faultAt: int) returns (out: Outcome, i: int)
      requires Ring() && 0 <= i0 <= |src|
      modifies this, data
      ensures Ring() && i0 <= i <= |src| && sent == old(sent) + src[i0..i] && got == old(got)
      ensures readopen == old(readopen) && writeopen == old(writeopen)
      ensures out.Returned? <==> i == |src| || (i == faultAt && |sent| < got + PIPESIZE && readopen && i < killAt)
      ensures out.Failed? ==> i < |src| && (!readopen || i >= killAt)
      ensures out.Slept? ==> i < |src| && |sent| == got + PIPESIZE && readopen && i < killAt
      ensures writers == if out.Slept? then old(writers) + {p} else old(writers)
      ensures readers == if out.Failed? then old(readers) else {}
      ensures KilledMidway(readopen, old(|sent|) - got, |src|, i0, killAt, faultAt) <==> out.Failed? && i > i0
      ensures out.Failed? && i > i0 ==> i == killAt
      ensures old(Awake()) ==>
        (Awake() <==> !(old(readers) != {} && KilledMidway(readopen, old(|sent|) - got, |src|, i0, killAt, faultAt)))
    {
      i := i0;
      while i < |src|
        invariant i0 <= i <= |src| && Ring() && sent == old(sent) + src[i0..i] && got == old(got)
        invariant readopen == old(readopen) && writeopen == old(writeopen) && readers == old(readers) &&
          writers == old(writers)
        invariant i <= faultAt || faultAt < i0
        invariant i <= killAt || i == i0
        invariant i > i0 ==> readopen && |old(sent)| < got + PIPESIZE
      {
        if !readopen || i >= killAt {
          assert old(Awake()) && old(writers) != {} ==> i == i0;
          return Failed, i;
        }
        WrapTests(got, |sent|);
        if nwrite == Wrap32(nread + PIPESIZE) {
          readers := {};
          writers := writers + {p};
          return Slept, i;
        }
        if i == faultAt {
          break;
        }
        PutByte(data[..], nread, nwrite, sent, got, src[i]);
        data[nwrite % PIPESIZE] := src[i];
        nwrite := Wrap32(nwrite + 1);
        sent := sent + [src[i]];
        i := i + 1;
      }
      readers := {};
      return Returned, i;
    }

    /** piperead by process `p` of up to `n` bytes; copyout fails at byte `faultAt`, and then that byte is lost. */
    method Read(p: int, n: int, killed: bool, faultAt: int) returns (out: Outcome, bytes: seq<int>)
      requires Ring() && 0 <= n
      modifies this
      ensures Ring() && (old(Awake()) ==> Awake()) && sent == old(sent) && readopen == old(readopen) &&
        writeopen == old(writeopen)
      ensures out.Slept? <==> old(got) == |sent| && writeopen && !killed
      ensures out.Failed? <==> old(got) == |sent| && writeopen && killed
      ensures !out.Returned? ==> got == old(got) && bytes == []
      ensures readers == if out.Slept? then old(readers) + {p} else old(readers)
      ensures writers == if out.Returned? then {} else old(writers)
      ensures out.Returned? ==> old(got) + |bytes| <= |sent| && bytes == sent[old(got)..old(got) + |bytes|]
      ensures out.Returned? ==>
        if 0 <= faultAt < n && old(got) + faultAt < |sent| then |bytes| == faultAt && got == old(got) + faultAt + 1
        else got == old(got) + |bytes| && |bytes| == if n <= |sent| - old(got) then n else |sent| - old(got)
    {
      bytes := [];
      WrapTests(got, |sent|);
      if nread == nwrite && writeopen {
        if killed {
          return Failed, [];
        }
        readers := readers + {p};
        return Slept, [];
      }
      while |bytes| < n
        invariant Ring() && sent == old(sent) && got == old(got) + |bytes| && |bytes| <= n
        invariant bytes == sent[old(got)..got] && (|bytes| <= faultAt || faultAt < 0)
        invariant readopen == old(readopen) && writeopen == old(writeopen) && readers == old(readers) &&
          writers == old(writers)
        decreases n - |bytes|
      {
        WrapTests(got, |sent|);
        if nread == nwrite {
          break;
        }
        GetByte(data[..], nread, nwrite, sent, got);
        var ch := data[nread % PIPESIZE];
        nread := Wrap32(nread + 1);
        got := got + 1;
        if |bytes| == faultAt {
          break;
        }
        bytes := bytes + [ch];
      }
      writers := {};
      return Returned, bytes;
    }

    /** pipeclose; `freed` says that the page goes back. */
    method Close(writable: bool) returns (freed: bool)
      requires Ring()
      modifies this
      ensures Ring() && (old(Awake()) ==> Awake()) && sent == old(sent) && got == old(got)
      ensures readopen == (old(readopen) && writable) && writeopen == (old(writeopen) && !writable)
      ensures readers == (if writable then {} else old(readers)) && writers == (if writable then old(writers) else {})
      ensures freed <==> !readopen && !writeopen
    {
      if writable {
        writeopen := false;
        readers := {};
      } else {
        readopen := false;
        writers := {};
      }
      freed := !readopen && !writeopen;
    }

    /** kill of process `p`: if it sleeps on the pipe it runs again, and finds itself killed. */
    method Kill(p: int)
      requires Ring()
      modifies this
      ensures Ring() && (old(Awake()) ==> Awake()) && sent == old(sent) && got == old(got)
      ensures readopen == old(readopen) && writeopen == old(writeopen)
      ensures readers == old(readers) - {p} && writers == old(writers) - {p}
    {
      readers := readers - {p};
      writers := writers - {p};
    }
  }

  /** The killed exit of pipewrite breaks the wakeup rule: a reader sleeps on while a byte is waiting for it. */
  method KilledWriterSkipsWakeup() returns (pipe: Pipe)
    ensures pipe.Ring() && !pipe.Awake() && 1 in pipe.readers && |pipe.sent| == 1 && pipe.got == 0 && pipe.writeopen
  {
    pipe := new Pipe();
    var out, bytes := pipe.Read(1, 1, false, -1);
    var i;
    out, i := pipe.Write(2, [7, 8], 0, 1, -1);
  }
}
