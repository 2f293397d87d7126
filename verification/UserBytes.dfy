/** The bytes that a user program sees. */
module UserBytes {
  import opened Division
  import opened Sv39
  import opened PageTable

  type Bytes = map<int, seq<int>>

  predicate CanRead(tab: Tables, r: int, va: int) {
    var e := Leaf(tab, r, va / 4096);
    0 <= va < MAXVA && IsValid(e) && IsUser(e)
  }

  predicate CanWrite(tab: Tables, r: int, va: int) {
    CanRead(tab, r, va) && IsWritable(Leaf(tab, r, va / 4096))
  }

  function ByteAt(tab: Tables, mem: Bytes, r: int, va: int): int {
    var pa := Pa(Leaf(tab, r, va / 4096));
    if pa in mem && |mem[pa]| == 4096 then mem[pa][va % 4096] else 0
  }

  function Patch(page: seq<int>, off: int, bytes: seq<int>): seq<int>
    requires 0 <= off && off + |bytes| <= |page|
  {
    page[..off] + bytes + page[off + |bytes|..]
  }

  /** A page that the user can read is backed by a frame of its own. */
  lemma ReadableFrame(tab: Tables, own: map<int, Role>, r: int, va: int)
    requires Frames(tab, own) && IsRoot(own, r) && CanRead(tab, r, va)
    ensures var v := va / 4096; var pa := Pa(Leaf(tab, r, v));
            0 <= v < USERVPN && pa in own && own[pa] == Frame(r, v)
  {
    assert LeafOk(own, r, va / 4096, Leaf(tab, r, va / 4096));
  }

  /** Addresses in the same page. */
  lemma SamePage(va: int, n: int, a: int)
    requires 0 <= va && 0 <= n <= 4096 - va % 4096 && 0 <= a
    ensures va <= a < va + n <==> a / 4096 == va / 4096 && va % 4096 <= a % 4096 < va % 4096 + n
    ensures va <= a < va + n ==> a % 4096 - va % 4096 == a - va
  {
    if va <= a < va + n {
      var t := va % 4096 + (a - va);
      assert a == 4096 * (va / 4096) + t && 0 <= t < 4096;
      DivOf(a, 4096, va / 4096, t);
    }
  }

  /** A stretch of one page, seen through its virtual addresses. */
  lemma ReadChunk(tab: Tables, mem: Bytes, r: int, va: int, pa: int, n: int)
    requires CanRead(tab, r, va) && pa == Pa(Leaf(tab, r, va / 4096)) && pa in mem && |mem[pa]| == 4096
    requires 0 <= n <= 4096 - va % 4096
    ensures forall a {:trigger CanRead(tab, r, a)} {:trigger ByteAt(tab, mem, r, a)} :: va <= a < va + n ==>
              CanRead(tab, r, a) && ByteAt(tab, mem, r, a) == mem[pa][va % 4096..va % 4096 + n][a - va]
  {
    forall a | va <= a < va + n
      ensures CanRead(tab, r, a) && ByteAt(tab, mem, r, a) == mem[pa][va % 4096..va % 4096 + n][a - va]
    {
      SamePage(va, n, a);
    }
  }

  /** memmove into one user page: what every user byte is afterwards. */
  lemma PatchedByte(tab: Tables, own: map<int, Role>, mem: Bytes, r: int, va: int, bytes: seq<int>, r': int, a: int)
    requires Frames(tab, own) && IsRoot(own, r) && IsRoot(own, r') && CanRead(tab, r, va) && CanRead(tab, r', a)
    requires |bytes| <= 4096 - va % 4096
    requires var pa := Pa(Leaf(tab, r, va / 4096)); pa in mem && |mem[pa]| == 4096
    ensures var pa := Pa(Leaf(tab, r, va / 4096));
            var mem' := mem[pa := Patch(mem[pa], va % 4096, bytes)];
            ByteAt(tab, mem', r', a) == if r' == r && va <= a < va + |bytes| then bytes[a - va]
                else ByteAt(tab, mem, r', a)
  {
    ReadableFrame(tab, own, r, va);
    ReadableFrame(tab, own, r', a);
    SamePage(va, |bytes|, a);
  }
}
