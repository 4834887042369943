/** The output side of ctpp2_process: the NginxOutputCollector that the template VM
    writes through, which appends bytes to a chain of fixed-capacity buffers, and the
    way ctpp2_process hands that chain to the rest of the filter. */
module OutputCollector {
  import opened NgxCore

  /** The bytes of a chain of buffers, in order. */
  ghost function ChainBytes(bs: seq<Buf>): seq<byte>
    reads bs, set j | 0 <= j < |bs| :: bs[j].mem
    requires forall j :: 0 <= j < |bs| ==> bs[j].pos <= bs[j].last <= bs[j].mem.Length
  {
    if bs == [] then [] else ChainBytes(bs[..|bs| - 1]) + Written(bs[|bs| - 1])
  }

  lemma {:induction false} FlattenGrowLast(parts: seq<seq<byte>>, x: seq<byte>)
    requires |parts| > 0
    ensures Flatten(parts[..|parts| - 1] + [parts[|parts| - 1] + x]) == Flatten(parts) + x
  {
    var front := parts[..|parts| - 1];
    var y := parts[|parts| - 1];
    FlattenAppend(front, [y + x]);
    FlattenOne(y + x);
    FlattenAppend(front, [y]);
    FlattenOne(y);
    assert front + [y] == parts;
  }

  lemma {:induction false} FlattenAddEmpty(parts: seq<seq<byte>>)
    ensures Flatten(parts + [[]]) == Flatten(parts)
  {
    assert (parts + [[]])[..|parts|] == parts;
  }

  /** The first part comes first in the flattening. */
  lemma {:induction false} FlattenFirst(parts: seq<seq<byte>>)
    requires |parts| > 0
    ensures |parts[0]| <= |Flatten(parts)|
    ensures |parts| == 1 ==> Flatten(parts) == parts[0]
    decreases |parts|
  {
    if |parts| == 1 {
      FlattenOne(parts[0]);
      assert parts == [parts[0]];
    } else {
      FlattenFirst(parts[..|parts| - 1]);
    }
  }

  lemma {:induction false} ChainBytesParts(bs: seq<Buf>, ps: seq<seq<byte>>)
    requires |bs| == |ps|
    requires forall j :: 0 <= j < |bs| ==> bs[j].pos <= bs[j].last <= bs[j].mem.Length
    requires forall j :: 0 <= j < |bs| ==> Written(bs[j]) == ps[j]
    ensures ChainBytes(bs) == Flatten(ps)
    decreases |bs|
  {
    if bs != [] {
      ChainBytesParts(bs[..|bs| - 1], ps[..|ps| - 1]);
    }
  }

  /** ngx_create_temp_buf followed by ngx_alloc_chain_link: an empty buffer of `size`
      bytes, or null exactly when the pool cannot grant both allocations. */
  method NewPage(pool: Pool, size: nat) returns (nb: Buf?)
    modifies pool
    ensures (nb == null) == (old(pool.left) < 2)
    ensures pool.left == if nb == null then 0 else old(pool.left) - 2
    ensures nb != null ==> fresh(nb) && fresh(nb.mem) && nb.pos == 0 && nb.last == 0 && nb.mem.Length == size
  {
    var gotBuffer := pool.Alloc();
    if !gotBuffer {
      return null;
    }
    nb := new Buf.CreateTemp(size);
    var gotLink := pool.Alloc();
    if !gotLink {
      return null;
    }
  }

  class Collector {
    /** The output chain from its first link to nginxOutput, the tail. */
    var chain: seq<Buf>
    /** The running count of bytes handed to Collect. */
    var total: nat
    /** What each link of the chain holds. */
    ghost var parts: seq<seq<byte>>
    const pool: Pool
    /** ngx_pagesize, the capacity of every buffer the collector allocates. */
    const pageSize: nat

    /** Link j holds what `parts` says, within its capacity; it is full unless it is
        the tail, and it has page capacity unless it is the first. */
    ghost predicate Holds(j: nat)
      reads this`chain, this`parts, if j < |chain| then {chain[j], chain[j].mem} else {}
    {
      j < |chain| && j < |parts| &&
      chain[j].pos == 0 && chain[j].last <= chain[j].mem.Length &&
      Written(chain[j]) == parts[j] &&
      (j < |chain| - 1 ==> chain[j].last == chain[j].mem.Length) &&
      (0 < j ==> chain[j].mem.Length == pageSize)
    }

    /** Every link holds; no two links share a buffer or a memory block. The tail's
        bounds are repeated outside the quantifier for the callers that only need
        them. */
    ghost predicate Valid()
      reads this`chain, this`parts, chain, set j | 0 <= j < |chain| :: chain[j].mem
    {
      pageSize > 0 && |chain| > 0 && |parts| == |chain| &&
      chain[|chain| - 1].last <= chain[|chain| - 1].mem.Length &&
      (forall j :: 0 <= j < |chain| ==> Holds(j)) &&
      (forall i, j :: 0 <= i < j < |chain| ==> chain[i] != chain[j] && chain[i].mem != chain[j].mem)
    }

    /** Everything collected so far, in order. */
    ghost function Contents(): seq<byte>
      reads this`parts
    {
      Flatten(parts)
    }

    /** The constructor: the chain is the single link holding `first`. */
    constructor (pool: Pool, first: Buf, pageSize: nat)
      requires first.pos == 0 && first.last <= first.mem.Length && pageSize > 0
      ensures Valid() && chain == [first] && total == 0 && this.pool == pool
      ensures this.pageSize == pageSize && Contents() == first.mem[..first.last]
    {
      chain := [first];
      total := 0;
      parts := [first.mem[..first.last]];
      this.pool := pool;
      this.pageSize := pageSize;
      new;
      FlattenOne(first.mem[..first.last]);
    }

    /** The chain's bytes, read link by link, are the collected contents. */
    lemma ChainHolds()
      requires Valid()
      ensures forall j :: 0 <= j < |chain| ==> chain[j].pos <= chain[j].last <= chain[j].mem.Length
      ensures forall j :: 0 < j < |chain| ==> chain[j].mem.Length == pageSize
      ensures ChainBytes(chain) == Contents()
    {
      forall j | 0 <= j < |chain|
        ensures chain[j].pos <= chain[j].last <= chain[j].mem.Length && Written(chain[j]) == parts[j]
        ensures 0 < j ==> chain[j].mem.Length == pageSize
      {
        assert Holds(j);
      }
      ChainBytesParts(chain, parts);
    }

    /** The first link stays empty exactly when nothing was collected or it has no
        room at all: once bytes spill over into a second link, the first is full. */
    lemma FirstEmpty()
      requires Valid()
      ensures chain[0].last == 0 <==> Contents() == [] || chain[0].mem.Length == 0
    {
      assert Holds(0);
      FlattenFirst(parts);
      assert |Written(chain[0])| == chain[0].last;
    }

    /** Copy `piece` into the tail, which has room for it. */
    method PutTail(piece: seq<byte>)
      requires Valid()
      requires chain[|chain| - 1].last + |piece| <= chain[|chain| - 1].mem.Length
      modifies this`parts, chain[|chain| - 1], chain[|chain| - 1].mem
      ensures Valid() && chain == old(chain)
      ensures chain[|chain| - 1].last == old(chain[|chain| - 1].last) + |piece|
      ensures Contents() == old(Contents()) + piece
    {
      var n := |chain|;
      var tail := chain[n - 1];
      Append(tail, piece);
      FlattenGrowLast(parts, piece);
      parts := parts[..n - 1] + [parts[n - 1] + piece];
      forall j | 0 <= j < n - 1
        ensures Holds(j)
      {
        assert old(Holds(j));
        assert chain[j] != tail && chain[j].mem != tail.mem;
      }
      assert old(Holds(n - 1));
      assert Written(tail) == parts[n - 1];
      assert Holds(n - 1);
    }

    /** Link `nb`, an empty page-sized buffer of its own, after the full tail. */
    method Link(nb: Buf)
      requires Valid() && chain[|chain| - 1].last == chain[|chain| - 1].mem.Length
      requires nb.pos == 0 && nb.last == 0 && nb.mem.Length == pageSize
      requires forall j :: 0 <= j < |chain| ==> chain[j] != nb && chain[j].mem != nb.mem
      modifies this`chain, this`parts
      ensures Valid() && Contents() == old(Contents()) && chain == old(chain) + [nb]
    {
      FlattenAddEmpty(parts);
      ghost var n := |chain|;
      chain := chain + [nb];
      parts := parts + [[]];
      forall j | 0 <= j < n
        ensures Holds(j)
      {
        assert old(Holds(j));
      }
      assert Written(nb) == [];
      assert Holds(n);
    }

    /** Allocate a page-sized buffer and a chain link and make them the new tail. The
        current tail must be full. */
    method Grow() returns (ok: bool)
      requires Valid() && chain[|chain| - 1].last == chain[|chain| - 1].mem.Length
      modifies this`chain, this`parts, pool
      ensures Valid() && Contents() == old(Contents())
      ensures ok ==> |chain| == old(|chain|) + 1 && chain[..old(|chain|)] == old(chain)
      ensures ok ==> fresh(chain[|chain| - 1]) && fresh(chain[|chain| - 1].mem)
      ensures ok ==> chain[|chain| - 1].last == 0 && chain[|chain| - 1].mem.Length == pageSize
      ensures ok == (old(pool.left) >= 2)
      ensures pool.left == if ok then old(pool.left) - 2 else 0
      ensures !ok ==> chain == old(chain)
    {
      var nb := NewPage(pool, pageSize);
      if nb == null {
        return false;
      }
      Link(nb);
      assert chain[..old(|chain|)] == old(chain);
      return true;
    }

    /** One pass of Collect's loop: copy as much of data[i..] as the tail holds; if
        bytes remain, link a fresh page-sized buffer as the new tail. `stop` says the
        loop ends here, with `ok` false when an allocation failed. */
    method Round(data: seq<byte>, i: nat, free: nat, ghost before: seq<byte>)
      returns (i': nat, free': nat, stop: bool, ok: bool)
      requires Valid() && i <= |data| && free == chain[|chain| - 1].mem.Length - chain[|chain| - 1].last
      requires Contents() == before + data[..i]
      modifies this`chain, this`parts, chain[|chain| - 1], chain[|chain| - 1].mem, pool
      ensures Valid() && i <= i' <= |data| && old(chain) <= chain
      ensures free' == chain[|chain| - 1].mem.Length - chain[|chain| - 1].last
      ensures Contents() == before + data[..i']
      ensures chain[|chain| - 1] == old(chain[|chain| - 1]) ||
              (fresh(chain[|chain| - 1]) && fresh(chain[|chain| - 1].mem))
      ensures stop && ok <==> i' == |data|
      ensures stop && !ok ==> pool.left == 0
      ensures !stop ==> i' == i + free && free' == pageSize > 0 && chain != old(chain)
      ensures |data| - i <= free ==> stop && ok && chain == old(chain) && pool.left == old(pool.left)
    {
      var size := if free > |data| - i then |data| - i else free;
      PutTail(data[i..i + size]);
      i' := i + size;
      assert data[..i'] == data[..i] + data[i..i'];
      free' := free - size;
      if i' == |data| {
        return i', free', true, true;
      }
      ok := Grow();
      if !ok {
        return i', free', true, false;
      }
      free' := pageSize;
      stop := false;
    }

    /** NginxOutputCollector::Collect. The count grows by the whole length first; the
        tail is filled, then fresh page-sized buffers are linked after it until every
        byte is placed. A failed allocation aborts (the C++ code throws NGX_ERROR)
        with a prefix of `data` placed and the pool exhausted. */
    method Collect(data: seq<byte>) returns (ok: bool)
      requires Valid()
      modifies this, chain[|chain| - 1], chain[|chain| - 1].mem, pool
      ensures Valid() && total == old(total) + |data|
      ensures old(chain) <= chain
      ensures chain[|chain| - 1] == old(chain[|chain| - 1]) ||
              (fresh(chain[|chain| - 1]) && fresh(chain[|chain| - 1].mem))
      ensures ok ==> Contents() == old(Contents()) + data
      ensures !ok ==> pool.left == 0 && |Contents()| < |old(Contents())| + |data| &&
                      Contents() == (old(Contents()) + data)[..|Contents()|]
      ensures |data| <= old(chain[|chain| - 1].mem.Length - chain[|chain| - 1].last) ==>
                ok && chain == old(chain) && pool.left == old(pool.left)
    {
      ghost var c0, chain0, tail0, left0 := Contents(), chain, chain[|chain| - 1], pool.left;
      total := total + |data|;
      var free := chain[|chain| - 1].mem.Length - chain[|chain| - 1].last;
      ghost var room0 := free;
      var i := 0;
      var stop := false;
      ok := true;
      while !stop
        invariant Valid() && free == chain[|chain| - 1].mem.Length - chain[|chain| - 1].last
        invariant 0 <= i <= |data|
        invariant Contents() == c0 + data[..i]
        invariant chain0 <= chain
        invariant chain[|chain| - 1] == tail0 ||
                  (fresh(chain[|chain| - 1]) && fresh(chain[|chain| - 1].mem))
        invariant total == old(total) + |data|
        invariant stop ==> (ok <==> i == |data|) && (!ok ==> pool.left == 0)
        invariant |data| <= room0 ==> chain == chain0 && pool.left == left0 && ((stop && ok) || (!stop && i == 0 && free == room0))
        decreases |data| - i, if stop then 0 else if free == 0 then 2 else 1
      {
        i, free, stop, ok := Round(data, i, free, c0);
      }
      assert ok ==> data[..i] == data;
      assert (c0 + data)[..|c0| + i] == c0 + data[..i];
    }
  }
}
