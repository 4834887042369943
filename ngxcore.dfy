/** Shared vocabulary of the nginx side: bytes, return codes, buffers (ngx_buf_t),
    the request pool, and the flattening of byte sequences used by every component. */
module NgxCore {

  newtype byte = x: int | 0 <= x < 256

  /** The nginx return codes the module exchanges: NGX_OK, NGX_ERROR, NGX_AGAIN, NGX_DONE. */
  datatype Rc = Ok | Error | Again | Done

  datatype Option<T> = None | Some(value: T)

  /** An ngx_buf_t over one memory block: `start` is index 0 of `mem` and `end` is
      mem.Length; `pos..last` is the part not yet consumed (for a source chunk) or the
      part already written (for a destination, whose pos stays at start). */
  class Buf {
    const mem: array<byte>
    var pos: nat
    var last: nat
    var lastBuf: bool
    var lastInChain: bool

    /** ngx_create_temp_buf: a fresh block of `size` bytes with pos == last == start. */
    constructor CreateTemp(size: nat)
      ensures fresh(mem) && mem.Length == size
      ensures pos == 0 && last == 0 && !lastBuf && !lastInChain
    {
      mem := new byte[size];
      pos, last := 0, 0;
      lastBuf, lastInChain := false, false;
    }

    ghost predicate Valid()
      reads this
    {
      pos <= last <= mem.Length
    }

    /** The chunk carries an end-of-stream mark (last_buf or last_in_chain). */
    predicate Marked()
      reads this
    {
      lastBuf || lastInChain
    }

    /** Room left between last and end. */
    function Room(): (r: nat)
      reads this
      requires Valid()
      ensures last + r == mem.Length
    {
      mem.Length - last
    }
  }

  /** The request pool, reduced to what matters here: how many more allocations it
      will grant before ngx_palloc/ngx_alloc_chain_link return NULL. */
  class Pool {
    var left: nat

    constructor (allocations: nat)
      ensures left == allocations
    {
      left := allocations;
    }

    method Alloc() returns (ok: bool)
      modifies this
      ensures ok == (old(left) > 0)
      ensures left == if ok then old(left) - 1 else old(left)
    {
      ok := left > 0;
      if ok {
        left := left - 1;
      }
    }
  }

  /** The bytes pos..last of a buffer: what is still unread in a source buffer, what
      has been written into a destination. */
  function Written(b: Buf): seq<byte>
    reads b, b.mem
    requires b.pos <= b.last <= b.mem.Length
  {
    b.mem[b.pos..b.last]
  }

  /** ngx_memcpy / ngx_cpymem: the bytes `src` land in dst[d..], the rest of the block
      stays as it was. */
  method Copy(dst: array<byte>, d: nat, src: seq<byte>)
    requires d + |src| <= dst.Length
    modifies dst
    ensures dst[..] == old(dst[..d]) + src + old(dst[d + |src|..])
  {
    var i := 0;
    while i < |src|
      invariant 0 <= i <= |src|
      invariant forall k :: 0 <= k < d ==> dst[k] == old(dst[k])
      invariant forall k :: d <= k < d + i ==> dst[k] == src[k - d]
      invariant forall k :: d + i <= k < dst.Length ==> dst[k] == old(dst[k])
    {
      dst[d + i] := src[i];
      i := i + 1;
    }
    assert forall k :: 0 <= k < dst.Length ==>
             dst[..][k] == (old(dst[..d]) + src + old(dst[d + |src|..]))[k];
  }

  /** ngx_cpymem into a buffer: `src` lands right after the bytes already written. */
  method Append(b: Buf, src: seq<byte>)
    requires b.last + |src| <= b.mem.Length
    modifies b`last, b.mem
    ensures b.last == old(b.last) + |src|
    ensures b.mem[..b.last] == old(b.mem[..b.last]) + src
  {
    Copy(b.mem, b.last, src);
    b.last := b.last + |src|;
  }

  /** Concatenation of a sequence of byte runs, built from the back as the chains grow. */
  function Flatten(ss: seq<seq<byte>>): seq<byte>
  {
    if ss == [] then [] else Flatten(ss[..|ss| - 1]) + ss[|ss| - 1]
  }

  lemma {:induction false} FlattenAppend(a: seq<seq<byte>>, b: seq<seq<byte>>)
    ensures Flatten(a + b) == Flatten(a) + Flatten(b)
    decreases |b|
  {
    if b == [] {
      assert a + b == a;
    } else {
      var b' := b[..|b| - 1];
      assert (a + b)[..|a + b| - 1] == a + b';
      FlattenAppend(a, b');
    }
  }

  lemma {:induction false} FlattenOne(x: seq<byte>)
    ensures Flatten([x]) == x
  {
    assert [x][..0] == [];
  }
}
