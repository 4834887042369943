/** The two string helpers of the filter module. An ngx_str_t is a length and a pointer
    to a block of at least that many bytes; both helpers allocate a new block from the
    pool, write a NUL-terminated copy into it and point the string at it, or leave the
    string alone and answer NGX_ERROR when the pool refuses. */
module NgxStrings {
  import opened NgxCore

  /** An ngx_str_t: `len` bytes at the start of `data`. */
  class NgxStr {
    var data: array<byte>
    var len: nat

    constructor (data: array<byte>, len: nat)
      requires len <= data.Length
      ensures this.data == data && this.len == len
    {
      this.data := data;
      this.len := len;
    }

    /** The string's characters. */
    ghost function Text(): seq<byte>
      reads this, data
      requires len <= data.Length
    {
      data[..len]
    }
  }

  /** The block a NUL-terminated copy of `s` occupies. */
  function Nulled(s: seq<byte>): (b: seq<byte>)
    ensures |b| == |s| + 1 && b[..|s|] == s && b[|s|] == 0
  {
    s + [0]
  }

  /** ngx_strprepend_nulled: `to` becomes `what` followed by its old text, in a fresh
      block that ends with a NUL right after the new length. */
  method StrPrependNulled(what: NgxStr, to: NgxStr, pool: Pool) returns (rc: Rc)
    requires what.len <= what.data.Length && to.len <= to.data.Length
    modifies to, pool
    ensures rc == Ok || rc == Error
    ensures rc == Ok <==> old(pool.left) > 0
    ensures rc == Ok ==> fresh(to.data) && to.len == old(what.len) + old(to.len) &&
                         to.data[..] == Nulled(old(what.Text()) + old(to.Text()))
    ensures rc == Error ==> to.data == old(to.data) && to.len == old(to.len)
  {
    var s := what.len + to.len;
    var ok := pool.Alloc();
    if !ok {
      return Error;
    }
    ghost var w, t := what.Text(), to.Text();
    var b := new byte[s + 1];
    Copy(b, 0, what.data[..what.len]);
    assert b[..what.len] == w;
    Copy(b, what.len, to.data[..to.len]);
    assert b[..s] == w + t;
    b[s] := 0;
    assert b[..] == b[..s] + [0];
    to.data := b;
    to.len := s;
    rc := Ok;
  }

  /** ngx_strterminate: the same text and length, now in a fresh block with a NUL
      right after the last character. */
  method StrTerminate(str: NgxStr, pool: Pool) returns (rc: Rc)
    requires str.len <= str.data.Length
    modifies str, pool
    ensures rc == Ok || rc == Error
    ensures rc == Ok <==> old(pool.left) > 0
    ensures str.len == old(str.len)
    ensures rc == Ok ==> fresh(str.data) && str.data[..] == Nulled(old(str.Text()))
    ensures rc == Error ==> str.data == old(str.data)
  {
    var ok := pool.Alloc();
    if !ok {
      return Error;
    }
    var b := new byte[str.len + 1];
    Copy(b, 0, str.data[..str.len]);
    b[str.len] := 0;
    assert b[..] == old(str.data[..str.len]) + [0];
    str.data := b;
    rc := Ok;
  }

  /** What a C reader sees in a NUL-terminated block: the bytes before the first NUL. */
  function CString(b: seq<byte>): (s: seq<byte>)
    ensures |s| <= |b| && s == b[..|s|] && 0 !in s
    ensures |s| < |b| ==> b[|s|] == 0
  {
    if b == [] || b[0] == 0 then [] else [b[0]] + CString(b[1..])
  }

  /** A nulled copy of text without NUL bytes reads back, as a C string, as that text:
      what the helpers produce is what later C-string consumers (the template path
      handed to the file cache) see. */
  lemma {:induction false} NulledReadsBack(s: seq<byte>)
    requires 0 !in s
    ensures CString(Nulled(s)) == s
    decreases |s|
  {
    if s != [] {
      assert Nulled(s)[1..] == Nulled(s[1..]);
      NulledReadsBack(s[1..]);
    }
  }
}
