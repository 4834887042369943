/** ngx_http_ctpp2_get_tmpl_header: find the response header that names the template.
    The response headers are an ngx_list_t, a chain of parts each holding an array of
    ngx_table_elt_t; the lookup walks them in order, compares keys with ngx_strcasecmp,
    and takes the first match, zeroing its hash so that the header is not sent on. */
module Headers {
  import opened NgxCore

  /** An ngx_table_elt_t: its hash (zero means deleted) and its key and value. */
  class Header {
    var hash: nat
    const key: seq<byte>
    const value: seq<byte>

    constructor (hash: nat, key: seq<byte>, value: seq<byte>)
      ensures this.hash == hash && this.key == key && this.value == value
    {
      this.hash := hash;
      this.key := key;
      this.value := value;
    }
  }

  /** ngx_tolower as ngx_strcasecmp applies it: ASCII upper case to lower case. */
  function Lower(c: byte): (l: byte)
    ensures 65 <= c <= 90 ==> l == c + 32
    ensures !(65 <= c <= 90) ==> l == c
  {
    if 65 <= c <= 90 then c + 32 else c
  }

  /** Two keys of equal length that agree up to case. */
  predicate CaseEqual(a: seq<byte>, b: seq<byte>)
  {
    |a| == |b| && forall i :: 0 <= i < |a| ==> Lower(a[i]) == Lower(b[i])
  }

  /** A key in lower case. */
  function Lowered(s: seq<byte>): (l: seq<byte>)
    ensures |l| == |s| && forall i :: 0 <= i < |s| ==> l[i] == Lower(s[i])
  {
    seq(|s|, i requires 0 <= i < |s| => Lower(s[i]))
  }

  /** Comparing up to case is comparing the lower-cased keys; so it is an equivalence
      and only letters may differ. */
  lemma {:induction false} CaseEqualIsLowered(a: seq<byte>, b: seq<byte>)
    ensures CaseEqual(a, b) <==> Lowered(a) == Lowered(b)
    ensures CaseEqual(a, b) ==> CaseEqual(b, a)
  {
    if Lowered(a) == Lowered(b) {
      forall i | 0 <= i < |a|
        ensures Lower(a[i]) == Lower(b[i])
      {
        assert Lowered(a)[i] == Lowered(b)[i];
      }
    }
  }

  /** A byte that is not an ASCII letter matches only itself. */
  lemma {:induction false} NonLettersExact(a: seq<byte>, b: seq<byte>, i: nat)
    requires CaseEqual(a, b) && i < |a|
    requires !(65 <= a[i] <= 90) && !(97 <= a[i] <= 122)
    ensures b[i] == a[i]
  {
    assert Lower(a[i]) == Lower(b[i]);
  }

  /** All the headers of the list, part after part. */
  function Elements(parts: seq<seq<Header>>): seq<Header>
  {
    if parts == [] then [] else Elements(parts[..|parts| - 1]) + parts[|parts| - 1]
  }

  /** The number of headers in the parts before part p. */
  function Before(parts: seq<seq<Header>>, p: nat): nat
    requires p <= |parts|
  {
    |Elements(parts[..p])|
  }

  lemma {:induction false} BeforeNext(parts: seq<seq<Header>>, p: nat)
    requires p < |parts|
    ensures Before(parts, p + 1) == Before(parts, p) + |parts[p]|
  {
    assert parts[..p + 1][..p] == parts[..p];
  }

  lemma {:induction false} ElementsTake(parts: seq<seq<Header>>, p: nat)
    requires p <= |parts|
    ensures Before(parts, p) <= |Elements(parts)|
    ensures Elements(parts)[..Before(parts, p)] == Elements(parts[..p])
    decreases |parts|
  {
    if p < |parts| {
      var front := parts[..|parts| - 1];
      assert front[..p] == parts[..p];
      ElementsTake(front, p);
    } else {
      assert parts[..p] == parts;
    }
  }

  /** Element i of part p sits at Before(parts, p) + i in the flattened list. */
  lemma {:induction false} ElementAt(parts: seq<seq<Header>>, p: nat, i: nat)
    requires p < |parts| && i < |parts[p]|
    ensures Before(parts, p) + i < |Elements(parts)| && Elements(parts)[Before(parts, p) + i] == parts[p][i]
  {
    var e := Elements(parts[..p + 1]);
    assert parts[..p + 1][..p] == parts[..p];
    assert e == Elements(parts[..p]) + parts[p];
    ElementsTake(parts, p + 1);
    assert Elements(parts)[..|e|] == e;
  }

  /** The index of the first header whose key matches `name`, if any. */
  function FirstMatch(hs: seq<Header>, name: seq<byte>): (k: Option<nat>)
    ensures k.Some? ==> k.value < |hs| && CaseEqual(name, hs[k.value].key) &&
                        forall j :: 0 <= j < k.value ==> !CaseEqual(name, hs[j].key)
    ensures k.None? ==> forall j :: 0 <= j < |hs| ==> !CaseEqual(name, hs[j].key)
  {
    if hs == [] then None
    else if CaseEqual(name, hs[0].key) then Some(0)
    else match FirstMatch(hs[1..], name)
      case None => None
      case Some(k) => Some(k + 1)
  }

  /** The lookup. Every part after the first of an nginx list holds at least one
      element, which is what lets the loop read the first element of a new part
      before testing its count. The answer is the header whose value is returned, or
      null. */
  method GetTmplHeader(parts: seq<seq<Header>>, name: seq<byte>) returns (h: Header?)
    requires |parts| > 0
    requires forall p :: 0 < p < |parts| ==> |parts[p]| > 0
    modifies set p, i | 0 <= p < |parts| && 0 <= i < |parts[p]| :: parts[p][i]
    ensures h == null <==> FirstMatch(Elements(parts), name).None?
    ensures h != null ==> h == Elements(parts)[FirstMatch(Elements(parts), name).value] && h.hash == 0
    ensures forall q, j :: 0 <= q < |parts| && 0 <= j < |parts[q]| && parts[q][j] != h ==>
              parts[q][j].hash == old(parts[q][j].hash)
  {
    var p := 0;
    var i := 0;
    ghost var hs := Elements(parts);
    while true
      invariant p < |parts| && i <= |parts[p]|
      invariant Before(parts, p) + i <= |hs|
      invariant forall j :: 0 <= j < Before(parts, p) + i ==> !CaseEqual(name, hs[j].key)
      invariant forall q, j :: 0 <= q < |parts| && 0 <= j < |parts[q]| ==> parts[q][j].hash == old(parts[q][j].hash)
      decreases |hs| - (Before(parts, p) + i), |parts| - p
    {
      if i >= |parts[p]| {
        if p + 1 == |parts| {
          break;
        }
        BeforeNext(parts, p);
        p := p + 1;
        i := 0;
      }
      ElementAt(parts, p, i);
      if !CaseEqual(name, parts[p][i].key) {
        i := i + 1;
        continue;
      }
      h := parts[p][i];
      h.hash := 0;
      FirstMatchIs(hs, name, Before(parts, p) + i);
      return;
    }
    assert parts[..p] + [parts[p]] == parts;
    FirstMatchNone(hs, name);
    h := null;
  }

  lemma {:induction false} FirstMatchIs(hs: seq<Header>, name: seq<byte>, k: nat)
    requires k < |hs| && CaseEqual(name, hs[k].key)
    requires forall j :: 0 <= j < k ==> !CaseEqual(name, hs[j].key)
    ensures FirstMatch(hs, name) == Some(k)
    decreases k
  {
    if k > 0 {
      FirstMatchIs(hs[1..], name, k - 1);
    }
  }

  lemma {:induction false} FirstMatchNone(hs: seq<Header>, name: seq<byte>)
    requires forall j :: 0 <= j < |hs| ==> !CaseEqual(name, hs[j].key)
    ensures FirstMatch(hs, name) == None
    decreases |hs|
  {
    if hs != [] {
      FirstMatchNone(hs[1..], name);
    }
  }
}
