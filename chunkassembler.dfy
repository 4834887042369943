/** The chunk assembler of the filter module (ngx_http_ctpp2_fillbuffer): it copies the
    unread bytes of a chain of source buffers into one fixed-capacity destination and
    answers NGX_AGAIN, NGX_OK or NGX_DONE with *in moved to where reading resumes. The
    closed form of the result comes first, then the chunk-by-chunk walk that specifies
    the loop and the properties tying the two together, then the methods on buffers.
    The body filter's decisions on the result are in module BodyFilter. */
module ChunkAssembler {
  import opened NgxCore

  /** What the assembler sees of one source buffer: its unread bytes pos..last and
      whether it carries an end-of-stream mark. */
  datatype Chunk = Chunk(data: seq<byte>, marked: bool)

  /** The unread bytes of the first k chunks, in chain order. */
  function Joined(cs: seq<Chunk>, k: nat): (r: seq<byte>)
    requires k <= |cs|
    ensures |r| == Pre(cs, k)
  {
    if k == 0 then [] else Joined(cs, k - 1) + cs[k - 1].data
  }

  /** How many bytes the first k chunks hold. */
  function Pre(cs: seq<Chunk>, k: nat): nat
    requires k <= |cs|
  {
    if k == 0 then 0 else Pre(cs, k - 1) + |cs[k - 1].data|
  }

  function Total(cs: seq<Chunk>): nat
  {
    Pre(cs, |cs|)
  }

  lemma {:induction false} PreMonotone(cs: seq<Chunk>, j: nat, k: nat)
    requires j <= k <= |cs|
    ensures Pre(cs, j) <= Pre(cs, k)
    decreases k - j
  {
    if j < k {
      PreMonotone(cs, j, k - 1);
    }
  }

  /** The bytes before chunk k followed by a prefix of chunk k form a prefix of all the
      unread bytes. */
  lemma {:induction false} JoinedPrefix(cs: seq<Chunk>, k: nat, t: nat, n: nat)
    requires k < n <= |cs| && t <= |cs[k].data|
    ensures Pre(cs, k) + t <= Pre(cs, n)
    ensures Joined(cs, n)[..Pre(cs, k) + t] == Joined(cs, k) + cs[k].data[..t]
    decreases n - k
  {
    if n == k + 1 {
      assert Joined(cs, n) == Joined(cs, k) + cs[k].data;
    } else {
      JoinedPrefix(cs, k, t, n - 1);
      assert Joined(cs, n) == Joined(cs, n - 1) + cs[n - 1].data;
    }
  }


  /** All unread bytes of the chain. */
  function Unread(cs: seq<Chunk>): seq<byte>
  {
    Joined(cs, |cs|)
  }

  /** The index of the chunk during which the destination runs out of room: the first k
      whose end reaches `room`. It exists exactly when the chain holds at least `room`
      bytes. */
  function StopFrom(room: nat, cs: seq<Chunk>, k: nat): (s: nat)
    requires k < |cs| && room <= Total(cs)
    requires k == 0 || Pre(cs, k) < room
    ensures k <= s < |cs|
    ensures room <= Pre(cs, s + 1)
    ensures s == 0 || Pre(cs, s) < room
    decreases |cs| - k
  {
    if room <= Pre(cs, k + 1) then k else StopFrom(room, cs, k + 1)
  }

  function Stop(room: nat, cs: seq<Chunk>): (s: nat)
    requires |cs| > 0 && room <= Total(cs)
    ensures s < |cs| && room <= Pre(cs, s + 1) && (s == 0 || Pre(cs, s) < room)
  {
    StopFrom(room, cs, 0)
  }

  /** The stop index is the only index with that property. */
  lemma {:induction false} StopUnique(room: nat, cs: seq<Chunk>, s: nat)
    requires |cs| > 0 && room <= Total(cs)
    requires s < |cs| && room <= Pre(cs, s + 1) && (s == 0 || Pre(cs, s) < room)
    ensures s == Stop(room, cs)
  {
    var t := Stop(room, cs);
    if s < t {
      PreMonotone(cs, s + 1, t);
    } else if t < s {
      PreMonotone(cs, t + 1, s);
    }
  }

  /** Bytes taken from chunk k: the smaller of what it holds and the room left when the
      copy reaches it. */
  function Taken(room: nat, cs: seq<Chunk>, k: nat): (t: nat)
    requires k < |cs|
    ensures t <= |cs[k].data|
  {
    var left := if room > Pre(cs, k) then room - Pre(cs, k) else 0;
    if |cs[k].data| < left then |cs[k].data| else left
  }

  /** Number of bytes the destination gains. */
  function Gain(room: nat, cs: seq<Chunk>): (g: nat)
    ensures g <= room && g <= Total(cs)
  {
    if room < Total(cs) then room else Total(cs)
  }

  /** A chunk as it is left after the copy: what was taken is gone. */
  function Rest(room: nat, cs: seq<Chunk>, k: nat): (c: Chunk)
    requires k < |cs|
    ensures c.marked == cs[k].marked
    ensures |c.data| + Taken(room, cs, k) == |cs[k].data|
  {
    Chunk(cs[k].data[Taken(room, cs, k)..], cs[k].marked)
  }

  function After(room: nat, cs: seq<Chunk>): (a: seq<Chunk>)
    ensures |a| == |cs|
  {
    seq(|cs|, k requires 0 <= k < |cs| => Rest(room, cs, k))
  }

  /** Return code of fillbuffer and where *in points afterwards (|cs| stands for NULL).
      When the destination fills at the end of a marked chunk, *in is left where it was. */
  datatype Outcome = Outcome(rc: Rc, next: nat)

  function FillOutcome(room: nat, cs: seq<Chunk>): (o: Outcome)
    requires |cs| > 0
    ensures o.next <= |cs|
    ensures o.rc == Ok || o.rc == Again || o.rc == Done
    ensures Total(cs) < room ==> o.next == |cs| && o.rc != Ok
    ensures room <= Total(cs) ==> o.rc == Done || o.rc == Ok
  {
    if Total(cs) < room then
      Outcome(if cs[|cs| - 1].marked then Done else Again, |cs|)
    else
      var s := Stop(room, cs);
      if Pre(cs, s + 1) == room then
        if cs[s].marked then Outcome(Done, 0) else Outcome(Ok, s + 1)
      else
        Outcome(Ok, s)
  }

  /** Every chunk before index k is taken whole when the first k chunks fit. */
  lemma {:induction false} TakenBefore(room: nat, cs: seq<Chunk>, k: nat)
    requires k <= |cs| && (k == 0 || Pre(cs, k) < room)
    ensures forall j :: 0 <= j < k ==> Taken(room, cs, j) == |cs[j].data|
  {
    if k > 0 {
      assert Pre(cs, k) == Pre(cs, k - 1) + |cs[k - 1].data|;
      TakenBefore(room, cs, k - 1);
    }
  }

  /** No chunk after the one that fills the destination is touched. */
  lemma {:induction false} TakenAfter(room: nat, cs: seq<Chunk>, k: nat)
    requires k < |cs| && room <= Pre(cs, k + 1)
    ensures forall j :: k < j < |cs| ==> Taken(room, cs, j) == 0
  {
    forall j | k < j < |cs|
      ensures Taken(room, cs, j) == 0
    {
      PreMonotone(cs, k + 1, j);
    }
  }

  /** What the specification says when the destination fills during chunk k. */
  lemma {:induction false} FillStopsAt(room: nat, cs: seq<Chunk>, k: nat, size: nat)
    requires k < |cs| && size <= |cs[k].data|
    requires k == 0 || Pre(cs, k) < room
    requires Pre(cs, k) + size == room
    requires size == |cs[k].data| || size == room - Pre(cs, k)
    ensures room <= Total(cs) && Gain(room, cs) == room
    ensures Unread(cs)[..room] == Joined(cs, k) + cs[k].data[..size]
    ensures FillOutcome(room, cs) ==
              if size < |cs[k].data| then Outcome(Ok, k)
              else if cs[k].marked then Outcome(Done, 0) else Outcome(Ok, k + 1)
    ensures forall j :: 0 <= j < |cs| ==>
              Taken(room, cs, j) == (if j < k then |cs[j].data| else if j == k then size else 0)
  {
    JoinedPrefix(cs, k, size, |cs|);
    PreMonotone(cs, k + 1, |cs|);
    StopUnique(room, cs, k);
    TakenBefore(room, cs, k);
    TakenAfter(room, cs, k);
  }

  /** What the specification says when every chunk fits. */
  lemma {:induction false} FillDrains(room: nat, cs: seq<Chunk>)
    requires |cs| > 0 && Pre(cs, |cs|) < room
    ensures Gain(room, cs) == Total(cs)
    ensures FillOutcome(room, cs) == Outcome(if cs[|cs| - 1].marked then Done else Again, |cs|)
    ensures forall j :: 0 <= j < |cs| ==> Taken(room, cs, j) == |cs[j].data|
    ensures Unread(cs)[..Gain(room, cs)] == Joined(cs, |cs|)
  {
    TakenBefore(room, cs, |cs|);
  }

  /** Writing `src` over a sequence made of P, Q and R, right after Q. */
  lemma {:induction false} Splice(x: seq<byte>, y: seq<byte>, p: seq<byte>, q: seq<byte>, r: seq<byte>, src: seq<byte>)
    requires x == p + q + r && |src| <= |r|
    requires y == x[..|p| + |q|] + src + x[|p| + |q| + |src|..]
    ensures y == p + (q + src) + r[|src|..]
  {
    assert x[..|p| + |q|] == p + q;
    assert x[|p| + |q| + |src|..] == r[|src|..];
  }

  /** The result of one fillbuffer call on values: the outcome, the bytes appended to
      the destination, and how many bytes were taken from each chunk. */
  datatype Run = Run(outcome: Outcome, copied: seq<byte>, taken: seq<nat>)

  /** n zero counts: the chunks a call does not reach. */
  function Zeros(n: nat): (z: seq<nat>)
    ensures |z| == n && forall i :: 0 <= i < n ==> z[i] == 0
  {
    if n == 0 then [] else Zeros(n - 1) + [0]
  }

  /** fillbuffer followed chunk by chunk from chunk k, with `rest` bytes of room left,
      the bytes `got` already copied and `tk` taken from each earlier chunk. */
  function FillFrom(rest: nat, cs: seq<Chunk>, k: nat, got: seq<byte>, tk: seq<nat>): (r: Run)
    requires k < |cs| && |tk| == k
    ensures |r.taken| == |cs| && |r.copied| <= |got| + rest
    decreases |cs| - k
  {
    var size := if rest < |cs[k].data| then rest else |cs[k].data|;
    if rest == size then
      var outcome :=
        if size < |cs[k].data| then Outcome(Ok, k)
        else if cs[k].marked then Outcome(Done, 0)
        else Outcome(Ok, k + 1);
      Run(outcome, got + cs[k].data[..size], tk + [size] + Zeros(|cs| - k - 1))
    else if k + 1 == |cs| then
      Run(Outcome(if cs[k].marked then Done else Again, |cs|), got + cs[k].data, tk + [size])
    else
      FillFrom(rest - size, cs, k + 1, got + cs[k].data, tk + [size])
  }

  /** One step of the walk over a chunk that fits with room to spare. */
  lemma {:induction false} FillFromStep(rest: nat, cs: seq<Chunk>, k: nat, got: seq<byte>, tk: seq<nat>)
    requires k < |cs| && |tk| == k && |cs[k].data| < rest
    ensures FillFrom(rest, cs, k, got, tk) ==
              if k + 1 == |cs| then
                Run(Outcome(if cs[k].marked then Done else Again, |cs|),
                    got + cs[k].data, tk + [|cs[k].data|])
              else
                FillFrom(rest - |cs[k].data|, cs, k + 1, got + cs[k].data, tk + [|cs[k].data|])
  {
  }

  function Fill(room: nat, cs: seq<Chunk>): (r: Run)
    requires |cs| > 0
    ensures |r.taken| == |cs| && |r.copied| <= room
  {
    FillFrom(room, cs, 0, [], [])
  }

  /** The walk agrees with the closed form so far: chunks before k were taken whole
      and there was room after each of them. */
  ghost predicate WalkSoFar(room: nat, cs: seq<Chunk>, k: nat, got: seq<byte>, tk: seq<nat>)
  {
    k < |cs| && |tk| == k && (k == 0 || Pre(cs, k) < room) && got == Joined(cs, k) &&
    forall j :: 0 <= j < k ==> tk[j] == |cs[j].data|
  }

  /** The per-chunk counts of the walk when chunk k fills the destination. */
  lemma {:induction false} WalkStopsTaken(room: nat, cs: seq<Chunk>, k: nat, got: seq<byte>, tk: seq<nat>)
    requires WalkSoFar(room, cs, k, got, tk)
    requires room - Pre(cs, k) <= |cs[k].data|
    ensures forall j :: 0 <= j < |cs| ==>
              FillFrom(room - Pre(cs, k), cs, k, got, tk).taken[j] == Taken(room, cs, j)
  {
    var size := room - Pre(cs, k);
    var r := FillFrom(size, cs, k, got, tk);
    FillStopsAt(room, cs, k, size);
    var zeros := Zeros(|cs| - k - 1);
    assert r.taken == tk + [size] + zeros;
    forall j | 0 <= j < |cs|
      ensures r.taken[j] == Taken(room, cs, j)
    {
      if j < k {
        assert r.taken[j] == tk[j];
      } else if j == k {
        assert r.taken[j] == size;
      } else {
        assert r.taken[j] == zeros[j - k - 1] == 0;
      }
    }
  }

  /** The walk's result when chunk k fills the destination. */
  lemma {:induction false} WalkStops(room: nat, cs: seq<Chunk>, k: nat, got: seq<byte>, tk: seq<nat>)
    requires WalkSoFar(room, cs, k, got, tk)
    requires room - Pre(cs, k) <= |cs[k].data|
    ensures var r := FillFrom(room - Pre(cs, k), cs, k, got, tk);
            r.outcome == FillOutcome(room, cs) &&
            r.copied == Unread(cs)[..Gain(room, cs)] &&
            forall j :: 0 <= j < |cs| ==> r.taken[j] == Taken(room, cs, j)
  {
    var size := room - Pre(cs, k);
    FillStopsAt(room, cs, k, size);
    WalkStopsTaken(room, cs, k, got, tk);
  }

  /** The walk's result when the last chunk still leaves room. */
  lemma {:induction false} WalkDrains(room: nat, cs: seq<Chunk>, k: nat, got: seq<byte>, tk: seq<nat>)
    requires WalkSoFar(room, cs, k, got, tk)
    requires |cs[k].data| < room - Pre(cs, k) && k + 1 == |cs|
    ensures var r := FillFrom(room - Pre(cs, k), cs, k, got, tk);
            r.outcome == FillOutcome(room, cs) &&
            r.copied == Unread(cs)[..Gain(room, cs)] &&
            forall j :: 0 <= j < |cs| ==> r.taken[j] == Taken(room, cs, j)
  {
    assert Pre(cs, k + 1) == Pre(cs, k) + |cs[k].data| < room;
    FillDrains(room, cs);
    assert Joined(cs, k + 1) == got + cs[k].data;
  }

  /** From any point of the walk that agrees with the closed form so far, the walk ends
      where the closed form says. */
  lemma {:induction false} WalkMatches(room: nat, cs: seq<Chunk>, k: nat, got: seq<byte>, tk: seq<nat>)
    requires WalkSoFar(room, cs, k, got, tk)
    ensures var r := FillFrom(room - Pre(cs, k), cs, k, got, tk);
            r.outcome == FillOutcome(room, cs) &&
            r.copied == Unread(cs)[..Gain(room, cs)] &&
            forall j :: 0 <= j < |cs| ==> r.taken[j] == Taken(room, cs, j)
    decreases |cs| - k
  {
    var rest := room - Pre(cs, k);
    if rest <= |cs[k].data| {
      WalkStops(room, cs, k, got, tk);
    } else if k + 1 == |cs| {
      WalkDrains(room, cs, k, got, tk);
    } else {
      var size := |cs[k].data|;
      assert Pre(cs, k + 1) == Pre(cs, k) + size < room;
      assert Joined(cs, k + 1) == got + cs[k].data;
      var tk' := tk + [size];
      assert WalkSoFar(room, cs, k + 1, got + cs[k].data, tk');
      WalkMatches(room, cs, k + 1, got + cs[k].data, tk');
    }
  }

  /** The chunk-by-chunk walk and the closed form agree on every input. */
  lemma {:induction false} FillMatches(room: nat, cs: seq<Chunk>)
    requires |cs| > 0
    ensures Fill(room, cs).outcome == FillOutcome(room, cs)
    ensures Fill(room, cs).copied == Unread(cs)[..Gain(room, cs)]
    ensures forall j :: 0 <= j < |cs| ==> Fill(room, cs).taken[j] == Taken(room, cs, j)
  {
    WalkMatches(room, cs, 0, [], []);
  }

  /** The unread bytes of the first k chunks are the unread bytes of the chain cut
      after k chunks. */
  lemma {:induction false} JoinedTake(cs: seq<Chunk>, k: nat)
    requires k <= |cs|
    ensures Joined(cs, k) == Unread(cs[..k])
    decreases k
  {
    if k > 0 {
      JoinedTake(cs, k - 1);
      JoinedTake(cs[..k], k - 1);
      assert cs[..k][..k - 1] == cs[..k - 1];
    }
  }

  /** The unread bytes of a chain are those of its first k chunks followed by those of
      the rest. */
  lemma {:induction false} UnreadSplit(cs: seq<Chunk>, k: nat)
    requires k <= |cs|
    ensures Unread(cs) == Joined(cs, k) + Unread(cs[k..])
    decreases |cs|
  {
    if k < |cs| {
      var n := |cs| - 1;
      var front := cs[..n];
      JoinedTake(cs, n);
      UnreadSplit(front, k);
      JoinedTake(cs, k);
      JoinedTake(front, k);
      assert front[..k] == cs[..k];
      assert cs[k..][..n - k] == front[k..];
      JoinedTake(cs[k..], n - k);
    }
  }

  /** Chunks after the one that fills the destination are left as they were. */
  lemma {:induction false} AfterUntouched(room: nat, cs: seq<Chunk>, k: nat)
    requires k < |cs| && room <= Pre(cs, k + 1)
    ensures After(room, cs)[k + 1..] == cs[k + 1..]
  {
    TakenAfter(room, cs, k);
    var a := After(room, cs);
    forall j | k + 1 <= j < |cs|
      ensures a[j] == cs[j]
    {
      assert cs[j].data[0..] == cs[j].data;
    }
  }

  /** The bytes of chunk k on, read from offset t of chunk k. */
  lemma {:induction false} UnreadFrom(cs: seq<Chunk>, k: nat, t: nat)
    requires k < |cs| && t <= |cs[k].data|
    ensures Pre(cs, k) + t <= Total(cs)
    ensures Unread(cs)[Pre(cs, k) + t..] == cs[k].data[t..] + Unread(cs[k + 1..])
  {
    PreMonotone(cs, k + 1, |cs|);
    UnreadSplit(cs, k + 1);
    assert Joined(cs, k + 1) == Joined(cs, k) + cs[k].data;
  }

  /** The unread bytes from chunk s on: chunk s's, then those of the chunks after it. */
  lemma {:induction false} UnreadHead(cs: seq<Chunk>, s: nat)
    requires s < |cs|
    ensures Unread(cs[s..]) == cs[s].data + Unread(cs[s + 1..])
  {
    UnreadSplit(cs[s..], 1);
    assert cs[s..][1..] == cs[s + 1..];
    assert Joined(cs[s..], 1) == cs[s].data;
  }

  /** The leftover chain when the destination fills inside chunk s. */
  lemma {:induction false} LeftoverPartial(room: nat, cs: seq<Chunk>, s: nat)
    requires s < |cs| && Pre(cs, s) <= room < Pre(cs, s + 1)
    ensures room <= Total(cs)
    ensures Unread(After(room, cs)[s..]) == Unread(cs)[room..]
  {
    var a := After(room, cs);
    var t := room - Pre(cs, s);
    UnreadFrom(cs, s, t);
    AfterUntouched(room, cs, s);
    UnreadHead(a, s);
    assert a[s].data == cs[s].data[t..];
  }

  /** The leftover chain when the destination fills at the end of chunk s. */
  lemma {:induction false} LeftoverExact(room: nat, cs: seq<Chunk>, s: nat)
    requires s < |cs| && Pre(cs, s + 1) == room
    ensures room <= Total(cs)
    ensures Unread(After(room, cs)[s + 1..]) == Unread(cs)[room..]
  {
    UnreadFrom(cs, s, |cs[s].data|);
    assert cs[s].data[|cs[s].data|..] == [];
    AfterUntouched(room, cs, s);
  }

  /** When fillbuffer returns NGX_OK, the chain from the new *in holds exactly the
      bytes that did not fit: nothing is lost and nothing is copied twice. */
  lemma {:induction false} Leftover(room: nat, cs: seq<Chunk>)
    requires |cs| > 0 && FillOutcome(room, cs).rc == Ok
    ensures room <= Total(cs)
    ensures Unread(After(room, cs)[FillOutcome(room, cs).next..]) == Unread(cs)[room..]
  {
    var s := Stop(room, cs);
    if Pre(cs, s + 1) == room {
      LeftoverExact(room, cs, s);
    } else {
      LeftoverPartial(room, cs, s);
    }
  }

  /** The value view of a source buffer. */
  function View(b: Buf): (c: Chunk)
    reads b, b.mem
    requires b.Valid()
    ensures |c.data| == b.last - b.pos
  {
    Chunk(Written(b), b.Marked())
  }

  /** The copy step of the loop: as many unread bytes of `b` as fit in `rest` go to the
      destination at `p`, right after the bytes `got` already copied there. */
  method CopyChunk(buf: Buf, p: nat, rest: nat, b: Buf, ghost c: Chunk,
                   ghost m0: seq<byte>, ghost l0: nat, ghost got: seq<byte>) returns (size: nat)
    requires b.Valid() && b.mem[b.pos..b.last] == c.data && b.mem != buf.mem
    requires p + rest == buf.mem.Length == |m0| && l0 + |got| == p
    requires buf.mem[..] == m0[..l0] + got + m0[p..]
    modifies buf.mem
    ensures size == if rest < |c.data| then rest else |c.data|
    ensures buf.mem[..] == m0[..l0] + (got + c.data[..size]) + m0[p + size..]
  {
    size := b.last - b.pos;
    size := if rest < size then rest else size;
    assert b.mem[b.pos..b.pos + size] == c.data[..size];
    ghost var before := buf.mem[..];
    Copy(buf.mem, p, b.mem[b.pos..b.pos + size]);
    Splice(before, buf.mem[..], m0[..l0], got, m0[p..], c.data[..size]);
    assert m0[p..][size..] == m0[p + size..];
  }

  /** The chunks `cs` are what the buffers of `chain` show. */
  ghost predicate Shows(chain: seq<Buf>, cs: seq<Chunk>)
    reads chain, set k | 0 <= k < |chain| :: chain[k].mem
  {
    |chain| == |cs| && forall k :: 0 <= k < |chain| ==> chain[k].Valid() && View(chain[k]) == cs[k]
  }

  /** The read positions of the chain's buffers. */
  ghost function Positions(chain: seq<Buf>): (ps: seq<nat>)
    reads chain
    ensures |ps| == |chain| && forall j :: 0 <= j < |chain| ==> ps[j] == chain[j].pos
  {
    seq(|chain|, j requires 0 <= j < |chain| reads chain => chain[j].pos)
  }

  /** The branch of fillbuffer taken when the destination has just become full while
      copying `size` bytes of chunk k: the destination is marked full, the chunk's
      position advances past what was copied, and the result says where *in goes. */
  method FillFull(buf: Buf, chain: seq<Buf>, k: nat, size: nat, ghost cs: seq<Chunk>,
                  ghost room: nat, ghost got: seq<byte>, ghost tk: seq<nat>, ghost pos0: seq<nat>)
    returns (rc: Rc, next: nat)
    requires k < |chain| == |cs| == |pos0| && |tk| == k && buf !in chain
    requires forall i, j :: 0 <= i < j < |chain| ==> chain[i] != chain[j]
    requires chain[k].pos + |cs[k].data| == chain[k].last && chain[k].Marked() == cs[k].marked
    requires size <= |cs[k].data|
    requires Fill(room, cs) == FillFrom(size, cs, k, got, tk)
    requires forall j :: 0 <= j < |chain| ==> chain[j].pos == pos0[j] + (if j < k then tk[j] else 0)
    modifies buf`last, chain`pos
    ensures buf.last == buf.mem.Length
    ensures Outcome(rc, next) == Fill(room, cs).outcome
    ensures Fill(room, cs).copied == got + cs[k].data[..size]
    ensures forall j :: 0 <= j < |chain| ==> chain[j].pos == pos0[j] + Fill(room, cs).taken[j]
  {
    ghost var r := Fill(room, cs);
    assert r.taken == tk + [size] + Zeros(|cs| - k - 1);
    buf.last := buf.mem.Length;
    var b := chain[k];
    b.pos := b.pos + size;
    if b.last == b.pos {
      if b.lastBuf || b.lastInChain {
        return Done, 0;
      }
      return Ok, k + 1;
    }
    return Ok, k;
  }

  /** The body of fillbuffer's loop for chunk k, up to the test for a full
      destination: copy what fits of chunk k and, when room is left, consume the chunk
      whole and move on. The ghost state says where the walk of the specification
      stands: the bytes `got` copied so far and `tk` taken from each earlier chunk. */
  method Take(buf: Buf, chain: seq<Buf>, b: Buf, k: nat, p: nat, rest: nat, ghost cs: seq<Chunk>,
              ghost room: nat, ghost l0: nat, ghost m0: seq<byte>, ghost got: seq<byte>,
              ghost tk: seq<nat>, ghost pos0: seq<nat>)
    returns (size: nat, ghost got': seq<byte>, ghost tk': seq<nat>)
    requires k < |chain| == |cs| == |pos0| && |tk| == k && b == chain[k]
    requires forall j :: 0 <= j < |chain| ==> chain[j] != buf && chain[j].mem != buf.mem
    requires forall i, j :: 0 <= i < j < |chain| ==> chain[i] != chain[j]
    requires b.Valid() && b.mem[b.pos..b.last] == cs[k].data
    requires Fill(room, cs) == FillFrom(rest, cs, k, got, tk)
    requires p == l0 + |got| && p + rest == buf.mem.Length == |m0|
    requires buf.mem[..] == m0[..l0] + got + m0[p..]
    requires forall j :: 0 <= j < |chain| ==> chain[j].pos == pos0[j] + (if j < k then tk[j] else 0)
    modifies buf.mem, b`pos
    ensures size <= rest && size <= |cs[k].data|
    ensures size == rest ==>
              got' == got && tk' == tk && b.pos == old(b.pos) &&
              Fill(room, cs) == FillFrom(size, cs, k, got, tk) &&
              buf.mem[..] == m0[..l0] + (got + cs[k].data[..size]) + m0[p + size..]
    ensures size < rest ==>
              size == |cs[k].data| && b.pos == b.last && |tk'| == k + 1 &&
              p + size == l0 + |got'| &&
              buf.mem[..] == m0[..l0] + got' + m0[p + size..] &&
              (forall j :: 0 <= j < |chain| ==> chain[j].pos == pos0[j] + (if j <= k then tk'[j] else 0)) &&
              (k + 1 == |cs| ==> Fill(room, cs) == Run(Outcome(if cs[k].marked then Done else Again, |cs|), got', tk')) &&
              (k + 1 < |cs| ==> Fill(room, cs) == FillFrom(rest - size, cs, k + 1, got', tk'))
  {
    size := CopyChunk(buf, p, rest, b, cs[k], m0, l0, got);
    got', tk' := got, tk;
    if size < rest {
      FillFromStep(rest, cs, k, got, tk);
      assert cs[k].data[..size] == cs[k].data;
      b.pos := b.last;
      got' := got + cs[k].data;
      tk' := tk + [size];
    }
  }

  /** The loop of fillbuffer, from the first chunk until the destination is full
      (`full`, chunk k holding the byte that filled it, `size` bytes of it copied, its
      position not yet advanced) or until the last chunk k has been consumed whole. `p`
      is where the copy of chunk k started or, after the last chunk, where the copied
      bytes end. */
  method Walk(buf: Buf, chain: seq<Buf>, ghost cs: seq<Chunk>, ghost room: nat, ghost l0: nat,
               ghost m0: seq<byte>, ghost pos0: seq<nat>)
    returns (k: nat, p: nat, size: nat, full: bool, ghost got: seq<byte>, ghost tk: seq<nat>)
    requires buf.Valid() && |chain| > 0 && Shows(chain, cs)
    requires |pos0| == |chain| && forall j :: 0 <= j < |chain| ==> pos0[j] == chain[j].pos
    requires l0 == buf.last && m0 == buf.mem[..] && room == buf.mem.Length - l0
    requires forall j :: 0 <= j < |chain| ==> chain[j] != buf && chain[j].mem != buf.mem
    requires forall i, j :: 0 <= i < j < |chain| ==> chain[i] != chain[j]
    modifies buf.mem, chain`pos
    ensures k < |chain| && |tk| == k + (if full then 0 else 1) && p == l0 + |got|
    ensures full ==>
              p + size == buf.mem.Length && size <= |cs[k].data| &&
              Fill(room, cs) == FillFrom(size, cs, k, got, tk) &&
              buf.mem[..] == m0[..l0] + (got + cs[k].data[..size]) + m0[p + size..] &&
              forall j :: 0 <= j < |chain| ==> chain[j].pos == pos0[j] + (if j < k then tk[j] else 0)
    ensures !full ==>
              k == |chain| - 1 && p <= buf.mem.Length &&
              Fill(room, cs) == Run(Outcome(if cs[k].marked then Done else Again, |cs|), got, tk) &&
              buf.mem[..] == m0[..l0] + got + m0[p..] &&
              forall j :: 0 <= j < |chain| ==> chain[j].pos == pos0[j] + tk[j]
  {
    got, tk := [], [];
    p := buf.last;
    var rest: nat := buf.mem.Length - p;
    k := 0;
    while true
      invariant k < |chain| && |tk| == k
      invariant Fill(room, cs) == FillFrom(rest, cs, k, got, tk)
      invariant p == l0 + |got| && p + rest == buf.mem.Length
      invariant buf.mem[..] == m0[..l0] + got + m0[p..]
      invariant forall j :: 0 <= j < |chain| ==> chain[j].pos == pos0[j] + (if j < k then tk[j] else 0)
      decreases |chain| - k
    {
      var b := chain[k];
      assert old(View(b)) == cs[k];
      assert b.mem[b.pos..b.last] == old(b.mem[b.pos..b.last]);
      ghost var got', tk';
      size, got', tk' := Take(buf, chain, b, k, p, rest, cs, room, l0, m0, got, tk, pos0);
      if size == rest {
        full := true;
        return;
      }
      p, got, tk := p + size, got', tk';
      if k + 1 == |chain| {
        full := false;
        return;
      }
      rest := rest - size;
      k := k + 1;
    }
  }

  /** ngx_http_ctpp2_fillbuffer. `chain` is the list *in points to; the second result is
      the new *in as an index into it, |chain| standing for NULL. `cs` names what the
      chain holds on entry. */
  method FillBuffer(buf: Buf, chain: seq<Buf>, ghost cs: seq<Chunk>) returns (rc: Rc, next: nat)
    requires buf.Valid() && |chain| > 0 && Shows(chain, cs)
    requires forall k :: 0 <= k < |chain| ==> chain[k] != buf && chain[k].mem != buf.mem
    requires forall j, k :: 0 <= j < k < |chain| ==> chain[j] != chain[k]
    modifies buf`last, buf.mem, chain`pos
    ensures buf.Valid()
    ensures Outcome(rc, next) == Fill(old(buf.Room()), cs).outcome
    ensures buf.last == old(buf.last) + |Fill(old(buf.Room()), cs).copied|
    ensures buf.mem[..] == old(buf.mem[..buf.last]) + Fill(old(buf.Room()), cs).copied
                           + old(buf.mem[..])[buf.last..]
    ensures forall k :: 0 <= k < |chain| ==>
              chain[k].pos == old(chain[k].pos) + Fill(old(buf.Room()), cs).taken[k]
  {
    ghost var room, l0, m0 := buf.Room(), buf.last, buf.mem[..];
    ghost var pos0 := Positions(chain);
    var k, p, size, full, got, tk := Walk(buf, chain, cs, room, l0, m0, pos0);
    assert old(View(chain[k])) == cs[k];
    if full {
      rc, next := FillFull(buf, chain, k, size, cs, room, got, tk, pos0);
      return;
    }
    buf.last := p;
    var b := chain[k];
    rc := if b.lastBuf || b.lastInChain then Done else Again;
    next := |chain|;
  }
}
