/** The decisions of ngx_http_ctpp2_body_filter and ngx_http_ctpp2_header_filter around
    the chunk assembler: how large the data buffer is, and what one call of the body
    filter does with the result of filling the template buffer and the data buffer. */
module BodyFilter {
  import opened NgxCore
  import opened ChunkAssembler

  /** Size of the data buffer the header filter allocates: the Content-Length of the
      response, or the configured ctpp2_data_buffer when the length is unknown (-1). */
  function DataBufferSize(contentLength: int, bufferSize: nat): (n: nat)
    requires contentLength >= -1
    ensures contentLength >= 0 ==> n == contentLength
    ensures contentLength == -1 ==> n == bufferSize
  {
    if contentLength == -1 then bufferSize else contentLength
  }

  /** What one call of the body filter ends with. */
  datatype Step =
    | Wait             // return NGX_OK and wait for more of the response body
    | Proceed(at: nat) // template buffer complete and accepted; go on with *in at `at`
    | Render           // data buffer complete: run the template over it
    | Fail             // finalize with 500: filling the template failed or it was rejected
    | Overflow         // finalize with 500: the data does not fit the data buffer

  /** Only the final buffer of a response carries the end-of-stream mark. */
  predicate WellFormed(cs: seq<Chunk>)
  {
    forall j :: 0 <= j < |cs| - 1 ==> !cs[j].marked
  }

  /** No buffer of the chain is an empty one without the end mark (a flush buffer);
      the final buffer may be empty. */
  predicate NoFlush(cs: seq<Chunk>)
  {
    forall j :: 0 <= j < |cs| ==> cs[j].data == [] ==> cs[j].marked
  }

  /** The template stage: fillbuffer's result on the template buffer, and whether the
      header test accepts the template buffer once it is full. */
  function TemplateStage(o: Outcome, n: nat, accepted: bool): (s: Step)
    requires o.next <= n
    ensures s == Wait || s == Fail || s.Proceed?
    ensures s.Proceed? ==> o.rc == Ok && accepted && s.at == o.next < n
  {
    match o.rc
    case Again => Wait
    case Ok => if !accepted then Fail else if o.next == n then Wait else Proceed(o.next)
    case _ => Fail
  }

  /** The data stage as written: after NGX_OK it looks only at the chunk *in now points
      to, and accepts it only if it is empty and end-marked. `left` is the chain as
      fillbuffer leaves it. */
  function DataStageAsWritten(o: Outcome, left: seq<Chunk>): (s: Step)
    requires o.next <= |left|
    ensures s == Wait || s == Render || s == Overflow
  {
    match o.rc
    case Again => Wait
    case Done => Render
    case _ =>
      if o.next == |left| then Wait
      else if left[o.next].marked && left[o.next].data == [] then Render
      else Overflow
  }

  /** The data stage as intended: after NGX_OK, overflow only if some chunk from *in
      on still holds bytes; otherwise render if the response has ended and wait if
      not. */
  function DataStage(o: Outcome, left: seq<Chunk>): (s: Step)
    requires o.next <= |left|
    ensures s == Wait || s == Render || s == Overflow
  {
    match o.rc
    case Again => Wait
    case Done => Render
    case _ =>
      var rest := left[o.next..];
      if Total(rest) > 0 then Overflow
      else if rest != [] && rest[|rest| - 1].marked then Render
      else Wait
  }

  /** The corrected data stage on the chain as it arrived and `room` bytes left in the
      data buffer. */
  function DataStep(room: nat, cs: seq<Chunk>): Step
    requires |cs| > 0
  {
    DataStage(FillOutcome(room, cs), After(room, cs))
  }

  /** The data stage as written on the chain as it arrived. */
  function DataStepAsWritten(room: nat, cs: seq<Chunk>): Step
    requires |cs| > 0
  {
    DataStageAsWritten(FillOutcome(room, cs), After(room, cs))
  }

  /** The data stage of the filter as written (`corrected` false) or as corrected. */
  function DataStepBy(corrected: bool, room: nat, cs: seq<Chunk>): Step
    requires |cs| > 0
  {
    if corrected then DataStep(room, cs) else DataStepAsWritten(room, cs)
  }

  /** The state a call of the body filter leaves: its step, and template_ready. */
  datatype Call = Call(step: Step, ready: bool)

  /** One call of ngx_http_ctpp2_body_filter with a non-empty chain and a context, up to
      the point where it renders or gives up. With `corrected` false it is the filter
      as written; with `corrected` true its data stage is the corrected one. `tmplRoom`
      and `dataRoom` are the bytes left in the two buffers, `accepted` the verdict of
      the header test on the full template buffer. */
  function BodyFilterCall(corrected: bool, ready: bool, tmplRoom: nat, accepted: bool,
                          dataRoom: nat, cs: seq<Chunk>): (c: Call)
    requires |cs| > 0
    ensures c.step == Wait || c.step == Render || c.step == Fail || c.step == Overflow
    ensures c.ready == (ready || FillOutcome(tmplRoom, cs).rc == Ok)
  {
    if ready then Call(DataStepBy(corrected, dataRoom, cs), true)
    else
      var o := FillOutcome(tmplRoom, cs);
      match TemplateStage(o, |cs|, accepted)
      case Proceed(at) => Call(DataStepBy(corrected, dataRoom, After(tmplRoom, cs)[at..]), true)
      case s => Call(s, o.rc == Ok)
  }

  /** The data stage decides by the byte count alone: overflow exactly when the chain
      holds more than the room left, render exactly when it fits and the response has
      ended, wait exactly when it fits and more may come. */
  lemma {:induction false} DataStepDecides(room: nat, cs: seq<Chunk>)
    requires |cs| > 0 && WellFormed(cs)
    ensures DataStep(room, cs) == Overflow <==> room < Total(cs)
    ensures DataStep(room, cs) == Render <==> Total(cs) <= room && cs[|cs| - 1].marked
    ensures DataStep(room, cs) == Wait <==> Total(cs) <= room && !cs[|cs| - 1].marked
  {
    var o := FillOutcome(room, cs);
    if o.rc == Ok {
      Leftover(room, cs);
      var rest := After(room, cs)[o.next..];
      assert Total(rest) == Total(cs) - room;
      if rest != [] {
        assert rest[|rest| - 1] == Rest(room, cs, |cs| - 1);
      }
      if Total(cs) == room {
        var s := Stop(room, cs);
        PreMonotone(cs, s + 1, |cs|);
      }
    } else if room <= Total(cs) {
      var s := Stop(room, cs);
      PreMonotone(cs, s + 1, |cs|);
    }
  }

  /** The data stage as written agrees with the intended one except that it may report
      an overflow where none happened; every real overflow it does report. */
  lemma {:induction false} AsWrittenOnlyOverreports(room: nat, cs: seq<Chunk>)
    requires |cs| > 0 && WellFormed(cs)
    ensures room < Total(cs) ==> DataStageAsWritten(FillOutcome(room, cs), After(room, cs)) == Overflow
    ensures DataStageAsWritten(FillOutcome(room, cs), After(room, cs)) != Overflow ==>
              DataStageAsWritten(FillOutcome(room, cs), After(room, cs)) == DataStep(room, cs)
  {
    DataStepDecides(room, cs);
    var o := FillOutcome(room, cs);
    var a := After(room, cs);
    if o.rc == Ok && o.next < |cs| && a[o.next].marked && a[o.next].data == [] {
      EndMarkedLeft(room, cs);
    }
  }

  /** When fillbuffer answers NGX_OK with *in at an empty end-marked buffer, that
      buffer is the last one and nothing was left unread. */
  lemma {:induction false} EndMarkedLeft(room: nat, cs: seq<Chunk>)
    requires |cs| > 0 && WellFormed(cs)
    requires FillOutcome(room, cs).rc == Ok && FillOutcome(room, cs).next < |cs|
    requires After(room, cs)[FillOutcome(room, cs).next] == Chunk([], true)
    ensures Total(cs) == room && DataStep(room, cs) == Render
  {
    var o := FillOutcome(room, cs);
    var a := After(room, cs);
    Leftover(room, cs);
    assert a[o.next] == Rest(room, cs, o.next);
    assert o.next == |cs| - 1;
    var rest := a[o.next..];
    assert rest == [Chunk([], true)];
    assert Unread(rest) == Joined(rest, 0) + [];
  }

  /** When the chain fits exactly and fillbuffer answers NGX_OK, *in is NULL or points
      at the buffer after the last data byte, which without flush buffers is the empty
      final one. */
  lemma {:induction false} ExactFillNext(room: nat, cs: seq<Chunk>)
    requires |cs| > 0 && NoFlush(cs)
    requires FillOutcome(room, cs).rc == Ok && Total(cs) <= room
    ensures FillOutcome(room, cs).next == |cs| ||
            After(room, cs)[FillOutcome(room, cs).next] == Chunk([], true)
  {
    Leftover(room, cs);
    assert Total(cs) == room;
    var s := Stop(room, cs);
    PreMonotone(cs, s + 1, |cs|);
    assert Pre(cs, s + 1) == room;
    assert !cs[s].marked;
    assert FillOutcome(room, cs) == Outcome(Ok, s + 1);
    if s + 1 < |cs| {
      PreMonotone(cs, s + 2, |cs|);
      assert Pre(cs, s + 2) == room + |cs[s + 1].data|;
      assert cs[s + 1].data == [];
      assert cs[s + 1].marked;
      AfterUntouched(room, cs, s);
      assert After(room, cs)[s + 1] == cs[s + 1];
    }
  }

  /** Without flush buffers the data stage as written decides exactly as the corrected
      one: its only false overflow needs an empty unmarked buffer at *in. */
  lemma {:induction false} AsWrittenAgrees(room: nat, cs: seq<Chunk>)
    requires |cs| > 0 && WellFormed(cs) && NoFlush(cs)
    ensures DataStepAsWritten(room, cs) == DataStep(room, cs)
  {
    AsWrittenOnlyOverreports(room, cs);
    DataStepDecides(room, cs);
    if FillOutcome(room, cs).rc == Ok && Total(cs) <= room {
      ExactFillNext(room, cs);
    }
  }

  /** A body that fits the data buffer exactly, delivered as a full buffer, an empty
      buffer without a mark (a flush) and the final empty buffer, is reported as an
      overflow by the data stage as written; nothing was left unread. */
  lemma {:induction false} AsWrittenFalseOverflow()
    ensures var cs := [Chunk([1, 2, 3], false), Chunk([], false), Chunk([], true)];
            WellFormed(cs) && Total(cs) == 3 &&
            DataStepAsWritten(3, cs) == Overflow && DataStep(3, cs) == Render &&
            BodyFilterCall(false, true, 0, true, 3, cs).step == Overflow &&
            BodyFilterCall(true, true, 0, true, 3, cs).step == Render
  {
    var cs := [Chunk([1, 2, 3], false), Chunk([], false), Chunk([], true)];
    assert Pre(cs, 1) == 3;
    assert Total(cs) == 3;
    StopUnique(3, cs, 0);
    assert FillOutcome(3, cs) == Outcome(Ok, 1);
    assert After(3, cs)[1] == Chunk([], false);
    DataStepDecides(3, cs);
  }

  /** What the data stage receives after the template stage: a well-formed chain,
      ending as the original did, holding the bytes after the template, and free of
      flush buffers when the original was. */
  lemma {:induction false} LeftoverShape(room: nat, cs: seq<Chunk>)
    requires |cs| > 0 && WellFormed(cs)
    requires FillOutcome(room, cs).rc == Ok && FillOutcome(room, cs).next < |cs|
    ensures var left := After(room, cs)[FillOutcome(room, cs).next..];
            |left| > 0 && WellFormed(left) && Total(left) == Total(cs) - room &&
            left[|left| - 1].marked == cs[|cs| - 1].marked &&
            (NoFlush(cs) ==> NoFlush(left))
  {
    var o := FillOutcome(room, cs);
    var left := After(room, cs)[o.next..];
    Leftover(room, cs);
    assert left[|left| - 1] == Rest(room, cs, |cs| - 1);
    forall j | 0 <= j < |left| - 1
      ensures !left[j].marked
    {
      assert left[j] == Rest(room, cs, o.next + j);
    }
    if NoFlush(cs) {
      var s := Stop(room, cs);
      AfterUntouched(room, cs, s);
      forall j | 0 <= j < |left| && left[j].data == []
        ensures left[j].marked
      {
        if o.next + j == s {
          assert false;
        }
        assert left[j] == cs[o.next + j];
      }
    }
  }

  /** The first call with the template still to load, when the chain holds the
      template and at least one byte more: a rejected template fails; an accepted one
      hands exactly the bytes after it to the data stage, which then decides by their
      count. The filter as written does so when the chain has no flush buffers. */
  lemma {:induction false} FirstCall(corrected: bool, tmplRoom: nat, dataRoom: nat, cs: seq<Chunk>)
    requires |cs| > 0 && WellFormed(cs) && tmplRoom < Total(cs)
    requires corrected || NoFlush(cs)
    ensures BodyFilterCall(corrected, false, tmplRoom, false, dataRoom, cs) == Call(Fail, true)
    ensures var c := BodyFilterCall(corrected, false, tmplRoom, true, dataRoom, cs);
            c.ready &&
            (c.step == Overflow <==> dataRoom < Total(cs) - tmplRoom) &&
            (c.step == Render <==> Total(cs) - tmplRoom <= dataRoom && cs[|cs| - 1].marked) &&
            (c.step == Wait <==> Total(cs) - tmplRoom <= dataRoom && !cs[|cs| - 1].marked)
  {
    var o := FillOutcome(tmplRoom, cs);
    var s := Stop(tmplRoom, cs);
    PreMonotone(cs, s + 1, |cs|);
    assert o.rc == Ok && o.next < |cs|;
    var left := After(tmplRoom, cs)[o.next..];
    LeftoverShape(tmplRoom, cs);
    DataStepDecides(dataRoom, left);
    if !corrected {
      AsWrittenAgrees(dataRoom, left);
    }
  }

  /** A chain that ends before the template is complete: the filter waits for more
      while the response goes on, and fails when the response ends there. */
  lemma {:induction false} TemplateIncomplete(corrected: bool, tmplRoom: nat, accepted: bool,
                                              dataRoom: nat, cs: seq<Chunk>)
    requires |cs| > 0 && Total(cs) < tmplRoom
    ensures BodyFilterCall(corrected, false, tmplRoom, accepted, dataRoom, cs) ==
              Call(if cs[|cs| - 1].marked then Fail else Wait, false)
  {
  }

  /** With an honest Content-Length and the whole body in one call, the data buffer
      never overflows; with no Content-Length, it overflows exactly when the body is
      larger than ctpp2_data_buffer. The filter as written keeps this promise only on
      a chain without flush buffers (AsWrittenFalseOverflow shows one that breaks it). */
  lemma {:induction false} BufferSizing(corrected: bool, contentLength: int, bufferSize: nat,
                                        cs: seq<Chunk>)
    requires |cs| > 0 && WellFormed(cs) && contentLength >= -1
    requires corrected || NoFlush(cs)
    ensures contentLength == Total(cs) ==>
              DataStepBy(corrected, DataBufferSize(contentLength, bufferSize), cs) ==
              if cs[|cs| - 1].marked then Render else Wait
    ensures contentLength == -1 ==>
              (DataStepBy(corrected, DataBufferSize(contentLength, bufferSize), cs) == Overflow <==>
               bufferSize < Total(cs))
  {
    DataStepDecides(DataBufferSize(contentLength, bufferSize), cs);
    if !corrected {
      AsWrittenAgrees(DataBufferSize(contentLength, bufferSize), cs);
    }
  }
}
