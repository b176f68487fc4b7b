/** The copy stream on any bytes at all (pigeonhole/copy_stream.go): what the decoder
    returns is what the bytes say, whatever they are and however they arrive, and
    which bytes it refuses. Then the bytes of the format themselves: flags, length
    prefixes, and where the start flag of a stateless stream is. */
module CopyStreamSound {
  import opened Options
  import opened Bytes
  import opened Trunnel
  import opened TrunnelLayout
  import opened CopyStream

  // ------------------------------------------------------------- one element

  predicate Fits(e: CopyStreamElement, limits: Limits)
  {
    e.Valid() && (limits.maxElementSize > 0 ==> 5 + |e.envelopeData| <= limits.maxElementSize)
  }

  lemma ElementParsedIff(buffer: seq<Byte>)
    requires |buffer| >= 5
    ensures ParseCopyStreamElement(buffer).Parsed? <==> |buffer| >= 5 + Number(buffer, 1, 4)
  {
    var rest := buffer[1..];
    assert rest[..4] == buffer[1..5];
    assert TakeUint(rest, 4) == Parsed(Number(buffer, 1, 4), rest[4..]);
    hide FromBigEndian, BigEndian;
  }

  /** What DecodeAvailable makes of a buffer: a length over the limit is refused as soon
      as it can be read, otherwise the element is taken once all of it is there. */
  lemma ElementStepIff(buffer: seq<Byte>, limits: Limits)
    ensures var r := DecodeAvailable(buffer, limits);
            && (r.TooLarge? <==> |buffer| >= 5 && limits.maxElementSize > 0
                                 && 5 + Number(buffer, 1, 4) > limits.maxElementSize)
            && (r.Got? <==> !r.TooLarge? && |buffer| >= 5 && |buffer| >= 5 + Number(buffer, 1, 4))
            && (r.Got? ==> Fits(r.element, limits) && buffer == EncodeCopyStreamElement(r.element) + r.rest)
  {
    if |buffer| >= 5 {
      ElementParsedIff(buffer);
      var p := ParseCopyStreamElement(buffer);
      if p.Parsed? {
        CopyStreamElementLayout(buffer);
        CopyStreamElementOntoIsAppend(p.value, p.rest);
      }
      hide ParseCopyStreamElement, EncodeCopyStreamElement, FromBigEndian;
    }
  }

  // ------------------------------------------------------------ one envelope

  /** The frame at the head of the buffer is complete and within the limit. */
  predicate Complete(buffer: seq<Byte>, limits: Limits)
  {
    && |buffer| >= 4 && |buffer| >= 4 + Number(buffer, 0, 4)
    && (limits.maxEnvelopeSize > 0 ==> Number(buffer, 0, 4) <= limits.maxEnvelopeSize)
  }

  /** The bytes begin with the encoding of an envelope, extra bytes following. */
  ghost predicate Begins(bytes: seq<Byte>, env: CourierEnvelope, extra: seq<Byte>)
  {
    env.Valid() && bytes == EncodeCourierEnvelope(env) + extra
  }

  lemma ParsesIffBegins(bytes: seq<Byte>, env: CourierEnvelope, extra: seq<Byte>)
    ensures ParseCourierEnvelope(bytes) == Parsed(env, extra) <==> Begins(bytes, env, extra)
  {
    var r := ParseCourierEnvelope(bytes);
    if r == Parsed(env, extra) {
      CourierEnvelopeOntoIsAppend(env, extra);
    }
    if Begins(bytes, env, extra) {
      CourierEnvelopeRoundTrip(env, extra);
      CourierEnvelopeOntoIsAppend(env, extra);
    }
    hide EncodeCourierEnvelope, ParseCourierEnvelope;
  }

  lemma EnvelopeStepParses(buffer: seq<Byte>, limits: Limits)
    ensures var r := NextEnvelope(buffer, limits);
            && (r == Bad(EnvelopeTooLarge) <==> |buffer| >= 4 && 0 < limits.maxEnvelopeSize < Number(buffer, 0, 4))
            && (r.Wait? <==> !Complete(buffer, limits) && r != Bad(EnvelopeTooLarge))
            && (Complete(buffer, limits) ==>
                  var end := 4 + Number(buffer, 0, 4); var p := ParseCourierEnvelope(buffer[4..end]);
                  r == if p.Malformed? then Bad(EnvelopeMalformed)
                       else if p.rest != [] then Bad(EnvelopeHasTrailingBytes) else Envelope(p.value, buffer[end..]))
  {
    hide ParseCourierEnvelope, CourierEnvelopeOnto, FromBigEndian;
    if |buffer| >= 4 {
      assert buffer[0..4] == buffer[..4];
    }
  }

  lemma ParsedBegins(bytes: seq<Byte>)
    ensures var p := ParseCourierEnvelope(bytes);
            && (p.Parsed? ==> Begins(bytes, p.value, p.rest))
            && (forall env, extra :: Begins(bytes, env, extra) ==> p == Parsed(env, extra))
  {
    hide Begins, ParseCourierEnvelope, CourierEnvelopeOnto;
    var p := ParseCourierEnvelope(bytes);
    if p.Parsed? {
      ParsesIffBegins(bytes, p.value, p.rest);
    }
    forall env, extra | Begins(bytes, env, extra)
      ensures p == Parsed(env, extra)
    {
      ParsesIffBegins(bytes, env, extra);
    }
  }

  /** The second loop waits for a complete frame, refuses a length over the limit at
      once, and refuses a complete frame that is not exactly one envelope. */
  lemma EnvelopeStepIff(buffer: seq<Byte>, limits: Limits)
    ensures var r := NextEnvelope(buffer, limits);
            && (r == Bad(EnvelopeTooLarge) <==> |buffer| >= 4 && 0 < limits.maxEnvelopeSize < Number(buffer, 0, 4))
            && (r.Wait? <==> !Complete(buffer, limits) && r != Bad(EnvelopeTooLarge))
            && (Complete(buffer, limits) ==>
                  var bytes := buffer[4..4 + Number(buffer, 0, 4)];
                  && (r.Envelope? <==> exists env :: Begins(bytes, env, []))
                  && (r == Bad(EnvelopeHasTrailingBytes) <==> exists env, extra :: extra != [] && Begins(bytes, env, extra))
                  && (r == Bad(EnvelopeMalformed) <==> !exists env, extra :: Begins(bytes, env, extra)))
  {
    hide NextEnvelope, ParseCourierEnvelope, CourierEnvelopeOnto, Begins, Number;
    EnvelopeStepParses(buffer, limits);
    if Complete(buffer, limits) {
      ParsedBegins(buffer[4..4 + Number(buffer, 0, 4)]);
    }
  }

  lemma FrameBytes(buffer: seq<Byte>, n: nat)
    requires |buffer| >= 4 && n == FromBigEndian(buffer[..4]) && |buffer| >= 4 + n
    ensures n < TWO_TO_32 && buffer == (BigEndian(n, 4) + buffer[4..4 + n]) + buffer[4 + n..]
  {
    BigEndianCanonical(buffer[..4]);
    FromBigEndianBound(buffer[..4]);
    CapacityOfWords();
    hide FromBigEndian, BigEndian;
  }

  lemma TakenIsFramed(buffer: seq<Byte>, limits: Limits, env: CourierEnvelope, rest: seq<Byte>)
    requires NextEnvelope(buffer, limits) == Envelope(env, rest)
    ensures Acceptable(env, limits) && buffer == Frame(env) + rest
  {
    hide EncodeCourierEnvelope, ParseCourierEnvelope, CourierEnvelopeOnto, FromBigEndian, BigEndian, Begins;
    var n := FromBigEndian(buffer[..4]);
    ParsesIffBegins(buffer[4..4 + n], env, []);
    FrameBytes(buffer, n);
    assert buffer[4..4 + n] == EncodeCourierEnvelope(env) + [] == EncodeCourierEnvelope(env) by {
      BeginsExactly(buffer[4..4 + n], env);
    }
  }

  lemma BeginsExactly(bytes: seq<Byte>, env: CourierEnvelope)
    ensures Begins(bytes, env, []) <==> env.Valid() && bytes == EncodeCourierEnvelope(env)
  {
    hide EncodeCourierEnvelope;
    assert EncodeCourierEnvelope(env) + [] == EncodeCourierEnvelope(env);
  }

  /** An envelope comes out exactly when the buffer begins with its frame. */
  lemma EnvelopeTakenIff(buffer: seq<Byte>, limits: Limits, env: CourierEnvelope, rest: seq<Byte>)
    ensures NextEnvelope(buffer, limits) == Envelope(env, rest) <==> Acceptable(env, limits) && buffer == Frame(env) + rest
  {
    hide NextEnvelope, Frame, Acceptable;
    if NextEnvelope(buffer, limits) == Envelope(env, rest) {
      TakenIsFramed(buffer, limits, env, rest);
    }
    if Acceptable(env, limits) && buffer == Frame(env) + rest {
      assert buffer + [] == Frame(env) + rest;
      NextEnvelopeInStream(env, buffer, [], rest, limits);
      assert buffer[|Frame(env)|..] == rest;
    }
  }

  // ----------------------------------------------------------------- any run

  /** The bytes fed so far are the elements es and an unread rest; their chunks are the
      frames of envs and an unread rest; every element and envelope is within the
      limits; and the final flag was seen exactly when some element had it. */
  ghost predicate Explains(
    es: seq<CopyStreamElement>, envs: seq<CourierEnvelope>, d: Decoder, fed: seq<Byte>, limits: Limits)
  {
    && fed == Wire(es) + d.elementBuffer
    && Payload(es) == Framed(envs) + d.envelopeBuffer
    && (forall e :: e in es ==> Fits(e, limits))
    && (forall env :: env in envs ==> Acceptable(env, limits))
    && (d.sawFinal <==> exists e :: e in es && IsFinal(e))
  }

  lemma {:induction false} WireAppend(a: seq<CopyStreamElement>, e: CopyStreamElement)
    ensures Wire(a + [e]) == Wire(a) + EncodeCopyStreamElement(e) && Payload(a + [e]) == Payload(a) + e.envelopeData
  {
    hide EncodeCopyStreamElement;
    if a == [] {
      assert a + [e] == [e] && [e][1..] == [];
      assert Wire([e]) == EncodeCopyStreamElement(e) + Wire([]) && Payload([e]) == e.envelopeData + Payload([]);
    } else {
      WireAppend(a[1..], e);
      assert (a + [e])[1..] == a[1..] + [e];
      ConcatAssoc(EncodeCopyStreamElement(a[0]), Wire(a[1..]), EncodeCopyStreamElement(e));
      ConcatAssoc(a[0].envelopeData, Payload(a[1..]), e.envelopeData);
    }
  }

  lemma ElementExplained(
    es: seq<CopyStreamElement>, envs: seq<CourierEnvelope>, d: Decoder, fed: seq<Byte>, limits: Limits,
    e: CopyStreamElement, rest: seq<Byte>)
    requires Explains(es, envs, d, fed, limits) && DecodeAvailable(d.elementBuffer, limits) == Got(e, rest)
    ensures Explains(es + [e], envs, Decoder(rest, d.envelopeBuffer + e.envelopeData, d.sawFinal || IsFinal(e)), fed, limits)
  {
    hide Fits, Acceptable, DecodeAvailable, EncodeCopyStreamElement, Framed, IsFinal;
    ElementStepIff(d.elementBuffer, limits);
    WireAppend(es, e);
    ConcatAssoc(Wire(es), EncodeCopyStreamElement(e), rest);
    ConcatAssoc(Framed(envs), d.envelopeBuffer, e.envelopeData);
    assert e in es + [e];
  }

  lemma {:induction false} DrainExplained(
    es: seq<CopyStreamElement>, envs: seq<CourierEnvelope>, d: Decoder, fed: seq<Byte>, limits: Limits)
    returns (all: seq<CopyStreamElement>)
    requires Explains(es, envs, d, fed, limits)
    ensures var (d1, oversized) := DrainElements(d, limits);
            && Explains(all, envs, d1, fed, limits)
            && !DecodeAvailable(d1.elementBuffer, limits).Got?
            && (oversized <==> DecodeAvailable(d1.elementBuffer, limits).TooLarge?)
    decreases |d.elementBuffer|
  {
    all := es;
    var r := DecodeAvailable(d.elementBuffer, limits);
    if r.Got? {
      ElementExplained(es, envs, d, fed, limits, r.element, r.rest);
      hide Explains, DecodeAvailable;
      all := DrainExplained(es + [r.element], envs,
        Decoder(r.rest, d.envelopeBuffer + r.element.envelopeData, d.sawFinal || IsFinal(r.element)), fed, limits);
    }
  }

  /** The second loop takes whole frames and stops where no further one can be taken. */
  lemma {:induction false} EnvelopesExplained(buffer: seq<Byte>, limits: Limits)
    ensures var r := DrainEnvelopes(buffer, limits); var stop := NextEnvelope(r.rest, limits);
            && buffer == Framed(r.envelopes) + r.rest
            && (forall env :: env in r.envelopes ==> Acceptable(env, limits))
            && !stop.Envelope? && r.error == (if stop.Bad? then Some(stop.error) else None)
    decreases |buffer|
  {
    var step := NextEnvelope(buffer, limits);
    if step.Envelope? {
      EnvelopeTakenIff(buffer, limits, step.env, step.rest);
      hide NextEnvelope, Frame, Acceptable;
      EnvelopesExplained(step.rest, limits);
      var later := DrainEnvelopes(step.rest, limits);
      var r := DrainEnvelopes(buffer, limits);
      assert r == later.(envelopes := [step.env] + later.envelopes);
      assert r.envelopes[1..] == later.envelopes;
      assert Framed(r.envelopes) == Frame(step.env) + Framed(later.envelopes);
      ConcatAssoc(Frame(step.env), Framed(later.envelopes), later.rest);
    } else {
      hide NextEnvelope;
      assert Framed([]) == [];
    }
  }

  /** One DecodeEnvelopes call. It fails exactly on what the buffers it leaves begin
      with: an element over the limit, or a complete or oversized frame that is no
      envelope. Without an error it leaves nothing it could have taken. */
  lemma DecodeExplained(
    es: seq<CopyStreamElement>, envs: seq<CourierEnvelope>, d: Decoder, fed: seq<Byte>, limits: Limits)
    returns (all: seq<CopyStreamElement>)
    requires Explains(es, envs, d, fed, limits)
    ensures var (r, d1) := DecodeEnvelopes(d, limits);
            && Explains(all, envs + r.envelopes, d1, fed, limits)
            && r.final == d1.sawFinal
            && (r.error == Some(ElementTooLarge) <==> DecodeAvailable(d1.elementBuffer, limits).TooLarge?)
            && (!DecodeAvailable(d1.elementBuffer, limits).TooLarge? ==>
                  var stop := NextEnvelope(d1.envelopeBuffer, limits);
                  r.error == if stop.Bad? then Some(stop.error) else None)
            && (r.error == None ==> DecodeAvailable(d1.elementBuffer, limits).NeedMore? && NextEnvelope(d1.envelopeBuffer, limits).Wait?)
  {
    all := DrainExplained(es, envs, d, fed, limits);
    var (d1, oversized) := DrainElements(d, limits);
    if !oversized {
      EnvelopesExplained(d1.envelopeBuffer, limits);
      ElementTooLargeIsFirst(d1.envelopeBuffer, limits);
      var r := DrainEnvelopes(d1.envelopeBuffer, limits);
      FramedAppend(envs, r.envelopes);
      ConcatAssoc(Framed(envs), Framed(r.envelopes), r.rest);
    } else {
      assert envs + [] == envs;
    }
    hide DrainElements, DrainEnvelopes, DecodeAvailable, NextEnvelope, Framed, Fits, Acceptable, Wire, Payload;
  }

  lemma {:induction false} ElementTooLargeIsFirst(buffer: seq<Byte>, limits: Limits)
    ensures DrainEnvelopes(buffer, limits).error != Some(ElementTooLarge)
    decreases |buffer|
  {
    var step := NextEnvelope(buffer, limits);
    assert step != Bad(ElementTooLarge);
    hide NextEnvelope;
    if step.Envelope? {
      ElementTooLargeIsFirst(step.rest, limits);
    }
  }

  lemma FedExplained(
    es: seq<CopyStreamElement>, envs: seq<CourierEnvelope>, d: Decoder, fed: seq<Byte>, data: seq<Byte>, limits: Limits)
    requires Explains(es, envs, d, fed, limits)
    ensures Explains(es, envs, d.(elementBuffer := d.elementBuffer + data), fed + data, limits)
  {
    hide Fits, Acceptable, Framed, Wire, Payload;
    ConcatAssoc(Wire(es), d.elementBuffer, data);
  }

  lemma {:induction false} RunExplained(
    es: seq<CopyStreamElement>, envs: seq<CourierEnvelope>, d: Decoder, fed: seq<Byte>, calls: seq<DecoderCall>,
    limits: Limits, received: nat)
    returns (all: seq<CopyStreamElement>)
    requires Explains(es, envs, d, fed, limits)
    ensures var (obs, d1) := RunDecoder(d, calls, limits, received);
            Explains(all, envs + Collected(obs), d1, fed + Fed(calls), limits)
    decreases |calls|
  {
    if calls == [] {
      all := es;
      assert envs + [] == envs && fed + [] == fed;
    } else if calls[0].AddBoxData? {
      var data := calls[0].data;
      FedExplained(es, envs, d, fed, data, limits);
      ConcatAssoc(fed, data, Fed(calls[1..]));
      hide Explains;
      all := RunExplained(es, envs, d.(elementBuffer := d.elementBuffer + data), fed + data, calls[1..], limits,
                          received + |data|);
    } else {
      var es1 := DecodeExplained(es, envs, d, fed, limits);
      var (r, d1) := DecodeEnvelopes(d, limits);
      hide Explains, DecodeEnvelopes, DecodeAvailable, NextEnvelope;
      all := RunExplained(es1, envs + r.envelopes, d1, fed, calls[1..], limits, received);
      var (later, d2) := RunDecoder(d1, calls[1..], limits, received);
      var obs := [Observation(received, r)] + later;
      assert obs[1..] == later && Collected(obs) == r.envelopes + Collected(later);
      ConcatAssoc(envs, r.envelopes, Collected(later));
    }
  }

  lemma {:induction false} WireLength(es: seq<CopyStreamElement>)
    requires forall e :: e in es ==> e.Valid()
    ensures |Wire(es)| == 5 * |es| + |Payload(es)|
  {
    if es != [] {
      WireLength(es[1..]);
    }
  }

  lemma EveryByteCounts(
    es: seq<CopyStreamElement>, envs: seq<CourierEnvelope>, d: Decoder, fed: seq<Byte>, limits: Limits)
    requires Explains(es, envs, d, fed, limits)
    ensures |fed| == 5 * |es| + |Framed(envs)| + Remaining(d)
  {
    WireLength(es);
    hide Wire, Payload, Framed, Acceptable;
  }

  /** Whatever bytes are fed, in whatever pieces and with whatever errors on the way, the
      envelopes returned so far are exactly those whose frames the chunks begin with:
      nothing is invented, dropped, reordered or returned twice, and every byte is an
      element's header, part of a returned frame, or still counted as remaining. */
  lemma DecoderIsSound(calls: seq<DecoderCall>, limits: Limits)
    ensures var (obs, d) := RunDecoder(FRESH_DECODER, calls, limits, 0);
            exists es :: && Explains(es, Collected(obs), d, Fed(calls), limits)
                         && |Fed(calls)| == 5 * |es| + |Framed(Collected(obs))| + Remaining(d)
  {
    assert Explains([], [], FRESH_DECODER, [], limits);
    var all := RunExplained([], [], FRESH_DECODER, [], calls, limits, 0);
    var (obs, d) := RunDecoder(FRESH_DECODER, calls, limits, 0);
    assert [] + Collected(obs) == Collected(obs) && [] + Fed(calls) == Fed(calls);
    hide Explains, RunDecoder;
    EveryByteCounts(all, Collected(obs), d, Fed(calls), limits);
  }

  // --------------------------------------------------------- the bytes themselves

  /** The first byte of an element: 1 for the start, 2 for the end, 3 for both. */
  lemma FlagByte(start: bool, final: bool, chunk: Chunk)
    ensures EncodeCopyStreamElement(Element(start, final, chunk))[0] ==
              if start && final then 3 else if final then 2 else if start then 1 else 0
  {
  }

  /** A frame is a four-byte length, most significant byte first, and the envelope. */
  lemma FrameLayout(env: CourierEnvelope)
    requires Framable(env)
    ensures var frame := Frame(env); var n := |EncodeCourierEnvelope(env)|;
            |frame| == 4 + n && Number(frame, 0, 4) == n && frame[4..] == EncodeCourierEnvelope(env)
  {
    hide EncodeCourierEnvelope;
    CapacityOfWords();
    VarField(Frame(env), 0, EncodeCourierEnvelope(env), 4, []);
  }

  // -------------------------------------------------------- where the start flag is

  ghost predicate StartsOnce(es: seq<CopyStreamElement>, first: bool)
  {
    forall i :: 0 <= i < |es| ==> (IsStart(es[i]) <==> first && i == 0)
  }

  lemma StartsAppend(a: seq<CopyStreamElement>, b: seq<CopyStreamElement>, first: bool)
    requires StartsOnce(a, first) && StartsOnce(b, first && a == [])
    ensures StartsOnce(a + b, first)
  {
    hide IsStart;
    forall i | 0 <= i < |a + b|
      ensures IsStart((a + b)[i]) <==> first && i == 0
    {
      if i >= |a| {
        assert (a + b)[i] == b[i - |a|];
      }
    }
  }

  lemma {:induction false} ExtractStarts(enc: Encoder, n: ChunkSize)
    ensures var r := Extract(enc, n);
            StartsOnce(r.elements, enc.isFirstChunk) && r.encoder.isFirstChunk == (enc.isFirstChunk && r.elements == [])
    decreases |enc.buffer|
  {
    if |enc.buffer| > n {
      var rest := Encoder(enc.buffer[n..], false);
      ExtractStarts(rest, n);
      StartsAppend([Element(enc.isFirstChunk, false, enc.buffer[..n])], Extract(rest, n).elements, enc.isFirstChunk);
      hide StartsOnce;
    }
  }

  lemma {:induction false} RunStarts(enc: Encoder, envs: seq<CourierEnvelope>, n: ChunkSize)
    ensures var r := RunEncoder(enc, AddAll(envs), n);
            && StartsOnce(r.elements, enc.isFirstChunk)
            && r.encoder.isFirstChunk == (enc.isFirstChunk && r.elements == [])
            && (enc.buffer != [] || envs != [] ==> r.encoder.buffer != [])
    decreases |envs|
  {
    if envs != [] {
      var grown := enc.(buffer := enc.buffer + Frame(envs[0]));
      ExtractStarts(grown, n);
      var now := Add(enc, envs[0], n);
      RunStarts(now.encoder, envs[1..], n);
      assert AddAll(envs)[1..] == AddAll(envs[1..]);
      var later := RunEncoder(now.encoder, AddAll(envs[1..]), n);
      StartsAppend(now.elements, later.elements, enc.isFirstChunk);
      hide StartsOnce, Frame, Extract;
    }
  }

  lemma {:induction false} PartStarts(enc: Encoder, n: ChunkSize)
    ensures StartsOnce(FlushWithoutFinal(enc, n), enc.isFirstChunk)
    decreases |enc.buffer|
  {
    if enc.buffer != [] {
      var size := if n > |enc.buffer| then |enc.buffer| else n;
      var rest := Encoder(enc.buffer[size..], false);
      PartStarts(rest, n);
      StartsAppend([Element(enc.isFirstChunk, false, enc.buffer[..size])], FlushWithoutFinal(rest, n), enc.isFirstChunk);
      hide StartsOnce;
    }
  }

  lemma CallStarts(envs: seq<CourierEnvelope>, isStart: bool, isLast: bool, n: ChunkSize)
    ensures StartsOnce(CallElements(envs, isStart, isLast, n), isStart)
    ensures CallElements(envs, isStart, isLast, n) == [] <==> envs == []
  {
    var enc := Encoder([], isStart);
    var run := RunEncoder(enc, AddAll(envs), n);
    RunStarts(enc, envs, n);
    PartStarts(run.encoder, n);
    if run.encoder.buffer != [] {
      StreamShape(run.encoder.buffer, n, run.encoder.isFirstChunk);
    }
    var last := if isLast then Flush(run.encoder, n) else FlushWithoutFinal(run.encoder, n);
    assert StartsOnce(last, run.encoder.isFirstChunk);
    StartsAppend(run.elements, last, isStart);
  }

  lemma {:induction false} LaterCallsNeverStart(batches: seq<seq<CourierEnvelope>>, n: ChunkSize)
    ensures StartsOnce(CallsElements(batches, false, n), false)
    decreases |batches|
  {
    if batches != [] {
      CallStarts(batches[0], false, |batches| == 1, n);
      LaterCallsNeverStart(batches[1..], n);
      StartsAppend(CallElements(batches[0], false, |batches| == 1, n), CallsElements(batches[1..], false, n), false);
      hide StartsOnce, CallElements;
    }
  }

  /** In a stateless stream only the first element can carry the start flag, and it does
      exactly when the first call was told to start and had an envelope. */
  lemma StatelessStartIff(batches: seq<seq<CourierEnvelope>>, isStart: bool, n: ChunkSize)
    requires batches != []
    ensures var es := CallsElements(batches, isStart, n);
            && (forall i :: 0 < i < |es| ==> !IsStart(es[i]))
            && (es != [] ==> (IsStart(es[0]) <==> isStart && batches[0] != []))
  {
    var a := CallElements(batches[0], isStart, |batches| == 1, n);
    var b := CallsElements(batches[1..], false, n);
    CallStarts(batches[0], isStart, |batches| == 1, n);
    LaterCallsNeverStart(batches[1..], n);
    assert CallsElements(batches, isStart, n) == a + b;
    StartsAppend(a, b, isStart && a != []);
    hide CallElements, CallsElements, IsStart;
  }
}
