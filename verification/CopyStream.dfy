/** The copy stream of pigeonhole/copy_stream.go as functions on values: how
    envelopes are framed, chunked into elements and put back together. The
    theorems about whole runs are here; the classes that do the work are in
    CopyStreamCodec. */
module CopyStream {
  import opened Options
  import opened Bytes
  import opened Trunnel

  const FLAG_START: Byte := 1
  const FLAG_FINAL: Byte := 2
  const ELEMENT_OVERHEAD: nat := 5

  predicate IsStart(e: CopyStreamElement) { e.flags % 2 == 1 }
  predicate IsFinal(e: CopyStreamElement) { e.flags / 2 % 2 == 1 }

  /** A chunk the 32-bit length field of an element can describe. */
  type Chunk = s: seq<Byte> | |s| < TWO_TO_32

  type ChunkSize = n: int | 0 < n < TWO_TO_32 witness 1

  function Element(start: bool, final: bool, chunk: Chunk): (e: CopyStreamElement)
    ensures e.Valid() && e.envelopeData == chunk && IsStart(e) == start && IsFinal(e) == final
  {
    CopyStreamElement((if start then FLAG_START else 0) + (if final then FLAG_FINAL else 0), |chunk|, chunk)
  }

  // ------------------------------------------------------- streams as values

  /** An envelope AddEnvelope can frame: it marshals, and its length fits the prefix. */
  predicate Framable(env: CourierEnvelope)
  {
    env.Valid() && |EncodeCourierEnvelope(env)| < TWO_TO_32
  }

  function Frame(env: CourierEnvelope): seq<Byte>
  {
    BigEndian(|EncodeCourierEnvelope(env)|, 4) + EncodeCourierEnvelope(env)
  }

  function Framed(envs: seq<CourierEnvelope>): seq<Byte>
  {
    if envs == [] then [] else Frame(envs[0]) + Framed(envs[1..])
  }

  function Payload(es: seq<CopyStreamElement>): seq<Byte>
  {
    if es == [] then [] else es[0].envelopeData + Payload(es[1..])
  }

  function Wire(es: seq<CopyStreamElement>): seq<Byte>
  {
    if es == [] then [] else EncodeCopyStreamElement(es[0]) + Wire(es[1..])
  }

  /** The reference encoding: data cut every n bytes, the start flag on the
      first piece (when first is set), the final flag on the last. */
  function Stream(data: seq<Byte>, n: ChunkSize, first: bool): (es: seq<CopyStreamElement>)
    requires data != []
    decreases |data|
  {
    if |data| <= n then [Element(first, true, data)]
    else [Element(first, false, data[..n])] + Stream(data[n..], n, false)
  }

  /** The start flag is on the first element only, the final flag on the last
      only, and every element but the last is full. */
  ghost predicate WellShaped(es: seq<CopyStreamElement>, n: ChunkSize, first: bool)
  {
    && es != []
    && (forall i :: 0 <= i < |es| ==> es[i].Valid())
    && (forall i :: 0 <= i < |es| ==> (IsStart(es[i]) <==> first && i == 0))
    && (forall i :: 0 <= i < |es| ==> (IsFinal(es[i]) <==> i == |es| - 1))
    && (forall i :: 0 <= i < |es| - 1 ==> |es[i].envelopeData| == n)
    && 0 < |es[|es| - 1].envelopeData| <= n
  }

  lemma WellShapedCons(e: CopyStreamElement, es: seq<CopyStreamElement>, n: ChunkSize, first: bool)
    requires WellShaped(es, n, false)
    requires e.Valid() && IsStart(e) == first && !IsFinal(e) && |e.envelopeData| == n
    ensures WellShaped([e] + es, n, first)
  {
    var all := [e] + es;
    forall i | 0 <= i < |all|
      ensures all[i].Valid() && (IsStart(all[i]) <==> first && i == 0) && (IsFinal(all[i]) <==> i == |all| - 1)
      ensures i < |all| - 1 ==> |all[i].envelopeData| == n
    {
      if i > 0 {
        assert all[i] == es[i - 1];
      }
    }
  }

  lemma {:induction false} StreamShape(data: seq<Byte>, n: ChunkSize, first: bool)
    requires data != []
    ensures WellShaped(Stream(data, n, first), n, first)
    decreases |data|
  {
    if |data| > n {
      StreamShape(data[n..], n, false);
      WellShapedCons(Element(first, false, data[..n]), Stream(data[n..], n, false), n, first);
    }
  }

  /** The chunks of a stream put together are its data. */
  lemma {:induction false} StreamPayload(data: seq<Byte>, n: ChunkSize, first: bool)
    requires data != []
    ensures Payload(Stream(data, n, first)) == data
    decreases |data|
  {
    if |data| <= n {
      assert Payload([Element(first, true, data)]) == data + Payload([]);
    } else {
      StreamPayload(data[n..], n, false);
      assert Stream(data, n, first)[1..] == Stream(data[n..], n, false);
      assert data[..n] + data[n..] == data;
    }
  }

  // ---------------------------------------------------------------- encoding

  /** The fields of a CopyStreamEncoder that change. */
  datatype Encoder = Encoder(buffer: seq<Byte>, isFirstChunk: bool)

  datatype Emission = Emission(elements: seq<CopyStreamElement>, encoder: Encoder)

  const FRESH: Encoder := Encoder([], true)

  /** extractElements: emits full chunks while more than one chunk is buffered. */
  function Extract(enc: Encoder, n: ChunkSize): (r: Emission)
    ensures enc.buffer != [] ==> 0 < |r.encoder.buffer| <= n
    decreases |enc.buffer|
  {
    if |enc.buffer| <= n then Emission([], enc) else
      var rest := Extract(Encoder(enc.buffer[n..], false), n);
      Emission([Element(enc.isFirstChunk, false, enc.buffer[..n])] + rest.elements, rest.encoder)
  }

  function Add(enc: Encoder, env: CourierEnvelope, n: ChunkSize): (r: Emission)
    ensures 0 < |r.encoder.buffer| <= n
  {
    Extract(enc.(buffer := enc.buffer + Frame(env)), n)
  }

  function Flush(enc: Encoder, n: ChunkSize): seq<CopyStreamElement>
  {
    if enc.buffer == [] then [] else Stream(enc.buffer, n, enc.isFirstChunk)
  }

  /** FlushWithoutFinal: like Flush, but no element carries the final flag. */
  function FlushWithoutFinal(enc: Encoder, n: ChunkSize): (es: seq<CopyStreamElement>)
    decreases |enc.buffer|
  {
    if enc.buffer == [] then []
    else
      var size := if n > |enc.buffer| then |enc.buffer| else n;
      [Element(enc.isFirstChunk, false, enc.buffer[..size])] +
      FlushWithoutFinal(Encoder(enc.buffer[size..], false), n)
  }

  /** GetBuffer on one encoder, then SetBuffer and SuppressStart on a fresh one. */
  function SaveAndRestore(enc: Encoder): Encoder
  {
    FRESH.(buffer := enc.buffer, isFirstChunk := false)
  }

  datatype EncoderCall = AddEnvelope(env: CourierEnvelope) | Cut

  function RunEncoder(enc: Encoder, calls: seq<EncoderCall>, n: ChunkSize): (r: Emission)
    decreases |calls|
  {
    if calls == [] then Emission([], enc) else
      match calls[0]
      case AddEnvelope(env) =>
        var now := Add(enc, env, n);
        var later := RunEncoder(now.encoder, calls[1..], n);
        Emission(now.elements + later.elements, later.encoder)
      case Cut => RunEncoder(SaveAndRestore(enc), calls[1..], n)
  }

  /** All elements of a run that ends with Flush. */
  function Emitted(enc: Encoder, calls: seq<EncoderCall>, n: ChunkSize): seq<CopyStreamElement>
  {
    var run := RunEncoder(enc, calls, n);
    run.elements + Flush(run.encoder, n)
  }

  function Envelopes(calls: seq<EncoderCall>): seq<CourierEnvelope>
  {
    if calls == [] then []
    else if calls[0].AddEnvelope? then [calls[0].env] + Envelopes(calls[1..])
    else Envelopes(calls[1..])
  }

  /** Whether the run gets to emit its first element before its first cut. */
  predicate StartSurvives(enc: Encoder, calls: seq<EncoderCall>, n: ChunkSize)
    decreases |calls|
  {
    if calls == [] then true
    else if calls[0].Cut? then false
    else Add(enc, calls[0].env, n).elements != [] || StartSurvives(Add(enc, calls[0].env, n).encoder, calls[1..], n)
  }

  /** Emitting early does not change the stream: what Extract emits is how the
      stream of the buffer and anything appended later begins. */
  lemma {:induction false} ExtractIsStreamPrefix(enc: Encoder, later: seq<Byte>, n: ChunkSize)
    requires enc.buffer != []
    ensures var r := Extract(enc, n);
      Stream(enc.buffer + later, n, enc.isFirstChunk) ==
      r.elements + Stream(r.encoder.buffer + later, n, r.encoder.isFirstChunk)
    ensures var r := Extract(enc, n);
      r.encoder.isFirstChunk == (enc.isFirstChunk && r.elements == [])
    decreases |enc.buffer|
  {
    if |enc.buffer| > n {
      var rest := Encoder(enc.buffer[n..], false);
      ExtractIsStreamPrefix(rest, later, n);
      var head := Element(enc.isFirstChunk, false, enc.buffer[..n]);
      assert (enc.buffer + later)[..n] == enc.buffer[..n];
      assert (enc.buffer + later)[n..] == enc.buffer[n..] + later;
      ConcatAssoc([head], Extract(rest, n).elements,
                  Stream(Extract(rest, n).encoder.buffer + later, n, Extract(rest, n).encoder.isFirstChunk));
    }
  }

  /** The elements of any run, cut or not, are the reference stream of all its
      frames; only the start flag depends on where the cuts are. */
  lemma {:induction false} RunEmitsStream(enc: Encoder, calls: seq<EncoderCall>, n: ChunkSize)
    requires enc.buffer != [] || Envelopes(calls) != []
    ensures enc.buffer + Framed(Envelopes(calls)) != []
    ensures Emitted(enc, calls, n) ==
            Stream(enc.buffer + Framed(Envelopes(calls)), n, enc.isFirstChunk && StartSurvives(enc, calls, n))
    decreases |calls|
  {
    if calls == [] {
      assert enc.buffer + Framed([]) == enc.buffer;
    } else if calls[0].Cut? {
      RunEmitsStream(SaveAndRestore(enc), calls[1..], n);
    } else {
      var env := calls[0].env;
      var now := Add(enc, env, n);
      var later := Framed(Envelopes(calls[1..]));
      RunEmitsStream(now.encoder, calls[1..], n);
      EmittedAfterAdd(enc, calls, n);
      StreamOfAdd(enc, env, later, StartSurvives(now.encoder, calls[1..], n), n);
      assert Framed(Envelopes(calls)) == Frame(env) + later;
    }
  }

  lemma EmittedAfterAdd(enc: Encoder, calls: seq<EncoderCall>, n: ChunkSize)
    requires calls != [] && calls[0].AddEnvelope?
    ensures var now := Add(enc, calls[0].env, n);
      Emitted(enc, calls, n) == now.elements + Emitted(now.encoder, calls[1..], n)
  {
    var now := Add(enc, calls[0].env, n);
    var later := RunEncoder(now.encoder, calls[1..], n);
    ConcatAssoc(now.elements, later.elements, Flush(later.encoder, n));
  }

  lemma StreamOfAdd(enc: Encoder, env: CourierEnvelope, later: seq<Byte>, survives: bool, n: ChunkSize)
    ensures var now := Add(enc, env, n);
      Stream(enc.buffer + (Frame(env) + later), n, enc.isFirstChunk && (now.elements != [] || survives)) ==
      now.elements + Stream(now.encoder.buffer + later, n, now.encoder.isFirstChunk && survives)
  {
    var grown := enc.(buffer := enc.buffer + Frame(env));
    ConcatAssoc(enc.buffer, Frame(env), later);
    ExtractIsStreamPrefix(grown, later, n);
    var now := Add(enc, env, n);
    if now.elements == [] {
      assert now.encoder == grown;
    }
  }

  function WithoutCuts(calls: seq<EncoderCall>): (r: seq<EncoderCall>)
    ensures Envelopes(r) == Envelopes(calls)
    ensures Cut !in r
  {
    if calls == [] then []
    else if calls[0].Cut? then WithoutCuts(calls[1..])
    else [calls[0]] + WithoutCuts(calls[1..])
  }

  lemma {:induction false} StartSurvivesUncut(enc: Encoder, calls: seq<EncoderCall>, n: ChunkSize)
    requires Cut !in calls
    ensures StartSurvives(enc, calls, n)
    decreases |calls|
  {
    if calls != [] && Add(enc, calls[0].env, n).elements == [] {
      StartSurvivesUncut(Add(enc, calls[0].env, n).encoder, calls[1..], n);
    }
  }

  /** With the first cut after k calls, the start flag survives exactly when
      those k calls already emitted something. */
  lemma {:induction false} StartSurvivesIffEmitted(enc: Encoder, calls: seq<EncoderCall>, k: nat, n: ChunkSize)
    requires k < |calls| && calls[k].Cut? && Cut !in calls[..k]
    ensures StartSurvives(enc, calls, n) <==> RunEncoder(enc, calls[..k], n).elements != []
    decreases k
  {
    if k > 0 {
      assert calls[0] in calls[..k];
      var now := Add(enc, calls[0].env, n);
      assert calls[..k][1..] == calls[1..][..k - 1];
      StartSurvivesIffEmitted(now.encoder, calls[1..], k - 1, n);
    }
  }

  /** Saving and restoring the encoder is transparent. A run cut anywhere emits
      the same chunks as the uncut run, and the very same elements exactly when
      some element was emitted before the first cut. */
  lemma SaveRestoreTransparent(calls: seq<EncoderCall>, k: nat, n: ChunkSize)
    requires Envelopes(calls) != []
    requires k < |calls| && calls[k].Cut? && Cut !in calls[..k]
    ensures var cut := Emitted(FRESH, calls, n); var uncut := Emitted(FRESH, WithoutCuts(calls), n);
      && |cut| == |uncut|
      && (forall i :: 0 <= i < |cut| ==> cut[i].envelopeData == uncut[i].envelopeData)
      && (cut == uncut <==> RunEncoder(FRESH, calls[..k], n).elements != [])
  {
    var data := Framed(Envelopes(calls));
    RunEmitsStream(FRESH, calls, n);
    RunEmitsStream(FRESH, WithoutCuts(calls), n);
    StartSurvivesUncut(FRESH, WithoutCuts(calls), n);
    StartSurvivesIffEmitted(FRESH, calls, k, n);
    assert FRESH.buffer + data == data;
    StreamIgnoresStart(data, n);
  }

  lemma StreamIgnoresStart(data: seq<Byte>, n: ChunkSize)
    requires data != []
    ensures var a := Stream(data, n, true); var b := Stream(data, n, false);
      && |a| == |b| && a != b
      && (forall i :: 0 <= i < |a| ==> a[i].envelopeData == b[i].envelopeData)
  {
    assert IsStart(Stream(data, n, true)[0]) && !IsStart(Stream(data, n, false)[0]);
  }

  // ---------------------------------------------------------------- decoding

  /** maxElementSize and maxEnvelopeSize; a value of zero or less is no limit. */
  datatype Limits = Limits(maxElementSize: int, maxEnvelopeSize: int)

  datatype DecodeError = ElementTooLarge | EnvelopeTooLarge | EnvelopeMalformed | EnvelopeHasTrailingBytes

  datatype ElementStep = NeedMore | Got(element: CopyStreamElement, rest: seq<Byte>) | TooLarge

  function DecodeAvailable(buffer: seq<Byte>, limits: Limits): (r: ElementStep)
    ensures r.Got? ==> |r.rest| < |buffer|
  {
    if |buffer| < ELEMENT_OVERHEAD then NeedMore else
      var length := FromBigEndian(buffer[1..5]);
      if limits.maxElementSize > 0 && ELEMENT_OVERHEAD + length > limits.maxElementSize then TooLarge else
        match ParseCopyStreamElement(buffer)
        case Malformed(_) => NeedMore
        case Parsed(e, rest) => Got(e, rest)
  }

  /** The fields of a CopyStreamEnvelopeDecoder that change. */
  datatype Decoder = Decoder(elementBuffer: seq<Byte>, envelopeBuffer: seq<Byte>, sawFinal: bool)

  const FRESH_DECODER: Decoder := Decoder([], [], false)

  function Remaining(d: Decoder): nat
  {
    |d.elementBuffer| + |d.envelopeBuffer|
  }

  /** First loop of DecodeEnvelopes; the flag reports an oversized element. */
  function DrainElements(d: Decoder, limits: Limits): (Decoder, bool)
    decreases |d.elementBuffer|
  {
    match DecodeAvailable(d.elementBuffer, limits)
    case NeedMore => (d, false)
    case TooLarge => (d, true)
    case Got(e, rest) =>
      DrainElements(Decoder(rest, d.envelopeBuffer + e.envelopeData, d.sawFinal || IsFinal(e)), limits)
  }

  datatype Drained = Drained(envelopes: seq<CourierEnvelope>, rest: seq<Byte>, error: Option<DecodeError>)

  datatype EnvelopeStep = Wait | Envelope(env: CourierEnvelope, rest: seq<Byte>) | Bad(error: DecodeError)

  /** One round of the second loop of DecodeEnvelopes. */
  function NextEnvelope(buffer: seq<Byte>, limits: Limits): (r: EnvelopeStep)
    ensures r.Envelope? ==> |r.rest| < |buffer|
  {
    if |buffer| < 4 then Wait else
      var length := FromBigEndian(buffer[..4]);
      if limits.maxEnvelopeSize > 0 && length > limits.maxEnvelopeSize then Bad(EnvelopeTooLarge)
      else if |buffer| < 4 + length then Wait
      else
        match ParseCourierEnvelope(buffer[4..4 + length])
        case Malformed(_) => Bad(EnvelopeMalformed)
        case Parsed(env, rest) =>
          if |rest| > 0 then Bad(EnvelopeHasTrailingBytes) else Envelope(env, buffer[4 + length..])
  }

  /** Second loop of DecodeEnvelopes. */
  function DrainEnvelopes(buffer: seq<Byte>, limits: Limits): Drained
    decreases |buffer|
  {
    match NextEnvelope(buffer, limits)
    case Wait => Drained([], buffer, None)
    case Bad(error) => Drained([], buffer, Some(error))
    case Envelope(env, rest) =>
      var later := DrainEnvelopes(rest, limits);
      later.(envelopes := [env] + later.envelopes)
  }

  datatype Decoded = Decoded(envelopes: seq<CourierEnvelope>, final: bool, error: Option<DecodeError>)

  function DecodeEnvelopes(d: Decoder, limits: Limits): (Decoded, Decoder)
  {
    var (d1, oversized) := DrainElements(d, limits);
    if oversized then (Decoded([], d1.sawFinal, Some(ElementTooLarge)), d1) else
      var r := DrainEnvelopes(d1.envelopeBuffer, limits);
      (Decoded(r.envelopes, d1.sawFinal, r.error), d1.(envelopeBuffer := r.rest))
  }

  /** An element list the decoder accepts as the encoding of envs: any chunking
      of their frames into elements within the limit, final flag on the last. */
  ghost predicate EncodesTo(es: seq<CopyStreamElement>, data: seq<Byte>, limits: Limits)
  {
    && Payload(es) == data
    && (forall i :: 0 <= i < |es| ==> es[i].Valid() && (IsFinal(es[i]) <==> i == |es| - 1))
    && (limits.maxElementSize > 0 ==>
          forall i :: 0 <= i < |es| ==> ELEMENT_OVERHEAD + |es[i].envelopeData| <= limits.maxElementSize)
  }

  predicate Acceptable(env: CourierEnvelope, limits: Limits)
  {
    Framable(env) && (limits.maxEnvelopeSize > 0 ==> |EncodeCourierEnvelope(env)| <= limits.maxEnvelopeSize)
  }

  lemma ElementPrefixNeedsMore(e: CopyStreamElement, k: nat)
    requires e.Valid() && k < |EncodeCopyStreamElement(e)|
    ensures ParseCopyStreamElement(EncodeCopyStreamElement(e)[..k]) == Malformed(DataTooShort)
  {
    CopyStreamElementFormat();
    var parse := ParseCopyStreamElement;
    var encode := EncodeCopyStreamElement;
    assert parse(encode(e)[..k]) == Malformed(DataTooShort);
  }

  lemma ElementLengthField(e: CopyStreamElement, buffer: seq<Byte>, future: seq<Byte>, tail: seq<Byte>)
    requires e.Valid() && buffer + future == EncodeCopyStreamElement(e) + tail && |buffer| >= ELEMENT_OVERHEAD
    ensures FromBigEndian(buffer[1..5]) == |e.envelopeData|
  {
    var length := BigEndian(e.envelopeLen, 4);
    assert EncodeCopyStreamElement(e)[1..5] == length;
    assert buffer[1..5] == (buffer + future)[1..5] == length;
    CapacityOfWords();
    BigEndianRoundTrip(e.envelopeLen, 4);
  }

  /** One DecodeAvailable call on a buffer that continues as a stream whose
      next element is e: it yields e once e has fully arrived, nothing before,
      and never an error. */
  lemma DecodeAvailableInStream(
    e: CopyStreamElement, buffer: seq<Byte>, future: seq<Byte>, tail: seq<Byte>, limits: Limits)
    requires e.Valid()
    requires limits.maxElementSize > 0 ==> ELEMENT_OVERHEAD + |e.envelopeData| <= limits.maxElementSize
    requires buffer + future == EncodeCopyStreamElement(e) + tail
    ensures var r := DecodeAvailable(buffer, limits); var size := |EncodeCopyStreamElement(e)|;
      if |buffer| < size then r == NeedMore
      else r == Got(e, buffer[size..]) && buffer[size..] + future == tail
  {
    var code := EncodeCopyStreamElement(e);
    if |buffer| >= ELEMENT_OVERHEAD {
      ElementLengthField(e, buffer, future, tail);
    }
    if |buffer| < |code| {
      assert buffer == (buffer + future)[..|buffer|] == code[..|buffer|];
      ElementPrefixNeedsMore(e, |buffer|);
    } else {
      var rest := buffer[|code|..];
      assert buffer[..|code|] == (buffer + future)[..|code|] == code;
      assert buffer == code + rest;
      assert rest + future == (buffer + future)[|code|..] == tail;
      CopyStreamElementOntoIsAppend(e, rest);
      CopyStreamElementRoundTrip(e, rest);
    }
  }

  lemma EncodesToTail(es: seq<CopyStreamElement>, limits: Limits)
    requires es != [] && EncodesTo(es, Payload(es), limits)
    ensures EncodesTo(es[1..], Payload(es[1..]), limits)
    ensures IsFinal(es[0]) <==> es[1..] == []
  {
    forall i | 0 <= i < |es[1..]|
      ensures es[1..][i].Valid() && (IsFinal(es[1..][i]) <==> i == |es[1..]| - 1)
      ensures limits.maxElementSize > 0 ==> ELEMENT_OVERHEAD + |es[1..][i].envelopeData| <= limits.maxElementSize
    {
      assert es[1..][i] == es[i + 1];
    }
  }

  /** The first loop takes exactly the elements that have fully arrived; left
      are the ones still to come. */
  lemma {:induction false} DrainElementsInStream(
    es: seq<CopyStreamElement>, d: Decoder, future: seq<Byte>, limits: Limits)
    returns (left: seq<CopyStreamElement>)
    requires EncodesTo(es, Payload(es), limits)
    requires d.elementBuffer + future == Wire(es)
    requires d.sawFinal <==> es == []
    ensures EncodesTo(left, Payload(left), limits)
    ensures var (d1, oversized) := DrainElements(d, limits);
      && !oversized
      && d1.elementBuffer + future == Wire(left)
      && d1.envelopeBuffer + Payload(left) == d.envelopeBuffer + Payload(es)
      && (d1.sawFinal <==> left == [])
      && (future == [] <==> left == [])
    decreases |es|
  {
    left := es;
    if es == [] {
      assert d.elementBuffer == [];
      return;
    }
    var code := EncodeCopyStreamElement(es[0]);
    DecodeAvailableInStream(es[0], d.elementBuffer, future, Wire(es[1..]), limits);
    EncodesToTail(es, limits);
    hide EncodeCopyStreamElement, EncodesTo, IsFinal, DecodeAvailable;
    if |d.elementBuffer| < |code| {
      assert |Wire(es)| >= |code|;
      return;
    }
    var d' := Decoder(d.elementBuffer[|code|..], d.envelopeBuffer + es[0].envelopeData, d.sawFinal || IsFinal(es[0]));
    left := DrainElementsInStream(es[1..], d', future, limits);
    ConcatAssoc(d.envelopeBuffer, es[0].envelopeData, Payload(es[1..]));
  }

  lemma EnvelopeReads(env: CourierEnvelope)
    requires env.Valid()
    ensures ParseCourierEnvelope(EncodeCourierEnvelope(env)) == Parsed(env, [])
  {
    CourierEnvelopeRoundTrip(env, []);
  }

  lemma FrameLengthField(env: CourierEnvelope, buffer: seq<Byte>, future: seq<Byte>, tail: seq<Byte>)
    requires Framable(env) && buffer + future == Frame(env) + tail && |buffer| >= 4
    ensures FromBigEndian(buffer[..4]) == |EncodeCourierEnvelope(env)|
  {
    var code := EncodeCourierEnvelope(env);
    assert buffer[..4] == (buffer + future)[..4] == BigEndian(|code|, 4);
    CapacityOfWords();
    BigEndianRoundTrip(|code|, 4);
  }

  lemma NextEnvelopeInStream(
    env: CourierEnvelope, buffer: seq<Byte>, future: seq<Byte>, tail: seq<Byte>, limits: Limits)
    requires Acceptable(env, limits)
    requires buffer + future == Frame(env) + tail
    ensures var r := NextEnvelope(buffer, limits); var size := |Frame(env)|;
      if |buffer| < size then r == Wait
      else r == Envelope(env, buffer[size..]) && buffer[size..] + future == tail
  {
    hide EncodeCourierEnvelope, ParseCourierEnvelope;
    var code := EncodeCourierEnvelope(env);
    if |buffer| >= 4 {
      FrameLengthField(env, buffer, future, tail);
    }
    if |buffer| >= 4 + |code| {
      assert buffer[4..4 + |code|] == (buffer + future)[4..4 + |code|] == code;
      assert buffer[4 + |code|..] + future == (buffer + future)[4 + |code|..] == tail;
      EnvelopeReads(env);
    }
  }

  /** The second loop takes exactly the envelopes that have fully arrived; left
      are the ones still to come. */
  lemma {:induction false} DrainEnvelopesInStream(
    envs: seq<CourierEnvelope>, buffer: seq<Byte>, future: seq<Byte>, limits: Limits)
    returns (left: seq<CourierEnvelope>)
    requires forall env :: env in envs ==> Acceptable(env, limits)
    requires buffer + future == Framed(envs)
    ensures var r := DrainEnvelopes(buffer, limits);
      && r.error == None
      && r.envelopes + left == envs
      && r.rest + future == Framed(left)
      && (future == [] ==> left == [] && r.rest == [])
    decreases |envs|
  {
    left := envs;
    if envs == [] {
      assert buffer == [];
      return;
    }
    var size := |Frame(envs[0])|;
    NextEnvelopeInStream(envs[0], buffer, future, Framed(envs[1..]), limits);
    hide Frame, NextEnvelope, Acceptable;
    assert Framed(envs) == Frame(envs[0]) + Framed(envs[1..]);
    if |buffer| < size {
      assert future != [];
      assert DrainEnvelopes(buffer, limits) == Drained([], buffer, None);
      return;
    }
    hide Framed;
    left := DrainEnvelopesInStream(envs[1..], buffer[size..], future, limits);
    ConcatAssoc([envs[0]], DrainEnvelopes(buffer[size..], limits).envelopes, left);
  }

  // ------------------------------------------------------------ decoder runs

  datatype DecoderCall = AddBoxData(data: seq<Byte>) | Decode

  function Fed(calls: seq<DecoderCall>): seq<Byte>
  {
    if calls == [] then []
    else if calls[0].AddBoxData? then calls[0].data + Fed(calls[1..])
    else Fed(calls[1..])
  }

  /** What one DecodeEnvelopes call returned, and how many bytes had come by then. */
  datatype Observation = Observation(received: nat, result: Decoded)

  function RunDecoder(d: Decoder, calls: seq<DecoderCall>, limits: Limits, received: nat): (seq<Observation>, Decoder)
    decreases |calls|
  {
    if calls == [] then ([], d) else
      match calls[0]
      case AddBoxData(data) =>
        RunDecoder(d.(elementBuffer := d.elementBuffer + data), calls[1..], limits, received + |data|)
      case Decode =>
        var (result, d1) := DecodeEnvelopes(d, limits);
        var (later, d2) := RunDecoder(d1, calls[1..], limits, received);
        ([Observation(received, result)] + later, d2)
  }

  function Collected(obs: seq<Observation>): seq<CourierEnvelope>
  {
    if obs == [] then [] else obs[0].result.envelopes + Collected(obs[1..])
  }

  /** A decoder in the middle of a stream of which elements es and envelopes
      envs are still to come, the bytes future still on their way. */
  ghost predicate InStream(
    es: seq<CopyStreamElement>, envs: seq<CourierEnvelope>, d: Decoder, future: seq<Byte>, limits: Limits)
  {
    && EncodesTo(es, Payload(es), limits)
    && (forall env :: env in envs ==> Acceptable(env, limits))
    && d.elementBuffer + future == Wire(es)
    && d.envelopeBuffer + Payload(es) == Framed(envs)
    && (d.sawFinal <==> es == [])
  }

  lemma DecodeInStream(
    es: seq<CopyStreamElement>, envs: seq<CourierEnvelope>, d: Decoder, future: seq<Byte>, limits: Limits)
    returns (es1: seq<CopyStreamElement>, envs1: seq<CourierEnvelope>)
    requires InStream(es, envs, d, future, limits)
    ensures var (r, d1) := DecodeEnvelopes(d, limits);
      && r.error == None
      && r.envelopes + envs1 == envs
      && (r.final <==> future == [])
      && InStream(es1, envs1, d1, future, limits)
      && (future == [] ==> envs1 == [] && Remaining(d1) == 0)
  {
    hide EncodesTo, Acceptable, DrainElements, DrainEnvelopes, Framed, Frame;
    es1 := DrainElementsInStream(es, d, future, limits);
    var (d1, oversized) := DrainElements(d, limits);
    envs1 := DrainEnvelopesInStream(envs, d1.envelopeBuffer, Payload(es1), limits);
    assert forall env :: env in envs1 ==> env in envs;
    if future == [] {
      assert d1.elementBuffer + future == [];
    }
  }

  /** What all the DecodeEnvelopes calls of a run should have returned together. */
  ghost predicate Delivers(obs: seq<Observation>, d: Decoder, envs: seq<CourierEnvelope>, total: nat)
  {
    && (forall o :: o in obs ==> o.result.error == None)
    && (forall o :: o in obs ==> (o.result.final <==> o.received == total))
    && Collected(obs) == envs
    && Remaining(d) == 0
  }

  lemma DeliversCons(
    first: Observation, obs: seq<Observation>, d: Decoder, envs: seq<CourierEnvelope>, total: nat)
    requires Delivers(obs, d, envs, total)
    requires first.result.error == None && (first.result.final <==> first.received == total)
    ensures Delivers([first] + obs, d, first.result.envelopes + envs, total)
  {
    assert ([first] + obs)[1..] == obs;
  }

  lemma {:induction false} RunInStream(
    es: seq<CopyStreamElement>, envs: seq<CourierEnvelope>, d: Decoder, calls: seq<DecoderCall>, limits: Limits,
    received: nat)
    requires calls != [] && calls[|calls| - 1].Decode?
    requires InStream(es, envs, d, Fed(calls), limits)
    ensures var (obs, d1) := RunDecoder(d, calls, limits, received);
      Delivers(obs, d1, envs, received + |Fed(calls)|)
    decreases |calls|
  {
    hide InStream, Delivers, DecodeEnvelopes;
    if calls[0].AddBoxData? {
      var fed := d.(elementBuffer := d.elementBuffer + calls[0].data);
      FeedInStream(es, envs, d, calls[0].data, Fed(calls[1..]), limits);
      RunInStream(es, envs, fed, calls[1..], limits, received + |calls[0].data|);
    } else {
      var es1, envs1 := DecodeInStream(es, envs, d, Fed(calls[1..]), limits);
      var (r, d1) := DecodeEnvelopes(d, limits);
      var (later, d2) := RunDecoder(d1, calls[1..], limits, received);
      if |calls| > 1 {
        RunInStream(es1, envs1, d1, calls[1..], limits, received);
      } else {
        DeliversNothing(d1, envs1, received);
      }
      DeliversCons(Observation(received, r), later, d2, envs1, received + |Fed(calls)|);
    }
  }

  lemma FeedInStream(
    es: seq<CopyStreamElement>, envs: seq<CourierEnvelope>, d: Decoder, data: seq<Byte>, future: seq<Byte>,
    limits: Limits)
    requires InStream(es, envs, d, data + future, limits)
    ensures InStream(es, envs, d.(elementBuffer := d.elementBuffer + data), future, limits)
  {
    hide EncodesTo, Acceptable, Framed;
    ConcatAssoc(d.elementBuffer, data, future);
  }

  lemma DeliversNothing(d: Decoder, envs: seq<CourierEnvelope>, total: nat)
    requires envs == [] && Remaining(d) == 0
    ensures Delivers([], d, envs, total)
  {
  }

  /** Whatever way the bytes of a stream are cut up and however often
      DecodeEnvelopes is called in between, the calls together return exactly
      the envelopes in order, without an error, nothing is left over, and the
      final flag is reported exactly from the moment the last byte is there. */
  lemma AnyFragmentationDecodes(
    es: seq<CopyStreamElement>, envs: seq<CourierEnvelope>, calls: seq<DecoderCall>, limits: Limits)
    requires envs != [] && (forall env :: env in envs ==> Acceptable(env, limits))
    requires EncodesTo(es, Framed(envs), limits)
    requires Fed(calls) == Wire(es)
    ensures var (obs, d) := RunDecoder(FRESH_DECODER, calls + [Decode], limits, 0);
      Delivers(obs, d, envs, |Wire(es)|)
  {
    hide *;
    FedBeforeDecode(calls);
    FreshInStream(es, envs, limits);
    RunInStream(es, envs, FRESH_DECODER, calls + [Decode], limits, 0);
  }

  lemma FreshInStream(es: seq<CopyStreamElement>, envs: seq<CourierEnvelope>, limits: Limits)
    requires envs != [] && (forall env :: env in envs ==> Acceptable(env, limits))
    requires EncodesTo(es, Framed(envs), limits)
    ensures InStream(es, envs, FRESH_DECODER, Wire(es), limits)
  {
    hide EncodeCourierEnvelope;
    assert |Framed(envs)| >= |Frame(envs[0])| >= 4;
    assert es != [];
    assert [] + Wire(es) == Wire(es);
    assert [] + Payload(es) == Payload(es);
  }

  lemma {:induction false} FedBeforeDecode(calls: seq<DecoderCall>)
    ensures Fed(calls + [Decode]) == Fed(calls)
  {
    if calls != [] {
      assert (calls + [Decode])[1..] == calls[1..] + [Decode];
      FedBeforeDecode(calls[1..]);
    }
  }

  /** The round trip: what a run of AddEnvelope calls, cut and restored
      anywhere, and a final Flush emit is decoded back to the envelopes. */
  lemma CopyStreamRoundTrip(
    encoderCalls: seq<EncoderCall>, n: ChunkSize, decoderCalls: seq<DecoderCall>, limits: Limits)
    requires Envelopes(encoderCalls) != []
    requires forall env :: env in Envelopes(encoderCalls) ==> Acceptable(env, limits)
    requires limits.maxElementSize > 0 ==> n + ELEMENT_OVERHEAD <= limits.maxElementSize
    requires Fed(decoderCalls) == Wire(Emitted(FRESH, encoderCalls, n))
    ensures var (obs, d) := RunDecoder(FRESH_DECODER, decoderCalls + [Decode], limits, 0);
      Delivers(obs, d, Envelopes(encoderCalls), |Fed(decoderCalls)|)
  {
    hide Stream, RunDecoder, StartSurvives, Emitted, Envelopes, Framed, Acceptable, Wire, Fed, Payload, Delivers;
    var envs := Envelopes(encoderCalls);
    var es := Emitted(FRESH, encoderCalls, n);
    RunEmitsStream(FRESH, encoderCalls, n);
    assert FRESH.buffer + Framed(envs) == Framed(envs);
    StreamShape(Framed(envs), n, FRESH.isFirstChunk && StartSurvives(FRESH, encoderCalls, n));
    StreamPayload(Framed(envs), n, FRESH.isFirstChunk && StartSurvives(FRESH, encoderCalls, n));
    AnyFragmentationDecodes(es, envs, decoderCalls, limits);
  }

  // -------------------------------------------------------- stateless calls

  function AddAll(envs: seq<CourierEnvelope>): (calls: seq<EncoderCall>)
    ensures Envelopes(calls) == envs && Cut !in calls
  {
    if envs == [] then [] else [AddEnvelope(envs[0])] + AddAll(envs[1..])
  }

  /** One stateless request: a fresh encoder takes all envelopes of the call and
      is emptied at its end, with the final flag only on the last call. */
  function CallElements(envs: seq<CourierEnvelope>, isStart: bool, isLast: bool, n: ChunkSize): seq<CopyStreamElement>
  {
    var run := RunEncoder(Encoder([], isStart), AddAll(envs), n);
    run.elements + if isLast then Flush(run.encoder, n) else FlushWithoutFinal(run.encoder, n)
  }

  function CallsElements(batches: seq<seq<CourierEnvelope>>, isStart: bool, n: ChunkSize): seq<CopyStreamElement>
  {
    if batches == [] then []
    else CallElements(batches[0], isStart, |batches| == 1, n) + CallsElements(batches[1..], false, n)
  }

  function Flatten(batches: seq<seq<CourierEnvelope>>): seq<CourierEnvelope>
  {
    if batches == [] then [] else batches[0] + Flatten(batches[1..])
  }

  /** Elements of a part of a stream that is not its end. */
  ghost predicate InnerPart(es: seq<CopyStreamElement>, data: seq<Byte>, n: ChunkSize)
  {
    && Payload(es) == data
    && (forall i :: 0 <= i < |es| ==> es[i].Valid() && !IsFinal(es[i]) && |es[i].envelopeData| <= n)
  }

  lemma {:induction false} PayloadAppend(a: seq<CopyStreamElement>, b: seq<CopyStreamElement>)
    ensures Payload(a + b) == Payload(a) + Payload(b)
  {
    if a == [] {
      assert a + b == b;
    } else {
      PayloadAppend(a[1..], b);
      assert (a + b)[1..] == a[1..] + b;
      ConcatAssoc(a[0].envelopeData, Payload(a[1..]), Payload(b));
    }
  }

  lemma {:induction false} FramedAppend(a: seq<CourierEnvelope>, b: seq<CourierEnvelope>)
    ensures Framed(a + b) == Framed(a) + Framed(b)
  {
    hide Frame;
    if a == [] {
      assert a + b == b;
    } else {
      FramedAppend(a[1..], b);
      assert (a + b)[1..] == a[1..] + b;
      ConcatAssoc(Frame(a[0]), Framed(a[1..]), Framed(b));
    }
  }

  lemma InnerPartAppend(
    a: seq<CopyStreamElement>, da: seq<Byte>, b: seq<CopyStreamElement>, db: seq<Byte>, n: ChunkSize)
    requires InnerPart(a, da, n) && InnerPart(b, db, n)
    ensures InnerPart(a + b, da + db, n)
  {
    PayloadAppend(a, b);
  }

  lemma {:induction false} FlushWithoutFinalIsInner(enc: Encoder, n: ChunkSize)
    ensures InnerPart(FlushWithoutFinal(enc, n), enc.buffer, n)
    decreases |enc.buffer|
  {
    if enc.buffer == [] {
      EmptyIsInner(n);
    } else {
      var size := if n > |enc.buffer| then |enc.buffer| else n;
      var chunk, rest := enc.buffer[..size], Encoder(enc.buffer[size..], false);
      var head := Element(enc.isFirstChunk, false, chunk);
      var later := FlushWithoutFinal(rest, n);
      assert FlushWithoutFinal(enc, n) == [head] + later;
      SingletonIsInner(head, n);
      hide *;
      assert chunk + rest.buffer == enc.buffer;
      FlushWithoutFinalIsInner(rest, n);
      InnerPartAppend([head], chunk, later, rest.buffer, n);
    }
  }

  /** Nothing is lost between a buffer and what is extracted from it. */
  lemma {:induction false} ExtractIsInner(enc: Encoder, n: ChunkSize) returns (data: seq<Byte>)
    ensures var r := Extract(enc, n); InnerPart(r.elements, data, n) && data + r.encoder.buffer == enc.buffer
    decreases |enc.buffer|
  {
    data := [];
    EmptyIsInner(n);
    if |enc.buffer| > n {
      var head := Element(enc.isFirstChunk, false, enc.buffer[..n]);
      var rest := Encoder(enc.buffer[n..], false);
      var later := ExtractIsInner(rest, n);
      SingletonIsInner(head, n);
      var r := Extract(rest, n);
      assert Extract(enc, n) == Emission([head] + r.elements, r.encoder);
      hide *;
      var chunk := enc.buffer[..n];
      assert chunk + rest.buffer == enc.buffer;
      InnerPartAppend([head], chunk, r.elements, later, n);
      data := chunk + later;
      ConcatAssoc(chunk, later, r.encoder.buffer);
    }
  }

  lemma {:induction false} RunIsInner(enc: Encoder, envs: seq<CourierEnvelope>, n: ChunkSize) returns (data: seq<Byte>)
    ensures var r := RunEncoder(enc, AddAll(envs), n);
      InnerPart(r.elements, data, n) && data + r.encoder.buffer == enc.buffer + Framed(envs)
    decreases |envs|
  {
    hide InnerPart, Frame, Extract;
    if envs == [] {
      data := [];
      assert InnerPart([], [], n) by { EmptyIsInner(n); }
    } else {
      var grown := enc.(buffer := enc.buffer + Frame(envs[0]));
      var now := ExtractIsInner(grown, n);
      var mid := Extract(grown, n).encoder;
      var later := RunIsInner(mid, envs[1..], n);
      var last := RunEncoder(mid, AddAll(envs[1..]), n);
      assert AddAll(envs)[1..] == AddAll(envs[1..]);
      InnerPartAppend(Extract(grown, n).elements, now, last.elements, later, n);
      data := now + later;
      ConcatAssoc(now, later, last.encoder.buffer);
      ConcatAssoc(now, mid.buffer, Framed(envs[1..]));
      ConcatAssoc(enc.buffer, Frame(envs[0]), Framed(envs[1..]));
    }
  }

  lemma SingletonIsInner(e: CopyStreamElement, n: ChunkSize)
    requires e.Valid() && !IsFinal(e) && |e.envelopeData| <= n
    ensures InnerPart([e], e.envelopeData, n)
  {
    assert Payload([e]) == e.envelopeData + Payload([]);
  }

  lemma EmptyIsInner(n: ChunkSize)
    ensures InnerPart([], [], n)
  {
  }

  lemma CallIsInner(envs: seq<CourierEnvelope>, isStart: bool, n: ChunkSize)
    ensures InnerPart(CallElements(envs, isStart, false, n), Framed(envs), n)
  {
    hide InnerPart, RunEncoder, FlushWithoutFinal, Framed;
    var data := RunIsInner(Encoder([], isStart), envs, n);
    var run := RunEncoder(Encoder([], isStart), AddAll(envs), n);
    FlushWithoutFinalIsInner(run.encoder, n);
    InnerPartAppend(run.elements, data, FlushWithoutFinal(run.encoder, n), run.encoder.buffer, n);
    assert [] + Framed(envs) == Framed(envs);
  }

  lemma CallIsEnd(envs: seq<CourierEnvelope>, isStart: bool, n: ChunkSize, limits: Limits)
    requires envs != []
    requires limits.maxElementSize > 0 ==> n + ELEMENT_OVERHEAD <= limits.maxElementSize
    ensures EncodesTo(CallElements(envs, isStart, true, n), Framed(envs), limits)
  {
    hide Stream, RunEncoder, Framed, StartSurvives, Payload;
    var enc := Encoder([], isStart);
    RunEmitsStream(enc, AddAll(envs), n);
    var first := isStart && StartSurvives(enc, AddAll(envs), n);
    assert [] + Framed(envs) == Framed(envs);
    StreamShape(Framed(envs), n, first);
    StreamPayload(Framed(envs), n, first);
  }

  lemma InnerThenEnd(
    a: seq<CopyStreamElement>, da: seq<Byte>, b: seq<CopyStreamElement>, db: seq<Byte>, n: ChunkSize, limits: Limits)
    requires InnerPart(a, da, n) && EncodesTo(b, db, limits) && b != []
    requires limits.maxElementSize > 0 ==> n + ELEMENT_OVERHEAD <= limits.maxElementSize
    ensures EncodesTo(a + b, da + db, limits)
  {
    PayloadAppend(a, b);
  }

  /** With an envelope in the last call the elements encode all envelopes in order. */
  lemma {:induction false} CallsEncode(
    batches: seq<seq<CourierEnvelope>>, isStart: bool, n: ChunkSize, limits: Limits)
    requires batches != [] && batches[|batches| - 1] != []
    requires limits.maxElementSize > 0 ==> n + ELEMENT_OVERHEAD <= limits.maxElementSize
    ensures CallsElements(batches, isStart, n) != []
    ensures EncodesTo(CallsElements(batches, isStart, n), Framed(Flatten(batches)), limits)
    decreases |batches|
  {
    hide CallElements, EncodesTo, InnerPart, Framed;
    if |batches| == 1 {
      CallIsEnd(batches[0], isStart, n, limits);
      CallIsNotEmpty(batches[0], isStart, n);
      assert CallsElements(batches[1..], false, n) == [];
      assert Flatten(batches) == batches[0] + Flatten(batches[1..]) == batches[0];
      assert CallsElements(batches, isStart, n) == CallElements(batches[0], isStart, true, n);
    } else {
      var tail := batches[1..];
      CallsEncode(tail, false, n, limits);
      CallIsInner(batches[0], isStart, n);
      InnerThenEnd(CallElements(batches[0], isStart, false, n), Framed(batches[0]),
                   CallsElements(tail, false, n), Framed(Flatten(tail)), n, limits);
      FramedAppend(batches[0], Flatten(tail));
    }
  }

  /** With nothing in the last call there is nothing to flush, so no element of the
      whole stream carries the final flag. */
  lemma {:induction false} EmptyLastCallNeverFinal(batches: seq<seq<CourierEnvelope>>, isStart: bool, n: ChunkSize)
    requires batches != [] && batches[|batches| - 1] == []
    ensures InnerPart(CallsElements(batches, isStart, n), Framed(Flatten(batches)), n)
    decreases |batches|
  {
    if |batches| == 1 {
      assert AddAll([]) == [] && CallElements([], isStart, true, n) == [];
      assert CallsElements(batches[1..], false, n) == [];
      EmptyIsInner(n);
    } else {
      var tail := batches[1..];
      hide CallElements, InnerPart, Framed;
      EmptyLastCallNeverFinal(tail, false, n);
      CallIsInner(batches[0], isStart, n);
      InnerPartAppend(CallElements(batches[0], isStart, false, n), Framed(batches[0]),
                      CallsElements(tail, false, n), Framed(Flatten(tail)), n);
      FramedAppend(batches[0], Flatten(tail));
    }
  }

  /** A stream produced by any number of stateless calls, each emptying its own
      encoder, is an encoding of all their envelopes in order exactly when the last
      call has an envelope to put the final flag on, or no call has any. */
  lemma StatelessCallsEncodeIff(
    batches: seq<seq<CourierEnvelope>>, isStart: bool, n: ChunkSize, limits: Limits)
    requires batches != []
    requires limits.maxElementSize > 0 ==> n + ELEMENT_OVERHEAD <= limits.maxElementSize
    ensures EncodesTo(CallsElements(batches, isStart, n), Framed(Flatten(batches)), limits)
       <==> batches[|batches| - 1] != [] || Flatten(batches) == []
  {
    if batches[|batches| - 1] != [] {
      CallsEncode(batches, isStart, n, limits);
    } else {
      EmptyLastCallNeverFinal(batches, isStart, n);
      var es := CallsElements(batches, isStart, n);
      FramedIsNotEmpty(Flatten(batches));
      var flat := Flatten(batches);
      if es != [] {
        PayloadIsNotEmpty(es, batches, isStart, n);
      }
      assert Payload([]) == [];
      hide CallsElements, Flatten, Framed, Payload;
      assert es != [] ==> !IsFinal(es[|es| - 1]);
    }
  }

  lemma FramedIsNotEmpty(envs: seq<CourierEnvelope>)
    ensures Framed(envs) == [] <==> envs == []
  {
    if envs != [] {
      assert |Frame(envs[0])| >= 4;
    }
  }

  /** No call emits an element without data. */
  lemma PayloadIsNotEmpty(es: seq<CopyStreamElement>, batches: seq<seq<CourierEnvelope>>, isStart: bool, n: ChunkSize)
    requires es == CallsElements(batches, isStart, n) && es != []
    ensures Flatten(batches) != []
  {
    if Flatten(batches) == [] {
      NoEnvelopesNoElements(batches, isStart, n);
    }
  }

  lemma {:induction false} NoEnvelopesNoElements(batches: seq<seq<CourierEnvelope>>, isStart: bool, n: ChunkSize)
    requires Flatten(batches) == []
    ensures CallsElements(batches, isStart, n) == []
    decreases |batches|
  {
    if batches != [] {
      assert batches[0] == [] && Flatten(batches[1..]) == [];
      assert AddAll([]) == [];
      NoEnvelopesNoElements(batches[1..], false, n);
    }
  }

  /** The failing case at an input: one envelope in the first call, none in the last. */
  lemma EmptyLastCallLosesFinal(env: CourierEnvelope, n: ChunkSize, limits: Limits)
    requires limits.maxElementSize > 0 ==> n + ELEMENT_OVERHEAD <= limits.maxElementSize
    ensures var es := CallsElements([[env], []], true, n);
            && es != [] && Payload(es) == Frame(env) && (forall e :: e in es ==> !IsFinal(e))
            && !EncodesTo(es, Framed([env]), limits)
  {
    var batches := [[env], []];
    assert batches[1..] == [[]] && batches[1..][1..] == [];
    assert Flatten([[]]) == [] + Flatten([]) == [];
    assert Flatten(batches) == [env] + [] == [env];
    assert Framed([env]) == Frame(env) + Framed([]) == Frame(env);
    EmptyLastCallNeverFinal(batches, true, n);
    StatelessCallsEncodeIff(batches, true, n, limits);
    FramedIsNotEmpty([env]);
    hide CallsElements;
  }

  /** A cut before the first element came out loses the start flag: an envelope that
      fits one chunk, saved and restored before it is flushed. */
  lemma EarlyCutLosesStart(env: CourierEnvelope, n: ChunkSize)
    requires |Frame(env)| <= n
    ensures var uncut := Emitted(FRESH, [AddEnvelope(env)], n); var cut := Emitted(FRESH, [AddEnvelope(env), Cut], n);
            |uncut| == |cut| == 1 && IsStart(uncut[0]) && !IsStart(cut[0])
  {
    var data := Frame(env);
    assert [] + data == data;
    assert Add(FRESH, env, n) == Emission([], Encoder(data, true));
    assert [AddEnvelope(env), Cut][1..] == [Cut] && [Cut][1..] == [] && [AddEnvelope(env)][1..] == [];
    assert RunEncoder(Encoder(data, true), [Cut], n) == Emission([], Encoder(data, false));
    assert RunEncoder(FRESH, [AddEnvelope(env)], n) == Emission([], Encoder(data, true));
    assert RunEncoder(FRESH, [AddEnvelope(env), Cut], n) == Emission([], Encoder(data, false));
    assert data != [];
  }

  lemma CallIsNotEmpty(envs: seq<CourierEnvelope>, isStart: bool, n: ChunkSize)
    requires envs != []
    ensures CallElements(envs, isStart, true, n) != []
  {
    var enc := Encoder([], isStart);
    RunEmitsStream(enc, AddAll(envs), n);
  }
}
