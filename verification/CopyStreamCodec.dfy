/** The stateful encoder and decoders of pigeonhole/copy_stream.go. Every
    method is proved against the functions of CopyStream, so the theorems about
    runs there are theorems about sequences of these calls. */
module CopyStreamCodec {
  import opened Options
  import opened Bytes
  import opened Trunnel
  import opened CopyStream

  function Serialized(es: seq<CopyStreamElement>): (r: seq<seq<Byte>>)
    ensures |r| == |es|
  {
    seq(|es|, i requires 0 <= i < |es| => EncodeCopyStreamElement(es[i]))
  }

  datatype AddResult = Elements(elements: seq<seq<Byte>>) | EnvelopeIsNil | FailedToMarshal

  class CopyStreamEncoder {
    var buffer: seq<Byte>
    const maxChunkSize: ChunkSize
    var isFirstChunk: bool

    ghost function State(): Encoder
      reads this
    {
      Encoder(buffer, isFirstChunk)
    }

    /** The chunk size is what is left of a box after the element overhead. */
    constructor (maxPlaintextPayloadLength: int)
      requires ELEMENT_OVERHEAD < maxPlaintextPayloadLength < ELEMENT_OVERHEAD + TWO_TO_32
      ensures State() == FRESH
      ensures maxChunkSize == maxPlaintextPayloadLength - ELEMENT_OVERHEAD
    {
      buffer := [];
      maxChunkSize := maxPlaintextPayloadLength - ELEMENT_OVERHEAD;
      isFirstChunk := true;
    }

    method SuppressStart()
      modifies this
      ensures State() == old(State()).(isFirstChunk := false)
    {
      isFirstChunk := false;
    }

    method AddEnvelope(envelope: Option<CourierEnvelope>) returns (r: AddResult)
      modifies this
      ensures envelope == None ==> r == EnvelopeIsNil && State() == old(State())
      ensures envelope.Some? && !envelope.value.Valid() ==> r == FailedToMarshal && State() == old(State())
      ensures envelope.Some? && envelope.value.Valid() ==>
        var e := Add(old(State()), envelope.value, maxChunkSize);
        r == Elements(Serialized(e.elements)) && State() == e.encoder
    {
      if envelope == None {
        return EnvelopeIsNil;
      }
      var marshalled := WriteCourierEnvelope(envelope.value);
      if marshalled.Refused? {
        return FailedToMarshal;
      }
      var lengthPrefix := BigEndian(|marshalled.bytes|, 4);
      buffer := buffer + lengthPrefix;
      buffer := buffer + marshalled.bytes;
      ConcatAssoc(old(buffer), lengthPrefix, marshalled.bytes);
      assert State() == old(State()).(buffer := old(buffer) + Frame(envelope.value));
      var elements := ExtractElements();
      r := Elements(elements);
    }

    /** Emits full elements while more than one chunk is buffered, so that Flush
        always has something left to carry the final flag. */
    method ExtractElements() returns (elements: seq<seq<Byte>>)
      modifies this
      ensures var e := Extract(old(State()), maxChunkSize);
        elements == Serialized(e.elements) && State() == e.encoder
    {
      elements := [];
      ghost var start := State();
      ghost var done: seq<CopyStreamElement> := [];
      while |buffer| > maxChunkSize
        invariant elements == Serialized(done)
        invariant Extract(start, maxChunkSize).elements == done + Extract(State(), maxChunkSize).elements
        invariant Extract(start, maxChunkSize).encoder == Extract(State(), maxChunkSize).encoder
        decreases |buffer|
      {
        hide EncodeCopyStreamElement;
        var chunkData := buffer[..maxChunkSize];
        var elem := Element(isFirstChunk, false, chunkData);
        ghost var before := State();
        buffer := buffer[maxChunkSize..];
        isFirstChunk := false;
        assert Extract(before, maxChunkSize).elements == [elem] + Extract(State(), maxChunkSize).elements;
        ConcatAssoc(done, [elem], Extract(State(), maxChunkSize).elements);
        elements := elements + [EncodeCopyStreamElement(elem)];
        done := done + [elem];
      }
    }

    /** Emits everything that is left; the last element carries the final flag. */
    method FlushAll() returns (elements: seq<seq<Byte>>)
      modifies this
      ensures elements == Serialized(Flush(old(State()), maxChunkSize))
      ensures buffer == [] && isFirstChunk == (old(isFirstChunk) && old(buffer) == [])
    {
      elements := [];
      if |buffer| == 0 {
        return;
      }
      ghost var start := State();
      ghost var done: seq<CopyStreamElement> := [];
      while |buffer| > maxChunkSize
        invariant buffer != []
        invariant elements == Serialized(done)
        invariant Stream(start.buffer, maxChunkSize, start.isFirstChunk) ==
                  done + Stream(buffer, maxChunkSize, isFirstChunk)
        decreases |buffer|
      {
        hide EncodeCopyStreamElement;
        var elem := Element(isFirstChunk, false, buffer[..maxChunkSize]);
        ghost var tail := Stream(buffer[maxChunkSize..], maxChunkSize, false);
        assert Stream(buffer, maxChunkSize, isFirstChunk) == [elem] + tail;
        ConcatAssoc(done, [elem], tail);
        buffer := buffer[maxChunkSize..];
        isFirstChunk := false;
        elements := elements + [EncodeCopyStreamElement(elem)];
        done := done + [elem];
      }
      var last := Element(isFirstChunk, true, buffer);
      assert Stream(buffer, maxChunkSize, isFirstChunk) == [last];
      elements := elements + [EncodeCopyStreamElement(last)];
      assert elements == Serialized(done + [last]);
      buffer := [];
      isFirstChunk := false;
    }

    /** The same for a call that is not the last of a stateless stream. */
    method FlushPart() returns (elements: seq<seq<Byte>>)
      modifies this
      ensures elements == Serialized(FlushWithoutFinal(old(State()), maxChunkSize))
      ensures buffer == [] && isFirstChunk == (old(isFirstChunk) && old(buffer) == [])
    {
      elements := [];
      ghost var start := State();
      ghost var done: seq<CopyStreamElement> := [];
      while |buffer| > 0
        invariant elements == Serialized(done)
        invariant isFirstChunk == (start.isFirstChunk && buffer == start.buffer)
        invariant |buffer| <= |start.buffer|
        invariant FlushWithoutFinal(start, maxChunkSize) == done + FlushWithoutFinal(State(), maxChunkSize)
        decreases |buffer|
      {
        hide EncodeCopyStreamElement;
        var chunkSize := maxChunkSize;
        if chunkSize > |buffer| {
          chunkSize := |buffer|;
        }
        var elem := Element(isFirstChunk, false, buffer[..chunkSize]);
        ghost var tail := FlushWithoutFinal(Encoder(buffer[chunkSize..], false), maxChunkSize);
        assert FlushWithoutFinal(State(), maxChunkSize) == [elem] + tail;
        ConcatAssoc(done, [elem], tail);
        buffer := buffer[chunkSize..];
        isFirstChunk := false;
        elements := elements + [EncodeCopyStreamElement(elem)];
        done := done + [elem];
      }
    }

    method GetBuffer() returns (saved: seq<Byte>)
      ensures saved == buffer
    {
      saved := buffer;
    }

    method SetBuffer(saved: Option<seq<Byte>>)
      modifies this
      ensures State() == if saved == None then old(State()) else old(State()).(buffer := saved.value)
    {
      if saved == None {
        return;
      }
      buffer := saved.value;
    }
  }

  /** Continuing in a fresh encoder from a saved buffer, as each stateless
      request does, is the SaveAndRestore step of the run theorems. */
  method Resume(saved: seq<Byte>, maxPlaintextPayloadLength: int) returns (encoder: CopyStreamEncoder)
    requires ELEMENT_OVERHEAD < maxPlaintextPayloadLength < ELEMENT_OVERHEAD + TWO_TO_32
    ensures fresh(encoder)
    ensures forall first :: encoder.State() == SaveAndRestore(Encoder(saved, first))
  {
    encoder := new CopyStreamEncoder(maxPlaintextPayloadLength);
    if |saved| > 0 {
      encoder.SetBuffer(Some(saved));
    }
    encoder.SuppressStart();
  }

  class CopyStreamDecoder {
    var buffer: seq<Byte>
    const maxElementSize: int

    constructor (maxPlaintextPayloadLength: int)
      ensures buffer == [] && maxElementSize == maxPlaintextPayloadLength
    {
      buffer := [];
      maxElementSize := maxPlaintextPayloadLength;
    }

    method AddData(data: seq<Byte>)
      modifies this
      ensures buffer == old(buffer) + data
    {
      buffer := buffer + data;
    }

    /** Takes one element off the buffer if it is complete. The length is looked
        at before anything is parsed, so an oversized claim is refused at once. */
    method NextElement(limits: Limits) returns (r: ElementStep)
      requires limits.maxElementSize == maxElementSize
      modifies this
      ensures r == DecodeAvailable(old(buffer), limits)
      ensures buffer == if r.Got? then r.rest else old(buffer)
    {
      if |buffer| < ELEMENT_OVERHEAD {
        return NeedMore;
      }
      var length := FromBigEndian(buffer[1..5]);
      var totalSize := ELEMENT_OVERHEAD + length;
      if maxElementSize > 0 && totalSize > maxElementSize {
        return TooLarge;
      }
      var parsed := ReadCopyStreamElement(buffer);
      if parsed.Malformed? {
        return NeedMore;
      }
      buffer := parsed.rest;
      return Got(parsed.value, parsed.rest);
    }
  }

  class CopyStreamEnvelopeDecoder {
    const elementDecoder: CopyStreamDecoder
    var envelopeBuffer: seq<Byte>
    var sawFinal: bool
    const maxEnvelopeSize: int

    ghost function State(): Decoder
      reads this, elementDecoder
    {
      Decoder(elementDecoder.buffer, envelopeBuffer, sawFinal)
    }

    function Bounds(): Limits
    {
      Limits(elementDecoder.maxElementSize, maxEnvelopeSize)
    }

    constructor (maxPlaintextPayloadLength: int, courierQueryWriteLength: int)
      ensures State() == FRESH_DECODER && fresh(elementDecoder)
      ensures Bounds() == Limits(maxPlaintextPayloadLength, courierQueryWriteLength)
    {
      elementDecoder := new CopyStreamDecoder(maxPlaintextPayloadLength);
      envelopeBuffer := [];
      sawFinal := false;
      maxEnvelopeSize := courierQueryWriteLength;
    }

    method AddBoxData(data: seq<Byte>)
      modifies elementDecoder
      ensures State() == old(State()).(elementBuffer := old(State()).elementBuffer + data)
    {
      elementDecoder.AddData(data);
    }

    method DecodeAll() returns (r: Decoded)
      modifies this, elementDecoder
      ensures (r, State()) == DecodeEnvelopes(old(State()), Bounds())
    {
      var oversized := TakeElements();
      if oversized {
        return Decoded([], sawFinal, Some(ElementTooLarge));
      }
      var envelopes, error := TakeEnvelopes();
      return Decoded(envelopes, sawFinal, error);
    }

    /** First loop: moves the chunks of all complete elements over. */
    method TakeElements() returns (oversized: bool)
      modifies this, elementDecoder
      ensures (State(), oversized) == DrainElements(old(State()), Bounds())
    {
      ghost var start := State();
      while true
        invariant DrainElements(start, Bounds()) == DrainElements(State(), Bounds())
        decreases |elementDecoder.buffer|
      {
        var step := elementDecoder.NextElement(Bounds());
        if step.TooLarge? {
          return true;
        }
        if step.NeedMore? {
          return false;
        }
        envelopeBuffer := envelopeBuffer + step.element.envelopeData;
        if IsFinal(step.element) {
          sawFinal := true;
        }
      }
    }

    /** Second loop: parses the complete envelopes. */
    method TakeEnvelopes() returns (envelopes: seq<CourierEnvelope>, error: Option<DecodeError>)
      modifies `envelopeBuffer
      ensures Drained(envelopes, envelopeBuffer, error) == DrainEnvelopes(old(envelopeBuffer), Bounds())
    {
      hide NextEnvelope;
      envelopes := [];
      ghost var start := envelopeBuffer;
      while true
        invariant var all := DrainEnvelopes(start, Bounds()); var rest := DrainEnvelopes(envelopeBuffer, Bounds());
          all == rest.(envelopes := envelopes + rest.envelopes)
        decreases |envelopeBuffer|
      {
        var step := TakeEnvelope();
        if step.Wait? {
          return envelopes, None;
        }
        if step.Bad? {
          return envelopes, Some(step.error);
        }
        ConcatAssoc(envelopes, [step.env], DrainEnvelopes(step.rest, Bounds()).envelopes);
        envelopes := envelopes + [step.env];
        envelopeBuffer := step.rest;
      }
    }

    /** One round of that loop. */
    method TakeEnvelope() returns (r: EnvelopeStep)
      ensures r == NextEnvelope(envelopeBuffer, Bounds())
    {
      hide ParseCourierEnvelope;
      if |envelopeBuffer| < 4 {
        return Wait;
      }
      var envelopeLen := FromBigEndian(envelopeBuffer[..4]);
      if maxEnvelopeSize > 0 && envelopeLen > maxEnvelopeSize {
        return Bad(EnvelopeTooLarge);
      }
      var totalSize := 4 + envelopeLen;
      if |envelopeBuffer| < totalSize {
        return Wait;
      }
      var parsed := ReadCourierEnvelope(envelopeBuffer[4..totalSize]);
      if parsed.Malformed? {
        return Bad(EnvelopeMalformed);
      }
      if |parsed.rest| > 0 {
        return Bad(EnvelopeHasTrailingBytes);
      }
      return Envelope(parsed.value, envelopeBuffer[totalSize..]);
    }

    method RemainingBytes() returns (n: nat)
      ensures n == Remaining(State())
    {
      n := |elementDecoder.buffer| + |envelopeBuffer|;
    }
  }
}
