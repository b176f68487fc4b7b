/** The trunnel wire messages of pigeonhole/trunnel_messages.go.

    Each message has an encoder, a parser written over a cursor and three
    theorems: parsing an encoding returns the message and whatever followed
    it, every successful parse read exactly an encoding, and every strict
    prefix of an encoding is reported as too short. XOnto(m, tail) is the
    encoding of m with tail appended; XOnto(m, []) is the encoding itself. */
module Trunnel {
  import opened Options
  import opened Bytes

  type Array2 = s: seq<Byte> | |s| == 2 witness [0, 0]
  type Array32 = s: seq<Byte> | |s| == 32 witness seq(32, _ => 0)
  type Array60 = s: seq<Byte> | |s| == 60 witness seq(60, _ => 0)
  type Array64 = s: seq<Byte> | |s| == 64 witness seq(64, _ => 0)

  datatype Reason = DataTooShort | IntegerConstraintViolated | ArrayLengthConstraintViolated

  /** What Parse returns: the value and the unread rest, or an error. */
  datatype Parse<+T> = Parsed(value: T, rest: seq<Byte>) | Malformed(reason: Reason) {
    predicate IsFailure() { Malformed? }
    function PropagateFailure<U>(): Parse<U> requires Malformed? { Malformed(reason) }
    function Extract(): (T, seq<Byte>) requires Parsed? { (value, rest) }
  }

  datatype Marshal = Marshalled(bytes: seq<Byte>) | Refused(reason: Reason)

  // ------------------------------------------------------------ field readers

  function TakeArray(cur: seq<Byte>, n: nat): (r: Parse<seq<Byte>>)
    ensures r.Parsed? ==> |r.value| == n && cur == r.value + r.rest
    ensures r.Malformed? <==> |cur| < n
    ensures r.Malformed? ==> r.reason == DataTooShort
  {
    if |cur| < n then Malformed(DataTooShort) else Parsed(cur[..n], cur[n..])
  }

  function TakeUint(cur: seq<Byte>, width: nat): (r: Parse<nat>)
    ensures r.Parsed? ==> r.value < Capacity(width) && cur == BigEndian(r.value, width) + r.rest
    ensures r.Malformed? <==> |cur| < width
    ensures r.Malformed? ==> r.reason == DataTooShort
  {
    if |cur| < width then Malformed(DataTooShort) else
      FromBigEndianBound(cur[..width]);
      BigEndianCanonical(cur[..width]);
      Parsed(FromBigEndian(cur[..width]), cur[width..])
  }

  function TakeByte(cur: seq<Byte>): (r: Parse<Byte>)
    ensures r.Parsed? ==> cur == [r.value] + r.rest
    ensures r.Malformed? ==> r.reason == DataTooShort
  {
    if |cur| < 1 then Malformed(DataTooShort) else Parsed(cur[0], cur[1..])
  }

  /** A length field of the given width followed by that many bytes. */
  function TakeVar(cur: seq<Byte>, width: nat): (r: Parse<seq<Byte>>)
    ensures r.Parsed? ==> |r.value| < Capacity(width) && cur == BigEndian(|r.value|, width) + (r.value + r.rest)
    ensures r.Malformed? ==> r.reason == DataTooShort
  {
    var (length, cur) :- TakeUint(cur, width);
    TakeArray(cur, length)
  }

  lemma TakeByteOfOnto(b: Byte, tail: seq<Byte>)
    ensures TakeByte([b] + tail) == Parsed(b, tail)
  {
  }

  lemma TakeArrayOfOnto(a: seq<Byte>, tail: seq<Byte>)
    ensures TakeArray(a + tail, |a|) == Parsed(a, tail)
  {
  }

  lemma TakeUintOfOnto(value: nat, width: nat, tail: seq<Byte>)
    requires value < Capacity(width)
    ensures TakeUint(BigEndian(value, width) + tail, width) == Parsed(value, tail)
  {
    BigEndianRoundTrip(value, width);
    assert (BigEndian(value, width) + tail)[..width] == BigEndian(value, width);
  }

  lemma TakeVarOfOnto(a: seq<Byte>, width: nat, tail: seq<Byte>)
    requires |a| < Capacity(width)
    ensures TakeVar(BigEndian(|a|, width) + (a + tail), width) == Parsed(a, tail)
  {
    TakeUintOfOnto(|a|, width, a + tail);
    TakeArrayOfOnto(a, tail);
  }

  /** The byte-at-a-time loop that the generated parsers run for every array. */
  method ReadArray(cur: seq<Byte>, n: nat) returns (r: Parse<seq<Byte>>)
    ensures r == TakeArray(cur, n)
  {
    var out: seq<Byte> := [];
    var left := cur;
    for idx := 0 to n
      invariant idx <= |cur| && out == cur[..idx] && left == cur[idx..]
    {
      if |left| < 1 {
        return Malformed(DataTooShort);
      }
      out := out + [left[0]];
      left := left[1..];
    }
    return Parsed(out, left);
  }

  /** The byte-at-a-time loop of the generated encoders. */
  method AppendArray(buf: seq<Byte>, a: seq<Byte>, n: nat) returns (out: seq<Byte>)
    requires n <= |a|
    ensures out == buf + a[..n]
  {
    out := buf;
    for idx := 0 to n
      invariant out == buf + a[..idx]
    {
      out := out + [a[idx]];
    }
  }

  // ------------------------------------------------- what a format promises

  /** parse and encode agree on the messages valid admits: parsing an encoding
      gives the message back together with everything that followed it, a
      successful parse read exactly an encoding of a valid message, and a
      strict prefix of an encoding is always reported as too short. */
  ghost predicate SelfDelimiting<T(!new)>(
    parse: seq<Byte> -> Parse<T>, encode: T -> seq<Byte>, valid: T -> bool)
  {
    && RoundTrips(parse, encode, valid)
    && Canonical(parse, encode, valid)
    && (forall m: T, k: nat :: valid(m) && k < |encode(m)| ==> parse(encode(m)[..k]) == Malformed(DataTooShort))
  }

  ghost predicate RoundTrips<T(!new)>(
    parse: seq<Byte> -> Parse<T>, encode: T -> seq<Byte>, valid: T -> bool)
  {
    forall m: T, tail: seq<Byte> :: valid(m) ==> parse(encode(m) + tail) == Parsed(m, tail)
  }

  ghost predicate Canonical<T(!new)>(
    parse: seq<Byte> -> Parse<T>, encode: T -> seq<Byte>, valid: T -> bool)
  {
    forall data: seq<Byte> :: parse(data).Parsed? ==>
      valid(parse(data).value) && data == encode(parse(data).value) + parse(data).rest
  }

  /** An error other than a short input does not go away when more bytes come. */
  ghost predicate RejectionIsFinal<T(!new)>(parse: seq<Byte> -> Parse<T>)
  {
    forall data: seq<Byte>, more: seq<Byte> ::
      parse(data).Malformed? && parse(data).reason != DataTooShort ==> parse(data + more).Malformed?
  }

  lemma SelfDelimitingFrom<T(!new)>(
    parse: seq<Byte> -> Parse<T>, encode: T -> seq<Byte>, valid: T -> bool)
    requires RoundTrips(parse, encode, valid) && Canonical(parse, encode, valid) && RejectionIsFinal(parse)
    ensures SelfDelimiting(parse, encode, valid)
  {
    forall m: T, k: nat | valid(m) && k < |encode(m)|
      ensures parse(encode(m)[..k]) == Malformed(DataTooShort)
    {
      var data := encode(m);
      ParseExtends(parse, encode, valid, data[..k], data[k..]);
      assert data[..k] + data[k..] == data == data + [];
      assert parse(data + []) == Parsed(m, []);
    }
  }

  /** More input never changes what was already parsed. */
  lemma ParseExtends<T(!new)>(
    parse: seq<Byte> -> Parse<T>, encode: T -> seq<Byte>, valid: T -> bool, data: seq<Byte>, more: seq<Byte>)
    requires RoundTrips(parse, encode, valid) && Canonical(parse, encode, valid)
    ensures parse(data).Parsed? ==> parse(data + more) == Parsed(parse(data).value, parse(data).rest + more)
  {
    var r := parse(data);
    if r.Parsed? {
      ConcatAssoc(encode(r.value), r.rest, more);
      assert data + more == encode(r.value) + (r.rest + more);
    }
  }

  lemma TakeArrayExtends(cur: seq<Byte>, n: nat, more: seq<Byte>)
    requires n <= |cur|
    ensures TakeArray(cur + more, n) == Parsed(TakeArray(cur, n).value, TakeArray(cur, n).rest + more)
  {
    assert (cur + more)[..n] == cur[..n];
    assert (cur + more)[n..] == cur[n..] + more;
  }

  lemma TakeByteExtends(cur: seq<Byte>, more: seq<Byte>)
    requires cur != []
    ensures TakeByte(cur + more) == Parsed(cur[0], cur[1..] + more)
  {
    assert (cur + more)[1..] == cur[1..] + more;
  }

  // --------------------------------------------------------- CourierEnvelope

  datatype CourierEnvelope = CourierEnvelope(
    intermediateReplicas: Array2,
    dek1: Array60,
    dek2: Array60,
    replyIndex: Byte,
    epoch: Uint64,
    senderPubkeyLen: Uint16,
    senderPubkey: seq<Byte>,
    ciphertextLen: Uint32,
    ciphertext: seq<Byte>)
  {
    predicate Valid() {
      |senderPubkey| == senderPubkeyLen && |ciphertext| == ciphertextLen
    }
  }

  function CourierEnvelopeOnto(m: CourierEnvelope, tail: seq<Byte>): seq<Byte>
  {
    m.intermediateReplicas + (m.dek1 + (m.dek2 + ([m.replyIndex] + (BigEndian(m.epoch, 8) +
      (BigEndian(m.senderPubkeyLen, 2) + (m.senderPubkey +
        (BigEndian(m.ciphertextLen, 4) + (m.ciphertext + tail))))))))
  }

  function EncodeCourierEnvelope(m: CourierEnvelope): seq<Byte>
  {
    CourierEnvelopeOnto(m, [])
  }

  function MarshalCourierEnvelope(m: CourierEnvelope): Marshal
  {
    if m.Valid() then Marshalled(EncodeCourierEnvelope(m)) else Refused(ArrayLengthConstraintViolated)
  }

  /** The fields of an envelope that follow its fixed-size head. */
  datatype EnvelopeBody = EnvelopeBody(epoch: Uint64, senderPubkey: seq<Byte>, ciphertext: seq<Byte>)
  {
    predicate Valid() { |senderPubkey| < 0x1_0000 && |ciphertext| < TWO_TO_32 }
  }

  function EnvelopeBodyOnto(b: EnvelopeBody, tail: seq<Byte>): seq<Byte>
  {
    BigEndian(b.epoch, 8) + (BigEndian(|b.senderPubkey|, 2) + (b.senderPubkey +
      (BigEndian(|b.ciphertext|, 4) + (b.ciphertext + tail))))
  }

  function ParseEnvelopeBody(data: seq<Byte>): (r: Parse<EnvelopeBody>)
    ensures r.Malformed? ==> r.reason == DataTooShort
    ensures r.Parsed? ==> r.value.Valid() && data == EnvelopeBodyOnto(r.value, r.rest)
  {
    CapacityOfWords();
    var (epoch, cur) :- TakeUint(data, 8);
    var (pubkey, cur) :- TakeVar(cur, 2);
    var (ciphertext, cur) :- TakeVar(cur, 4);
    Parsed(EnvelopeBody(epoch, pubkey, ciphertext), cur)
  }

  lemma EnvelopeBodyRoundTrip(b: EnvelopeBody, tail: seq<Byte>)
    requires b.Valid()
    ensures ParseEnvelopeBody(EnvelopeBodyOnto(b, tail)) == Parsed(b, tail)
  {
    CapacityOfWords();
    var c3 := BigEndian(|b.ciphertext|, 4) + (b.ciphertext + tail);
    TakeUintOfOnto(b.epoch, 8, BigEndian(|b.senderPubkey|, 2) + (b.senderPubkey + c3));
    TakeVarOfOnto(b.senderPubkey, 2, c3);
    TakeVarOfOnto(b.ciphertext, 4, tail);
  }

  function ParseCourierEnvelope(data: seq<Byte>): (r: Parse<CourierEnvelope>)
    ensures r.Malformed? ==> r.reason == DataTooShort
    ensures r.Parsed? ==> r.value.Valid() && data == CourierEnvelopeOnto(r.value, r.rest)
  {
    var (replicas, cur) :- TakeArray(data, 2);
    var (dek1, cur) :- TakeArray(cur, 60);
    var (dek2, cur) :- TakeArray(cur, 60);
    var (replyIndex, cur) :- TakeByte(cur);
    var (b, cur) :- ParseEnvelopeBody(cur);
    Parsed(CourierEnvelope(replicas, dek1, dek2, replyIndex, b.epoch,
                           |b.senderPubkey|, b.senderPubkey, |b.ciphertext|, b.ciphertext), cur)
  }

  lemma CourierEnvelopeRoundTrip(m: CourierEnvelope, tail: seq<Byte>)
    requires m.Valid()
    ensures ParseCourierEnvelope(CourierEnvelopeOnto(m, tail)) == Parsed(m, tail)
  {
    var b := EnvelopeBody(m.epoch, m.senderPubkey, m.ciphertext);
    var c5 := EnvelopeBodyOnto(b, tail);
    var c4 := [m.replyIndex] + c5;
    var c3 := m.dek2 + c4;
    TakeArrayOfOnto(m.intermediateReplicas, m.dek1 + c3);
    TakeArrayOfOnto(m.dek1, c3);
    TakeArrayOfOnto(m.dek2, c4);
    TakeByteOfOnto(m.replyIndex, c5);
    EnvelopeBodyRoundTrip(b, tail);
  }

  lemma CourierEnvelopeOntoIsAppend(m: CourierEnvelope, tail: seq<Byte>)
    ensures CourierEnvelopeOnto(m, tail) == EncodeCourierEnvelope(m) + tail
  {
  }

  lemma CourierEnvelopeFormat()
    ensures SelfDelimiting(ParseCourierEnvelope, EncodeCourierEnvelope, (m: CourierEnvelope) => m.Valid())
  {
    var valid := (m: CourierEnvelope) => m.Valid();
    forall m: CourierEnvelope, tail | valid(m)
      ensures ParseCourierEnvelope(EncodeCourierEnvelope(m) + tail) == Parsed(m, tail)
    {
      CourierEnvelopeRoundTrip(m, tail);
      CourierEnvelopeOntoIsAppend(m, tail);
    }
    forall data | ParseCourierEnvelope(data).Parsed?
      ensures var r := ParseCourierEnvelope(data); valid(r.value) && data == EncodeCourierEnvelope(r.value) + r.rest
    {
      var r := ParseCourierEnvelope(data);
      CourierEnvelopeOntoIsAppend(r.value, r.rest);
    }
    SelfDelimitingFrom(ParseCourierEnvelope, EncodeCourierEnvelope, valid);
  }

  method ReadCourierEnvelope(data: seq<Byte>) returns (r: Parse<CourierEnvelope>)
    ensures r == ParseCourierEnvelope(data)
  {
    CapacityOfWords();
    var replicas :- ReadArray(data, 2);
    var dek1 :- ReadArray(replicas.1, 60);
    var dek2 :- ReadArray(dek1.1, 60);
    var replyIndex :- TakeByte(dek2.1);
    var epoch :- TakeUint(replyIndex.1, 8);
    var pubkeyLen :- TakeUint(epoch.1, 2);
    var pubkey :- ReadArray(pubkeyLen.1, pubkeyLen.0);
    var ciphertextLen :- TakeUint(pubkey.1, 4);
    var ciphertext :- ReadArray(ciphertextLen.1, ciphertextLen.0);
    r := Parsed(CourierEnvelope(replicas.0, dek1.0, dek2.0, replyIndex.0, epoch.0, pubkeyLen.0, pubkey.0,
                                ciphertextLen.0, ciphertext.0), ciphertext.1);
  }

  method WriteCourierEnvelope(m: CourierEnvelope) returns (r: Marshal)
    ensures r == MarshalCourierEnvelope(m)
  {
    if |m.senderPubkey| != m.senderPubkeyLen || |m.ciphertext| != m.ciphertextLen {
      return Refused(ArrayLengthConstraintViolated);
    }
    ghost var c8 := BigEndian(m.ciphertextLen, 4) + (m.ciphertext + []);
    ghost var c6 := BigEndian(m.senderPubkeyLen, 2) + (m.senderPubkey + c8);
    ghost var c4 := [m.replyIndex] + (BigEndian(m.epoch, 8) + c6);
    var buf := AppendArray([], m.intermediateReplicas, 2);
    buf := AppendArray(buf, m.dek1, 60);
    buf := AppendArray(buf, m.dek2, 60);
    assert EncodeCourierEnvelope(m) == buf + c4;
    buf := buf + [m.replyIndex];
    buf := buf + BigEndian(m.epoch, 8);
    assert EncodeCourierEnvelope(m) == buf + c6;
    buf := buf + BigEndian(m.senderPubkeyLen, 2);
    buf := AppendArray(buf, m.senderPubkey, m.senderPubkeyLen);
    assert EncodeCourierEnvelope(m) == buf + c8;
    buf := buf + BigEndian(m.ciphertextLen, 4);
    buf := AppendArray(buf, m.ciphertext, m.ciphertextLen);
    r := Marshalled(buf);
  }

  // ---------------------------------------------------- CourierEnvelopeReply

  datatype CourierEnvelopeReply = CourierEnvelopeReply(
    envelopeHash: Array32,
    replyIndex: Byte,
    replyType: Byte,
    payloadLen: Uint32,
    payload: seq<Byte>,
    errorCode: Byte)
  {
    predicate Valid() {
      replyType <= 1 && |payload| == payloadLen
    }
  }

  function CourierEnvelopeReplyOnto(m: CourierEnvelopeReply, tail: seq<Byte>): seq<Byte>
  {
    m.envelopeHash + ([m.replyIndex] + ([m.replyType] +
      (BigEndian(m.payloadLen, 4) + (m.payload + ([m.errorCode] + tail)))))
  }

  function EncodeCourierEnvelopeReply(m: CourierEnvelopeReply): seq<Byte>
  {
    CourierEnvelopeReplyOnto(m, [])
  }

  function ParseCourierEnvelopeReply(data: seq<Byte>): (r: Parse<CourierEnvelopeReply>)
    ensures r.Malformed? ==> r.reason != ArrayLengthConstraintViolated
    ensures r.Parsed? ==> r.value.Valid() && data == CourierEnvelopeReplyOnto(r.value, r.rest)
  {
    CapacityOfWords();
    var (envelopeHash, cur) :- TakeArray(data, 32);
    var (replyIndex, cur) :- TakeByte(cur);
    var (replyType, cur) :- TakeByte(cur);
    if !(replyType == 0 || replyType == 1) then Malformed(IntegerConstraintViolated) else
      var (payload, cur) :- TakeVar(cur, 4);
      var (errorCode, cur) :- TakeByte(cur);
      Parsed(CourierEnvelopeReply(envelopeHash, replyIndex, replyType, |payload|, payload, errorCode), cur)
  }

  lemma CourierEnvelopeReplyRoundTrip(m: CourierEnvelopeReply, tail: seq<Byte>)
    requires m.Valid()
    ensures ParseCourierEnvelopeReply(CourierEnvelopeReplyOnto(m, tail)) == Parsed(m, tail)
  {
    CapacityOfWords();
    var c5 := [m.errorCode] + tail;
    var c3 := BigEndian(m.payloadLen, 4) + (m.payload + c5);
    var c2 := [m.replyType] + c3;
    TakeArrayOfOnto(m.envelopeHash, [m.replyIndex] + c2);
    TakeByteOfOnto(m.replyIndex, c2);
    TakeByteOfOnto(m.replyType, c3);
    TakeVarOfOnto(m.payload, 4, c5);
    TakeByteOfOnto(m.errorCode, tail);
  }

  lemma CourierEnvelopeReplyOntoIsAppend(m: CourierEnvelopeReply, tail: seq<Byte>)
    ensures CourierEnvelopeReplyOnto(m, tail) == EncodeCourierEnvelopeReply(m) + tail
  {
  }

  lemma CourierEnvelopeReplyFormat()
    ensures SelfDelimiting(ParseCourierEnvelopeReply, EncodeCourierEnvelopeReply, (m: CourierEnvelopeReply) => m.Valid())
  {
    var valid := (m: CourierEnvelopeReply) => m.Valid();
    forall m: CourierEnvelopeReply, tail | valid(m)
      ensures ParseCourierEnvelopeReply(EncodeCourierEnvelopeReply(m) + tail) == Parsed(m, tail)
    {
      CourierEnvelopeReplyRoundTrip(m, tail);
      CourierEnvelopeReplyOntoIsAppend(m, tail);
    }
    forall data | ParseCourierEnvelopeReply(data).Parsed?
      ensures var r := ParseCourierEnvelopeReply(data); valid(r.value) && data == EncodeCourierEnvelopeReply(r.value) + r.rest
    {
      var r := ParseCourierEnvelopeReply(data);
      CourierEnvelopeReplyOntoIsAppend(r.value, r.rest);
    }
    forall data, more | ParseCourierEnvelopeReply(data) == Malformed(IntegerConstraintViolated)
      ensures ParseCourierEnvelopeReply(data + more).Malformed?
    {
      CourierEnvelopeReplyRejectionIsFinal(data, more);
    }
    SelfDelimitingFrom(ParseCourierEnvelopeReply, EncodeCourierEnvelopeReply, valid);
  }

  lemma CourierEnvelopeReplyRejectionIsFinal(data: seq<Byte>, more: seq<Byte>)
    requires ParseCourierEnvelopeReply(data) == Malformed(IntegerConstraintViolated)
    ensures ParseCourierEnvelopeReply(data + more) == Malformed(IntegerConstraintViolated)
  {
    TakeArrayExtends(data, 32, more);
    var cur := TakeArray(data, 32).rest;
    TakeByteExtends(cur, more);
    TakeByteExtends(TakeByte(cur).rest, more);
  }

  method ReadCourierEnvelopeReply(data: seq<Byte>) returns (r: Parse<CourierEnvelopeReply>)
    ensures r == ParseCourierEnvelopeReply(data)
  {
    CapacityOfWords();
    var envelopeHash :- ReadArray(data, 32);
    var replyIndex :- TakeByte(envelopeHash.1);
    var replyType :- TakeByte(replyIndex.1);
    if !(replyType.0 == 0 || replyType.0 == 1) {
      return Malformed(IntegerConstraintViolated);
    }
    var payloadLen :- TakeUint(replyType.1, 4);
    var payload :- ReadArray(payloadLen.1, payloadLen.0);
    var errorCode :- TakeByte(payload.1);
    r := Parsed(CourierEnvelopeReply(envelopeHash.0, replyIndex.0, replyType.0, payloadLen.0, payload.0, errorCode.0),
                errorCode.1);
  }

  // -------------------------------------------------------------- CopyCommand

  datatype CopyCommand = CopyCommand(writeCapLen: Uint32, writeCap: seq<Byte>)
  {
    predicate Valid() { |writeCap| == writeCapLen }
  }

  function CopyCommandOnto(m: CopyCommand, tail: seq<Byte>): seq<Byte>
  {
    BigEndian(m.writeCapLen, 4) + (m.writeCap + tail)
  }

  function EncodeCopyCommand(m: CopyCommand): seq<Byte>
  {
    CopyCommandOnto(m, [])
  }

  function ParseCopyCommand(data: seq<Byte>): (r: Parse<CopyCommand>)
    ensures r.Malformed? ==> r.reason == DataTooShort
    ensures r.Parsed? ==> r.value.Valid() && data == CopyCommandOnto(r.value, r.rest)
  {
    CapacityOfWords();
    var (writeCap, cur) :- TakeVar(data, 4);
    Parsed(CopyCommand(|writeCap|, writeCap), cur)
  }

  lemma CopyCommandRoundTrip(m: CopyCommand, tail: seq<Byte>)
    requires m.Valid()
    ensures ParseCopyCommand(CopyCommandOnto(m, tail)) == Parsed(m, tail)
  {
    CapacityOfWords();
    TakeVarOfOnto(m.writeCap, 4, tail);
  }

  lemma CopyCommandOntoIsAppend(m: CopyCommand, tail: seq<Byte>)
    ensures CopyCommandOnto(m, tail) == EncodeCopyCommand(m) + tail
  {
  }

  lemma CopyCommandFormat()
    ensures SelfDelimiting(ParseCopyCommand, EncodeCopyCommand, (m: CopyCommand) => m.Valid())
  {
    var valid := (m: CopyCommand) => m.Valid();
    forall m: CopyCommand, tail | valid(m)
      ensures ParseCopyCommand(EncodeCopyCommand(m) + tail) == Parsed(m, tail)
    {
      CopyCommandRoundTrip(m, tail);
      CopyCommandOntoIsAppend(m, tail);
    }
    forall data | ParseCopyCommand(data).Parsed?
      ensures var r := ParseCopyCommand(data); valid(r.value) && data == EncodeCopyCommand(r.value) + r.rest
    {
      var r := ParseCopyCommand(data);
      CopyCommandOntoIsAppend(r.value, r.rest);
    }
    SelfDelimitingFrom(ParseCopyCommand, EncodeCopyCommand, valid);
  }

  method ReadCopyCommand(data: seq<Byte>) returns (r: Parse<CopyCommand>)
    ensures r == ParseCopyCommand(data)
  {
    CapacityOfWords();
    var writeCapLen :- TakeUint(data, 4);
    var writeCap :- ReadArray(writeCapLen.1, writeCapLen.0);
    r := Parsed(CopyCommand(writeCapLen.0, writeCap.0), writeCap.1);
  }

  // ------------------------------------------------------------- CourierQuery

  /** A tagged union: queryType selects which of the two pointers is sent. */
  datatype CourierQuery = CourierQuery(
    queryType: Byte, envelope: Option<CourierEnvelope>, copyCommand: Option<CopyCommand>)
  {
    /** What validate() accepts: a nil selected arm passes. */
    predicate Valid() {
      && queryType <= 1
      && (queryType == 0 && envelope.Some? ==> envelope.value.Valid())
      && (queryType == 1 && copyCommand.Some? ==> copyCommand.value.Valid())
    }

    /** The selected arm is present and the other one is not. */
    predicate Complete() {
      Valid() && envelope.Some? == (queryType == 0) && copyCommand.Some? == (queryType == 1)
    }
  }

  function CourierQueryOnto(m: CourierQuery, tail: seq<Byte>): seq<Byte>
  {
    [m.queryType] +
    if m.queryType == 0 && m.envelope.Some? then CourierEnvelopeOnto(m.envelope.value, tail)
    else if m.queryType == 1 && m.copyCommand.Some? then CopyCommandOnto(m.copyCommand.value, tail)
    else tail
  }

  function EncodeCourierQuery(m: CourierQuery): seq<Byte>
  {
    CourierQueryOnto(m, [])
  }

  function ParseCourierQuery(data: seq<Byte>): (r: Parse<CourierQuery>)
    ensures r.Malformed? ==> r.reason != ArrayLengthConstraintViolated
    ensures r.Parsed? ==> r.value.Complete() && data == CourierQueryOnto(r.value, r.rest)
  {
    var (queryType, cur) :- TakeByte(data);
    if queryType == 0 then
      var (envelope, cur) :- ParseCourierEnvelope(cur);
      Parsed(CourierQuery(0, Some(envelope), None), cur)
    else if queryType == 1 then
      var (copyCommand, cur) :- ParseCopyCommand(cur);
      Parsed(CourierQuery(1, None, Some(copyCommand)), cur)
    else Malformed(IntegerConstraintViolated)
  }

  lemma CourierQueryRoundTrip(m: CourierQuery, tail: seq<Byte>)
    requires m.Complete()
    ensures ParseCourierQuery(CourierQueryOnto(m, tail)) == Parsed(m, tail)
  {
    TakeByteOfOnto(m.queryType, CourierQueryOnto(m, tail)[1..]);
    if m.queryType == 0 {
      CourierEnvelopeRoundTrip(m.envelope.value, tail);
    } else {
      CopyCommandRoundTrip(m.copyCommand.value, tail);
    }
  }

  /** A query that marshals reads back as itself exactly when it is complete:
      a nil selected arm is encoded as a lone type byte, and a pointer in the
      other arm is dropped. */
  lemma CourierQueryReadsBackIffComplete(m: CourierQuery)
    requires m.Valid()
    ensures ParseCourierQuery(EncodeCourierQuery(m)) == Parsed(m, []) <==> m.Complete()
  {
    if m.Complete() {
      CourierQueryRoundTrip(m, []);
    }
  }

  lemma CourierQueryOntoIsAppend(m: CourierQuery, tail: seq<Byte>)
    ensures CourierQueryOnto(m, tail) == EncodeCourierQuery(m) + tail
  {
    if m.queryType == 0 && m.envelope.Some? {
      CourierEnvelopeOntoIsAppend(m.envelope.value, tail);
    } else if m.queryType == 1 && m.copyCommand.Some? {
      CopyCommandOntoIsAppend(m.copyCommand.value, tail);
    }
  }

  lemma CourierQueryFormat()
    ensures SelfDelimiting(ParseCourierQuery, EncodeCourierQuery, (m: CourierQuery) => m.Complete())
  {
    var valid := (m: CourierQuery) => m.Complete();
    forall m: CourierQuery, tail | valid(m)
      ensures ParseCourierQuery(EncodeCourierQuery(m) + tail) == Parsed(m, tail)
    {
      CourierQueryRoundTrip(m, tail);
      CourierQueryOntoIsAppend(m, tail);
    }
    forall data | ParseCourierQuery(data).Parsed?
      ensures var r := ParseCourierQuery(data); valid(r.value) && data == EncodeCourierQuery(r.value) + r.rest
    {
      var r := ParseCourierQuery(data);
      CourierQueryOntoIsAppend(r.value, r.rest);
    }
    forall data, more | ParseCourierQuery(data) == Malformed(IntegerConstraintViolated)
      ensures ParseCourierQuery(data + more).Malformed?
    {
      CourierQueryRejectionIsFinal(data, more);
    }
    hide ParseCourierQuery, EncodeCourierQuery;
    SelfDelimitingFrom(ParseCourierQuery, EncodeCourierQuery, valid);
  }

  lemma CourierQueryRejectionIsFinal(data: seq<Byte>, more: seq<Byte>)
    requires ParseCourierQuery(data) == Malformed(IntegerConstraintViolated)
    ensures ParseCourierQuery(data + more).Malformed?
  {
    TakeByteExtends(data, more);
  }

  method ReadCourierQuery(data: seq<Byte>) returns (r: Parse<CourierQuery>)
    ensures r == ParseCourierQuery(data)
  {
    var queryType :- TakeByte(data);
    if !(queryType.0 == 0 || queryType.0 == 1) {
      return Malformed(IntegerConstraintViolated);
    }
    if queryType.0 == 0 {
      var envelope :- ReadCourierEnvelope(queryType.1);
      return Parsed(CourierQuery(0, Some(envelope.0), None), envelope.1);
    }
    var copyCommand :- ReadCopyCommand(queryType.1);
    return Parsed(CourierQuery(1, None, Some(copyCommand.0)), copyCommand.1);
  }

  // ------------------------------------------------- ReplicaRead, ReplicaWrite

  datatype ReplicaRead = ReplicaRead(boxID: Array32)

  datatype ReplicaWrite = ReplicaWrite(boxID: Array32, signature: Array64, payloadLen: Uint32, payload: seq<Byte>)
  {
    predicate Valid() { |payload| == payloadLen }
  }

  function ParseReplicaRead(data: seq<Byte>): (r: Parse<ReplicaRead>)
    ensures r.Malformed? ==> r.reason == DataTooShort
    ensures r.Parsed? ==> data == r.value.boxID + r.rest
  {
    var (boxID, cur) :- TakeArray(data, 32);
    Parsed(ReplicaRead(boxID), cur)
  }

  function ReplicaWriteOnto(m: ReplicaWrite, tail: seq<Byte>): seq<Byte>
  {
    m.boxID + (m.signature + (BigEndian(m.payloadLen, 4) + (m.payload + tail)))
  }

  function EncodeReplicaWrite(m: ReplicaWrite): seq<Byte>
  {
    ReplicaWriteOnto(m, [])
  }

  function ParseReplicaWrite(data: seq<Byte>): (r: Parse<ReplicaWrite>)
    ensures r.Malformed? ==> r.reason == DataTooShort
    ensures r.Parsed? ==> r.value.Valid() && data == ReplicaWriteOnto(r.value, r.rest)
  {
    CapacityOfWords();
    var (boxID, cur) :- TakeArray(data, 32);
    var (signature, cur) :- TakeArray(cur, 64);
    var (payload, cur) :- TakeVar(cur, 4);
    Parsed(ReplicaWrite(boxID, signature, |payload|, payload), cur)
  }

  lemma ReplicaWriteRoundTrip(m: ReplicaWrite, tail: seq<Byte>)
    requires m.Valid()
    ensures ParseReplicaWrite(ReplicaWriteOnto(m, tail)) == Parsed(m, tail)
  {
    CapacityOfWords();
    var c3 := BigEndian(m.payloadLen, 4) + (m.payload + tail);
    TakeArrayOfOnto(m.boxID, m.signature + c3);
    TakeArrayOfOnto(m.signature, c3);
    TakeVarOfOnto(m.payload, 4, tail);
  }

  lemma ReplicaWriteOntoIsAppend(m: ReplicaWrite, tail: seq<Byte>)
    ensures ReplicaWriteOnto(m, tail) == EncodeReplicaWrite(m) + tail
  {
  }

  lemma ReplicaWriteFormat()
    ensures SelfDelimiting(ParseReplicaWrite, EncodeReplicaWrite, (m: ReplicaWrite) => m.Valid())
  {
    var valid := (m: ReplicaWrite) => m.Valid();
    forall m: ReplicaWrite, tail | valid(m)
      ensures ParseReplicaWrite(EncodeReplicaWrite(m) + tail) == Parsed(m, tail)
    {
      ReplicaWriteRoundTrip(m, tail);
      ReplicaWriteOntoIsAppend(m, tail);
    }
    forall data | ParseReplicaWrite(data).Parsed?
      ensures var r := ParseReplicaWrite(data); valid(r.value) && data == EncodeReplicaWrite(r.value) + r.rest
    {
      var r := ParseReplicaWrite(data);
      ReplicaWriteOntoIsAppend(r.value, r.rest);
    }
    SelfDelimitingFrom(ParseReplicaWrite, EncodeReplicaWrite, valid);
  }

  method ReadReplicaWrite(data: seq<Byte>) returns (r: Parse<ReplicaWrite>)
    ensures r == ParseReplicaWrite(data)
  {
    CapacityOfWords();
    var boxID :- ReadArray(data, 32);
    var signature :- ReadArray(boxID.1, 64);
    var payloadLen :- TakeUint(signature.1, 4);
    var payload :- ReadArray(payloadLen.1, payloadLen.0);
    r := Parsed(ReplicaWrite(boxID.0, signature.0, payloadLen.0, payload.0), payload.1);
  }

  // ----------------------------------------------------- ReplicaInnerMessage

  datatype ReplicaInnerMessage = ReplicaInnerMessage(
    messageType: Byte, readMsg: Option<ReplicaRead>, writeMsg: Option<ReplicaWrite>)
  {
    predicate Valid() {
      messageType <= 1 && (messageType == 1 && writeMsg.Some? ==> writeMsg.value.Valid())
    }

    predicate Complete() {
      Valid() && readMsg.Some? == (messageType == 0) && writeMsg.Some? == (messageType == 1)
    }
  }

  function ReplicaInnerMessageOnto(m: ReplicaInnerMessage, tail: seq<Byte>): seq<Byte>
  {
    [m.messageType] +
    if m.messageType == 0 && m.readMsg.Some? then m.readMsg.value.boxID + tail
    else if m.messageType == 1 && m.writeMsg.Some? then ReplicaWriteOnto(m.writeMsg.value, tail)
    else tail
  }

  function EncodeReplicaInnerMessage(m: ReplicaInnerMessage): seq<Byte>
  {
    ReplicaInnerMessageOnto(m, [])
  }

  function ParseReplicaInnerMessage(data: seq<Byte>): (r: Parse<ReplicaInnerMessage>)
    ensures r.Malformed? ==> r.reason != ArrayLengthConstraintViolated
    ensures r.Parsed? ==> r.value.Complete() && data == ReplicaInnerMessageOnto(r.value, r.rest)
  {
    var (messageType, cur) :- TakeByte(data);
    if messageType == 0 then
      var (readMsg, cur) :- ParseReplicaRead(cur);
      Parsed(ReplicaInnerMessage(0, Some(readMsg), None), cur)
    else if messageType == 1 then
      var (writeMsg, cur) :- ParseReplicaWrite(cur);
      Parsed(ReplicaInnerMessage(1, None, Some(writeMsg)), cur)
    else Malformed(IntegerConstraintViolated)
  }

  lemma ReplicaInnerMessageRoundTrip(m: ReplicaInnerMessage, tail: seq<Byte>)
    requires m.Complete()
    ensures ParseReplicaInnerMessage(ReplicaInnerMessageOnto(m, tail)) == Parsed(m, tail)
  {
    TakeByteOfOnto(m.messageType, ReplicaInnerMessageOnto(m, tail)[1..]);
    if m.messageType == 0 {
      TakeArrayOfOnto(m.readMsg.value.boxID, tail);
    } else {
      ReplicaWriteRoundTrip(m.writeMsg.value, tail);
    }
  }

  lemma ReplicaInnerMessageOntoIsAppend(m: ReplicaInnerMessage, tail: seq<Byte>)
    ensures ReplicaInnerMessageOnto(m, tail) == EncodeReplicaInnerMessage(m) + tail
  {
    if m.messageType == 1 && m.writeMsg.Some? {
      ReplicaWriteOntoIsAppend(m.writeMsg.value, tail);
    }
  }

  lemma ReplicaInnerMessageFormat()
    ensures SelfDelimiting(ParseReplicaInnerMessage, EncodeReplicaInnerMessage, (m: ReplicaInnerMessage) => m.Complete())
  {
    var valid := (m: ReplicaInnerMessage) => m.Complete();
    forall m: ReplicaInnerMessage, tail | valid(m)
      ensures ParseReplicaInnerMessage(EncodeReplicaInnerMessage(m) + tail) == Parsed(m, tail)
    {
      ReplicaInnerMessageRoundTrip(m, tail);
      ReplicaInnerMessageOntoIsAppend(m, tail);
    }
    forall data | ParseReplicaInnerMessage(data).Parsed?
      ensures var r := ParseReplicaInnerMessage(data); valid(r.value) && data == EncodeReplicaInnerMessage(r.value) + r.rest
    {
      var r := ParseReplicaInnerMessage(data);
      ReplicaInnerMessageOntoIsAppend(r.value, r.rest);
    }
    forall data, more | ParseReplicaInnerMessage(data) == Malformed(IntegerConstraintViolated)
      ensures ParseReplicaInnerMessage(data + more).Malformed?
    {
      TakeByteExtends(data, more);
    }
    SelfDelimitingFrom(ParseReplicaInnerMessage, EncodeReplicaInnerMessage, valid);
  }

  method ReadReplicaInnerMessage(data: seq<Byte>) returns (r: Parse<ReplicaInnerMessage>)
    ensures r == ParseReplicaInnerMessage(data)
  {
    var messageType :- TakeByte(data);
    if !(messageType.0 == 0 || messageType.0 == 1) {
      return Malformed(IntegerConstraintViolated);
    }
    if messageType.0 == 0 {
      var boxID :- ReadArray(messageType.1, 32);
      return Parsed(ReplicaInnerMessage(0, Some(ReplicaRead(boxID.0)), None), boxID.1);
    }
    var writeMsg :- ReadReplicaWrite(messageType.1);
    return Parsed(ReplicaInnerMessage(1, None, Some(writeMsg.0)), writeMsg.1);
  }

  // ---------------------------------------------------------------------- Box

  datatype Box = Box(boxID: Array32, payloadLen: Uint32, payload: seq<Byte>, signature: Array64)
  {
    predicate Valid() { |payload| == payloadLen }
  }

  function BoxOnto(m: Box, tail: seq<Byte>): seq<Byte>
  {
    m.boxID + (BigEndian(m.payloadLen, 4) + (m.payload + (m.signature + tail)))
  }

  function EncodeBox(m: Box): seq<Byte>
  {
    BoxOnto(m, [])
  }

  function ParseBox(data: seq<Byte>): (r: Parse<Box>)
    ensures r.Malformed? ==> r.reason == DataTooShort
    ensures r.Parsed? ==> r.value.Valid() && data == BoxOnto(r.value, r.rest)
  {
    CapacityOfWords();
    var (boxID, cur) :- TakeArray(data, 32);
    var (payload, cur) :- TakeVar(cur, 4);
    var (signature, cur) :- TakeArray(cur, 64);
    Parsed(Box(boxID, |payload|, payload, signature), cur)
  }

  lemma BoxRoundTrip(m: Box, tail: seq<Byte>)
    requires m.Valid()
    ensures ParseBox(BoxOnto(m, tail)) == Parsed(m, tail)
  {
    CapacityOfWords();
    var c4 := m.signature + tail;
    TakeArrayOfOnto(m.boxID, BigEndian(m.payloadLen, 4) + (m.payload + c4));
    TakeVarOfOnto(m.payload, 4, c4);
    TakeArrayOfOnto(m.signature, tail);
  }

  lemma BoxOntoIsAppend(m: Box, tail: seq<Byte>)
    ensures BoxOnto(m, tail) == EncodeBox(m) + tail
  {
  }

  lemma BoxFormat()
    ensures SelfDelimiting(ParseBox, EncodeBox, (m: Box) => m.Valid())
  {
    var valid := (m: Box) => m.Valid();
    forall m: Box, tail | valid(m)
      ensures ParseBox(EncodeBox(m) + tail) == Parsed(m, tail)
    {
      BoxRoundTrip(m, tail);
      BoxOntoIsAppend(m, tail);
    }
    forall data | ParseBox(data).Parsed?
      ensures var r := ParseBox(data); valid(r.value) && data == EncodeBox(r.value) + r.rest
    {
      var r := ParseBox(data);
      BoxOntoIsAppend(r.value, r.rest);
    }
    SelfDelimitingFrom(ParseBox, EncodeBox, valid);
  }

  method ReadBox(data: seq<Byte>) returns (r: Parse<Box>)
    ensures r == ParseBox(data)
  {
    CapacityOfWords();
    var boxID :- ReadArray(data, 32);
    var payloadLen :- TakeUint(boxID.1, 4);
    var payload :- ReadArray(payloadLen.1, payloadLen.0);
    var signature :- ReadArray(payload.1, 64);
    r := Parsed(Box(boxID.0, payloadLen.0, payload.0, signature.0), signature.1);
  }

  // ------------------------------------------------------- CopyStreamElement

  datatype CopyStreamElement = CopyStreamElement(flags: Byte, envelopeLen: Uint32, envelopeData: seq<Byte>)
  {
    predicate Valid() { |envelopeData| == envelopeLen }
  }

  function CopyStreamElementOnto(m: CopyStreamElement, tail: seq<Byte>): seq<Byte>
  {
    [m.flags] + (BigEndian(m.envelopeLen, 4) + (m.envelopeData + tail))
  }

  function EncodeCopyStreamElement(m: CopyStreamElement): seq<Byte>
  {
    CopyStreamElementOnto(m, [])
  }

  function ParseCopyStreamElement(data: seq<Byte>): (r: Parse<CopyStreamElement>)
    ensures r.Malformed? ==> r.reason == DataTooShort
    ensures r.Parsed? ==> r.value.Valid() && data == CopyStreamElementOnto(r.value, r.rest)
  {
    CapacityOfWords();
    var (flags, cur) :- TakeByte(data);
    var (envelopeData, cur) :- TakeVar(cur, 4);
    Parsed(CopyStreamElement(flags, |envelopeData|, envelopeData), cur)
  }

  lemma CopyStreamElementRoundTrip(m: CopyStreamElement, tail: seq<Byte>)
    requires m.Valid()
    ensures ParseCopyStreamElement(CopyStreamElementOnto(m, tail)) == Parsed(m, tail)
  {
    CapacityOfWords();
    TakeByteOfOnto(m.flags, BigEndian(m.envelopeLen, 4) + (m.envelopeData + tail));
    TakeVarOfOnto(m.envelopeData, 4, tail);
  }

  lemma CopyStreamElementOntoIsAppend(m: CopyStreamElement, tail: seq<Byte>)
    ensures CopyStreamElementOnto(m, tail) == EncodeCopyStreamElement(m) + tail
  {
  }

  lemma CopyStreamElementFormat()
    ensures SelfDelimiting(ParseCopyStreamElement, EncodeCopyStreamElement, (m: CopyStreamElement) => m.Valid())
  {
    var valid := (m: CopyStreamElement) => m.Valid();
    forall m: CopyStreamElement, tail | valid(m)
      ensures ParseCopyStreamElement(EncodeCopyStreamElement(m) + tail) == Parsed(m, tail)
    {
      CopyStreamElementRoundTrip(m, tail);
      CopyStreamElementOntoIsAppend(m, tail);
    }
    forall data | ParseCopyStreamElement(data).Parsed?
      ensures var r := ParseCopyStreamElement(data); valid(r.value) && data == EncodeCopyStreamElement(r.value) + r.rest
    {
      var r := ParseCopyStreamElement(data);
      CopyStreamElementOntoIsAppend(r.value, r.rest);
    }
    SelfDelimitingFrom(ParseCopyStreamElement, EncodeCopyStreamElement, valid);
  }

  method ReadCopyStreamElement(data: seq<Byte>) returns (r: Parse<CopyStreamElement>)
    ensures r == ParseCopyStreamElement(data)
  {
    CapacityOfWords();
    var flags :- TakeByte(data);
    var envelopeLen :- TakeUint(flags.1, 4);
    var envelopeData :- ReadArray(envelopeLen.1, envelopeLen.0);
    r := Parsed(CopyStreamElement(flags.0, envelopeLen.0, envelopeData.0), envelopeData.1);
  }
}
