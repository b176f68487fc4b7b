/** Where each field of the trunnel messages stands on the wire, as byte offsets
    (pigeonhole/pigeonhole_messages.trunnel, pigeonhole/trunnel_messages.go). Each
    lemma reads the fields of a parsed message off the bytes; with the round trips
    of Trunnel this fixes the encoders as well. */
module TrunnelLayout {
  import opened Options
  import opened Bytes
  import opened Trunnel

  /** The number that n bytes at the offset spell, most significant first. */
  function Number(data: seq<Byte>, at: nat, n: nat): nat
    requires at + n <= |data|
  {
    FromBigEndian(data[at..at + n])
  }

  /** The bytes from the offset on are a field and what follows it. */
  lemma Field(data: seq<Byte>, at: nat, field: seq<Byte>, after: seq<Byte>)
    requires at <= |data| && data[at..] == field + after
    ensures at + |field| <= |data| && data[at..at + |field|] == field && data[at + |field|..] == after
  {
    assert data[at..][..|field|] == field && data[at..][|field|..] == after;
  }

  lemma NumberField(data: seq<Byte>, at: nat, value: nat, width: nat, after: seq<Byte>)
    requires at <= |data| && data[at..] == BigEndian(value, width) + after && value < Capacity(width)
    ensures at + width <= |data| && Number(data, at, width) == value && data[at + width..] == after
  {
    Field(data, at, BigEndian(value, width), after);
    BigEndianRoundTrip(value, width);
  }

  lemma ByteField(data: seq<Byte>, at: nat, value: Byte, after: seq<Byte>)
    requires at <= |data| && data[at..] == [value] + after
    ensures at + 1 <= |data| && data[at] == value && data[at + 1..] == after
  {
    Field(data, at, [value], after);
    assert data[at..][0] == value;
  }

  /** A length and that many bytes. */
  lemma VarField(data: seq<Byte>, at: nat, field: seq<Byte>, width: nat, after: seq<Byte>)
    requires at <= |data| && data[at..] == BigEndian(|field|, width) + (field + after) && |field| < Capacity(width)
    ensures var end := at + width + |field|;
            && end <= |data| && Number(data, at, width) == |field|
            && data[at + width..end] == field && data[end..] == after
  {
    NumberField(data, at, |field|, width, field + after);
    Field(data, at + width, field, after);
  }

  lemma EnvelopeBodyLayout(data: seq<Byte>, b: EnvelopeBody, rest: seq<Byte>)
    requires 123 <= |data| && b.Valid() && data[123..] == EnvelopeBodyOnto(b, rest)
    ensures var p, c := |b.senderPubkey|, |b.ciphertext|;
            && 137 + p + c <= |data|
            && b.epoch == Number(data, 123, 8)
            && p == Number(data, 131, 2)
            && b.senderPubkey == data[133..133 + p]
            && c == Number(data, 133 + p, 4)
            && b.ciphertext == data[137 + p..137 + p + c]
            && rest == data[137 + p + c..]
  {
    CapacityOfWords();
    var p, c := |b.senderPubkey|, |b.ciphertext|;
    var c4 := BigEndian(c, 4) + (b.ciphertext + rest);
    hide BigEndian, Number;
    NumberField(data, 123, b.epoch, 8, BigEndian(p, 2) + (b.senderPubkey + c4));
    VarField(data, 131, b.senderPubkey, 2, c4);
    VarField(data, 133 + p, b.ciphertext, 4, rest);
  }

  lemma EnvelopeHeadLayout(data: seq<Byte>, m: CourierEnvelope, body: seq<Byte>)
    requires data == m.intermediateReplicas + (m.dek1 + (m.dek2 + ([m.replyIndex] + body)))
    ensures |data| >= 123 && m.intermediateReplicas == data[0..2] && m.dek1 == data[2..62]
    ensures m.dek2 == data[62..122] && m.replyIndex == data[122] && data[123..] == body
  {
    assert data[0..] == data;
    Field(data, 0, m.intermediateReplicas, m.dek1 + (m.dek2 + ([m.replyIndex] + body)));
    Field(data, 2, m.dek1, m.dek2 + ([m.replyIndex] + body));
    Field(data, 62, m.dek2, [m.replyIndex] + body);
    ByteField(data, 122, m.replyIndex, body);
  }

  /** The fixed head of an envelope: the two replicas, their keys in the same order and
      the reply index. */
  lemma CourierEnvelopeHeadLayout(data: seq<Byte>)
    requires ParseCourierEnvelope(data).Parsed?
    ensures var m := ParseCourierEnvelope(data).value;
            && |data| >= 123 && m.intermediateReplicas == data[0..2] && m.dek1 == data[2..62]
            && m.dek2 == data[62..122] && m.replyIndex == data[122]
  {
    var r := ParseCourierEnvelope(data);
    var b := EnvelopeBody(r.value.epoch, r.value.senderPubkey, r.value.ciphertext);
    hide ParseCourierEnvelope, BigEndian;
    EnvelopeHeadLayout(data, r.value, EnvelopeBodyOnto(b, r.rest));
  }

  lemma EnvelopeBodyAt(data: seq<Byte>)
    requires ParseCourierEnvelope(data).Parsed?
    ensures var r := ParseCourierEnvelope(data); var m := r.value;
            && m.Valid() && |data| >= 123
            && data[123..] == EnvelopeBodyOnto(EnvelopeBody(m.epoch, m.senderPubkey, m.ciphertext), r.rest)
  {
    var r := ParseCourierEnvelope(data);
    var b := EnvelopeBody(r.value.epoch, r.value.senderPubkey, r.value.ciphertext);
    hide ParseCourierEnvelope, BigEndian;
    EnvelopeHeadLayout(data, r.value, EnvelopeBodyOnto(b, r.rest));
  }

  /** The rest: the epoch, then two fields behind their lengths. */
  lemma CourierEnvelopeBodyLayout(data: seq<Byte>)
    requires ParseCourierEnvelope(data).Parsed?
    ensures |data| >= 137
    ensures var m := ParseCourierEnvelope(data).value; var p := m.senderPubkeyLen; var c := m.ciphertextLen;
            && m.epoch == Number(data, 123, 8)
            && p == Number(data, 131, 2) && 137 + p + c <= |data|
            && m.senderPubkey == data[133..133 + p]
            && c == Number(data, 133 + p, 4)
            && m.ciphertext == data[137 + p..137 + p + c]
            && ParseCourierEnvelope(data).rest == data[137 + p + c..]
  {
    hide ParseCourierEnvelope, CourierEnvelopeOnto, EnvelopeBodyOnto, Number;
    var r := ParseCourierEnvelope(data);
    EnvelopeBodyAt(data);
    EnvelopeBodyLayout(data, EnvelopeBody(r.value.epoch, r.value.senderPubkey, r.value.ciphertext), r.rest);
  }

  lemma CourierEnvelopeReplyLayout(data: seq<Byte>)
    requires ParseCourierEnvelopeReply(data).Parsed?
    ensures |data| >= 39
    ensures var m := ParseCourierEnvelopeReply(data).value; var n := m.payloadLen;
            && m.envelopeHash == data[0..32]
            && m.replyIndex == data[32]
            && m.replyType == data[33] <= 1
            && n == Number(data, 34, 4) && 39 + n <= |data|
            && m.payload == data[38..38 + n]
            && m.errorCode == data[38 + n]
            && ParseCourierEnvelopeReply(data).rest == data[39 + n..]
  {
    CapacityOfWords();
    var r := ParseCourierEnvelopeReply(data);
    var m := r.value;
    var c5 := [m.errorCode] + r.rest;
    var c3 := BigEndian(m.payloadLen, 4) + (m.payload + c5);
    assert data[0..] == data;
    hide ParseCourierEnvelopeReply, BigEndian, Number;
    Field(data, 0, m.envelopeHash, [m.replyIndex] + ([m.replyType] + c3));
    ByteField(data, 32, m.replyIndex, [m.replyType] + c3);
    ByteField(data, 33, m.replyType, c3);
    VarField(data, 34, m.payload, 4, c5);
    ByteField(data, 38 + m.payloadLen, m.errorCode, r.rest);
  }

  lemma CopyCommandLayout(data: seq<Byte>)
    requires ParseCopyCommand(data).Parsed?
    ensures |data| >= 4
    ensures var m := ParseCopyCommand(data).value; var n := m.writeCapLen;
            && n == Number(data, 0, 4) && 4 + n <= |data|
            && m.writeCap == data[4..4 + n]
            && ParseCopyCommand(data).rest == data[4 + n..]
  {
    CapacityOfWords();
    var r := ParseCopyCommand(data);
    assert data[0..] == data;
    hide ParseCopyCommand, BigEndian, Number;
    VarField(data, 0, r.value.writeCap, 4, r.rest);
  }

  /** Type 0 is an envelope, type 1 a copy command, and nothing else parses. */
  lemma CourierQueryLayout(data: seq<Byte>)
    ensures ParseCourierQuery(data).Parsed? <==>
              && |data| >= 1
              && ((data[0] == 0 && ParseCourierEnvelope(data[1..]).Parsed?)
                  || (data[0] == 1 && ParseCopyCommand(data[1..]).Parsed?))
    ensures ParseCourierQuery(data).Parsed? ==>
              var m := ParseCourierQuery(data).value;
              && m.queryType == data[0]
              && (data[0] == 0 ==> m.envelope == Some(ParseCourierEnvelope(data[1..]).value) && m.copyCommand.None?)
              && (data[0] == 1 ==> m.copyCommand == Some(ParseCopyCommand(data[1..]).value) && m.envelope.None?)
  {
    hide ParseCourierEnvelope, ParseCopyCommand;
  }

  lemma ReplicaWriteLayout(data: seq<Byte>)
    requires ParseReplicaWrite(data).Parsed?
    ensures |data| >= 100
    ensures var m := ParseReplicaWrite(data).value; var n := m.payloadLen;
            && m.boxID == data[0..32]
            && m.signature == data[32..96]
            && n == Number(data, 96, 4) && 100 + n <= |data|
            && m.payload == data[100..100 + n]
            && ParseReplicaWrite(data).rest == data[100 + n..]
  {
    CapacityOfWords();
    var r := ParseReplicaWrite(data);
    var m := r.value;
    var c2 := BigEndian(m.payloadLen, 4) + (m.payload + r.rest);
    assert data[0..] == data;
    hide ParseReplicaWrite, BigEndian, Number;
    Field(data, 0, m.boxID, m.signature + c2);
    Field(data, 32, m.signature, c2);
    VarField(data, 96, m.payload, 4, r.rest);
  }

  /** Type 0 is a read of the 32 bytes that follow, type 1 a write, and nothing else
      parses. */
  lemma ReplicaInnerMessageLayout(data: seq<Byte>)
    ensures ParseReplicaInnerMessage(data).Parsed? <==>
              && |data| >= 1
              && ((data[0] == 0 && |data| >= 33) || (data[0] == 1 && ParseReplicaWrite(data[1..]).Parsed?))
    ensures ParseReplicaInnerMessage(data).Parsed? ==>
              var m := ParseReplicaInnerMessage(data).value;
              && m.messageType == data[0]
              && (data[0] == 0 ==> m.readMsg == Some(ReplicaRead(data[1..33])) && m.writeMsg.None?)
              && (data[0] == 1 ==> m.writeMsg == Some(ParseReplicaWrite(data[1..]).value) && m.readMsg.None?)
  {
    hide ParseReplicaWrite;
    if |data| >= 33 {
      assert data[1..][..32] == data[1..33];
    }
  }

  /** Unlike in a write, the signature of a stored box comes last. */
  lemma BoxLayout(data: seq<Byte>)
    requires ParseBox(data).Parsed?
    ensures |data| >= 100
    ensures var m := ParseBox(data).value; var n := m.payloadLen;
            && m.boxID == data[0..32]
            && n == Number(data, 32, 4) && 100 + n <= |data|
            && m.payload == data[36..36 + n]
            && m.signature == data[36 + n..100 + n]
            && ParseBox(data).rest == data[100 + n..]
  {
    CapacityOfWords();
    var r := ParseBox(data);
    var m := r.value;
    var c2 := m.payload + (m.signature + r.rest);
    assert data[0..] == data;
    hide ParseBox, BigEndian, Number;
    Field(data, 0, m.boxID, BigEndian(m.payloadLen, 4) + c2);
    VarField(data, 32, m.payload, 4, m.signature + r.rest);
    Field(data, 36 + m.payloadLen, m.signature, r.rest);
  }

  lemma CopyStreamElementLayout(data: seq<Byte>)
    requires ParseCopyStreamElement(data).Parsed?
    ensures |data| >= 5
    ensures var m := ParseCopyStreamElement(data).value; var n := m.envelopeLen;
            && m.flags == data[0]
            && n == Number(data, 1, 4) && 5 + n <= |data|
            && m.envelopeData == data[5..5 + n]
            && ParseCopyStreamElement(data).rest == data[5 + n..]
  {
    CapacityOfWords();
    var r := ParseCopyStreamElement(data);
    var m := r.value;
    assert data[0..] == data;
    hide ParseCopyStreamElement, BigEndian, Number;
    ByteField(data, 0, m.flags, BigEndian(m.envelopeLen, 4) + (m.envelopeData + r.rest));
    VarField(data, 1, m.envelopeData, 4, r.rest);
  }
}
