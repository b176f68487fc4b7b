/** Chunking and padding (pigeonhole/helpers.go, client/pigeonhole.go): payloads
    are cut into chunks, chunks are padded to the size of a box, and the messages
    that carry them are padded to the size of the largest of them. */
module Padding {
  import opened Bytes
  import opened Trunnel

  datatype Result<+T> = Ok(value: T) | Failed

  const LENGTH_PREFIX_SIZE: nat := 4

  function Zeros(n: nat): (s: seq<Byte>)
    ensures |s| == n
  {
    seq(n, _ => 0)
  }

  // ------------------------------------------------------------ padded payloads

  /** The length prefix is the low 32 bits of the length. */
  function PaddedPayload(message: seq<Byte>, targetSize: int): (r: Result<seq<Byte>>)
    ensures r.Ok? <==> |message| + LENGTH_PREFIX_SIZE <= targetSize
    ensures r.Ok? ==> |r.value| == targetSize
  {
    if |message| > targetSize - LENGTH_PREFIX_SIZE then Failed
    else Ok(BigEndian(|message|, 4) + (message + Zeros(targetSize - 4 - |message|)))
  }

  function ExtractedMessage(padded: seq<Byte>): Result<seq<Byte>>
  {
    if |padded| < LENGTH_PREFIX_SIZE then Failed else
      var messageLength := FromBigEndian(padded[..4]);
      if messageLength > |padded| - LENGTH_PREFIX_SIZE then Failed else Ok(padded[4..4 + messageLength])
  }

  method CreatePaddedPayload(message: seq<Byte>, targetSize: int) returns (r: Result<seq<Byte>>)
    ensures r == PaddedPayload(message, targetSize)
  {
    if |message| > targetSize - LENGTH_PREFIX_SIZE {
      return Failed;
    }
    var paddedPayload := new Byte[targetSize](_ => 0);
    var prefix := BigEndian(|message|, 4);
    for i := 0 to 4
      invariant paddedPayload[..i] == prefix[..i]
      invariant forall k :: i <= k < targetSize ==> paddedPayload[k] == 0
    {
      paddedPayload[i] := prefix[i];
    }
    assert paddedPayload[..4] == prefix;
    for i := 0 to |message|
      invariant paddedPayload[..4] == prefix
      invariant paddedPayload[4..4 + i] == message[..i]
      invariant forall k :: 4 + i <= k < targetSize ==> paddedPayload[k] == 0
    {
      paddedPayload[4 + i] := message[i];
    }
    assert paddedPayload[4..4 + |message|] == message;
    assert paddedPayload[4 + |message|..] == Zeros(targetSize - 4 - |message|);
    assert paddedPayload[..] == paddedPayload[..4] + (paddedPayload[4..4 + |message|] + paddedPayload[4 + |message|..]);
    return Ok(paddedPayload[..]);
  }

  method ExtractMessageFromPaddedPayload(paddedPayload: seq<Byte>) returns (r: Result<seq<Byte>>)
    ensures r == ExtractedMessage(paddedPayload)
  {
    if |paddedPayload| < LENGTH_PREFIX_SIZE {
      return Failed;
    }
    var messageLength := FromBigEndian(paddedPayload[0..4]);
    if messageLength > |paddedPayload| - LENGTH_PREFIX_SIZE {
      return Failed;
    }
    var message := new Byte[messageLength](_ => 0);
    for i := 0 to messageLength
      invariant message[..i] == paddedPayload[4..4 + i]
    {
      message[i] := paddedPayload[4 + i];
    }
    assert paddedPayload[0..4] == paddedPayload[..4];
    assert message[..] == message[..messageLength];
    return Ok(message[..]);
  }

  /** Only the low 32 bits of the length survive. */
  lemma LengthPrefix(n: nat)
    ensures FromBigEndian(BigEndian(n, 4)) == n % TWO_TO_32
  {
    CapacityOfWords();
    LowBytes(n, 4);
    BigEndianRoundTrip(n % TWO_TO_32, 4);
  }

  lemma {:induction false} LowBytes(n: nat, width: nat)
    requires Capacity(width) > 0
    ensures BigEndian(n, width) == BigEndian(n % Capacity(width), width)
    decreases width
  {
    if width > 0 {
      var c := Capacity(width - 1);
      CapacityPositive(width - 1);
      SplitByte(n, c);
      LowBytes(n / 0x100, width - 1);
    }
  }

  lemma {:induction false} CapacityPositive(width: nat)
    ensures Capacity(width) > 0
  {
    if width > 0 {
      CapacityPositive(width - 1);
    }
  }

  /** Reducing modulo 256 * c reduces the upper part modulo c and keeps the last byte. */
  lemma SplitByte(n: nat, c: nat)
    requires c > 0
    ensures (n % (0x100 * c)) / 0x100 == (n / 0x100) % c
    ensures (n % (0x100 * c)) % 0x100 == n % 0x100
  {
    var q, b := n / 0x100, n % 0x100;
    var p, r := q / c, q % c;
    assert n == 0x100 * q + b && q == c * p + r;
    assert 0x100 * q == (0x100 * c) * p + 0x100 * r;
    ModuloOfSum(0x100 * c, p, 0x100 * r + b);
    ModuloOfSum(0x100, r, b);
  }

  /** A message that fits comes back out of its padding exactly when its length
      fits the 32-bit prefix. */
  lemma ExtractUndoesPaddingIff(message: seq<Byte>, targetSize: int)
    requires PaddedPayload(message, targetSize).Ok?
    ensures ExtractedMessage(PaddedPayload(message, targetSize).value) == Ok(message) <==> |message| < TWO_TO_32
  {
    var padded := PaddedPayload(message, targetSize).value;
    var rest := message + Zeros(targetSize - 4 - |message|);
    assert padded[..4] == BigEndian(|message|, 4) && padded[4..] == rest;
    LengthPrefix(|message|);
    var n := |message| % TWO_TO_32;
    assert padded[4..4 + n] == message[..n];
    assert |message| < TWO_TO_32 ==> message[..|message|] == message;
  }

  /** The bytes of a padded payload: four of length, most significant first, the
      message, and zeros. */
  lemma PaddedLayout(message: seq<Byte>, targetSize: int)
    requires PaddedPayload(message, targetSize).Ok?
    ensures var padded := PaddedPayload(message, targetSize).value; var end := 4 + |message|;
            && end <= |padded| == targetSize
            && FromBigEndian(padded[..4]) == |message| % TWO_TO_32 && padded[4..end] == message
            && (forall i :: end <= i < targetSize ==> padded[i] == 0)
  {
    var padded := PaddedPayload(message, targetSize).value;
    assert padded[..4] == BigEndian(|message|, 4);
    LengthPrefix(|message|);
  }

  /** The failing case: any 2^32 bytes come back as none. */
  lemma HugeMessageIsLost(message: seq<Byte>)
    requires |message| == TWO_TO_32
    ensures PaddedPayload(message, TWO_TO_32 + 4).Ok?
    ensures ExtractedMessage(PaddedPayload(message, TWO_TO_32 + 4).value) == Ok([])
  {
    var padded := PaddedPayload(message, TWO_TO_32 + 4).value;
    assert padded[..4] == BigEndian(TWO_TO_32, 4);
    LengthPrefix(TWO_TO_32);
    ModuloOfSum(TWO_TO_32, 1, 0);
    assert FromBigEndian(padded[..4]) == 0;
    assert padded[4..4] == [];
  }

  // ------------------------------------------------------------------- chunks

  function Concat(chunks: seq<seq<Byte>>): seq<Byte>
  {
    if chunks == [] then [] else chunks[0] + Concat(chunks[1..])
  }

  lemma {:induction false} ConcatSnoc(chunks: seq<seq<Byte>>, last: seq<Byte>)
    ensures Concat(chunks + [last]) == Concat(chunks) + last
  {
    if chunks == [] {
      assert chunks + [last] == [last];
      assert Concat([last]) == last + Concat([]);
    } else {
      assert (chunks + [last])[1..] == chunks[1..] + [last];
      ConcatSnoc(chunks[1..], last);
      ConcatAssoc(chunks[0], Concat(chunks[1..]), last);
    }
  }

  /** chunkPayload; its caller has checked that the chunk size is positive. */
  method ChunkPayload(payload: seq<Byte>, maxChunkSize: int) returns (chunks: seq<seq<Byte>>)
    requires maxChunkSize > 0
    ensures Concat(chunks) == payload
    ensures forall i :: 0 <= i < |chunks| ==> 0 < |chunks[i]| <= maxChunkSize
    ensures forall i :: 0 <= i < |chunks| - 1 ==> |chunks[i]| == maxChunkSize
  {
    chunks := [];
    if |payload| == 0 {
      return;
    }
    var offset := 0;
    while offset < |payload|
      invariant 0 <= offset
      invariant Concat(chunks) == payload[..if offset < |payload| then offset else |payload|]
      invariant forall i :: 0 <= i < |chunks| ==> 0 < |chunks[i]| <= maxChunkSize
      invariant offset < |payload| ==> forall i :: 0 <= i < |chunks| ==> |chunks[i]| == maxChunkSize
      invariant forall i :: 0 <= i < |chunks| - 1 ==> |chunks[i]| == maxChunkSize
    {
      var end := offset + maxChunkSize;
      if end > |payload| {
        end := |payload|;
      }
      ConcatSnoc(chunks, payload[offset..end]);
      assert payload[..offset] + payload[offset..end] == payload[..end];
      chunks := chunks + [payload[offset..end]];
      offset := offset + maxChunkSize;
    }
    assert payload[..|payload|] == payload;
  }

  const MAX_PAYLOAD_SIZE: nat := 10 * 1024 * 1024

  /** validateEnvelopePayloadRequest, as far as sizes go. */
  predicate Admissible(payload: seq<Byte>, maxPlaintext: int)
  {
    |payload| <= MAX_PAYLOAD_SIZE && maxPlaintext - 4 > 0
  }

  /** The plaintexts a payload becomes: chunks of the geometry's size less four,
      padded to its size plus four. */
  method PadChunks(payload: seq<Byte>, maxPlaintext: int) returns (padded: Result<seq<seq<Byte>>>)
    ensures padded.Ok? <==> Admissible(payload, maxPlaintext)
    ensures padded.Ok? ==>
      && (forall i :: 0 <= i < |padded.value| ==> |padded.value[i]| == maxPlaintext + 4)
      && Restored(padded.value) == Ok(payload)
  {
    if |payload| > MAX_PAYLOAD_SIZE || maxPlaintext - 4 <= 0 {
      return Failed;
    }
    var chunks := ChunkPayload(payload, maxPlaintext - 4);
    var result: seq<seq<Byte>> := [];
    for i := 0 to |chunks|
      invariant |result| == i
      invariant forall k :: 0 <= k < i ==> |result[k]| == maxPlaintext + 4 && ExtractedMessage(result[k]) == Ok(chunks[k])
    {
      ChunkFits(chunks, i);
      var box := CreatePaddedPayload(chunks[i], maxPlaintext + 4);
      ExtractUndoesPaddingIff(chunks[i], maxPlaintext + 4);
      result := result + [box.value];
    }
    RestoresChunks(result, chunks);
    return Ok(result);
  }

  /** What a reader of the boxes does: extract every message and join them. */
  function Restored(boxes: seq<seq<Byte>>): Result<seq<Byte>>
  {
    if boxes == [] then Ok([]) else
      var first, rest := ExtractedMessage(boxes[0]), Restored(boxes[1..]);
      if first.Ok? && rest.Ok? then Ok(first.value + rest.value) else Failed
  }

  lemma {:induction false} RestoresChunks(boxes: seq<seq<Byte>>, chunks: seq<seq<Byte>>)
    requires |boxes| == |chunks|
    requires forall k :: 0 <= k < |boxes| ==> ExtractedMessage(boxes[k]) == Ok(chunks[k])
    ensures Restored(boxes) == Ok(Concat(chunks))
  {
    if boxes != [] {
      hide ExtractedMessage;
      RestoresChunks(boxes[1..], chunks[1..]);
    }
  }

  lemma {:induction false} ChunkFits(chunks: seq<seq<Byte>>, i: nat)
    requires i < |chunks|
    ensures |chunks[i]| <= |Concat(chunks)|
  {
    if i > 0 {
      ChunkFits(chunks[1..], i - 1);
    }
  }

  // ------------------------------------------------------------ inner messages

  function PadToSize(data: seq<Byte>, targetSize: int): (r: Result<seq<Byte>>)
    ensures r.Ok? <==> |data| <= targetSize
    ensures r.Ok? ==> |r.value| == targetSize && data <= r.value
  {
    if |data| > targetSize then Failed
    else if |data| == targetSize then Ok(data)
    else Ok(data + Zeros(targetSize - |data|))
  }

  const BACAP_ENCRYPTION_OVERHEAD: nat := 16

  function BoxCiphertextLength(maxPlaintext: nat): nat
  {
    maxPlaintext + LENGTH_PREFIX_SIZE + BACAP_ENCRYPTION_OVERHEAD
  }

  /** Message type, box ID, signature, payload length and a full payload. */
  function InnerMessageWriteSize(maxPlaintext: nat): nat
  {
    1 + (32 + 64 + 4) + BoxCiphertextLength(maxPlaintext)
  }

  function PadInnerMessage(m: ReplicaInnerMessage, maxPlaintext: nat): Result<seq<Byte>>
  {
    PadToSize(EncodeReplicaInnerMessage(m), InnerMessageWriteSize(maxPlaintext))
  }

  function PayloadSize(m: ReplicaInnerMessage): nat
  {
    if m.messageType == 1 && m.writeMsg.Some? then |m.writeMsg.value.payload| else 0
  }

  lemma InnerMessageLength(m: ReplicaInnerMessage)
    requires m.Complete()
    ensures |EncodeReplicaInnerMessage(m)| == if m.messageType == 0 then 33 else 101 + PayloadSize(m)
  {
  }

  /** Reads, writes and tombstones all pad to one length and parse back to what
      they were, exactly when their payload is no longer than a box's. */
  lemma InnerMessagesLookAlikeIff(m: ReplicaInnerMessage, maxPlaintext: nat)
    requires m.Complete()
    ensures PadInnerMessage(m, maxPlaintext).Ok? <==> PayloadSize(m) <= maxPlaintext + 20
    ensures PadInnerMessage(m, maxPlaintext).Ok? ==>
              var padded := PadInnerMessage(m, maxPlaintext).value;
              && |padded| == maxPlaintext + 121
              && (forall i :: |EncodeReplicaInnerMessage(m)| <= i < |padded| ==> padded[i] == 0)
              && ParseReplicaInnerMessage(padded).Parsed? && ParseReplicaInnerMessage(padded).value == m
  {
    InnerMessageLength(m);
    if PadInnerMessage(m, maxPlaintext).Ok? {
      var data := EncodeReplicaInnerMessage(m);
      var padded := PadInnerMessage(m, maxPlaintext).value;
      var tail := padded[|data|..];
      assert padded == data + tail;
      ReplicaInnerMessageOntoIsAppend(m, tail);
      ReplicaInnerMessageRoundTrip(m, tail);
    }
    hide EncodeReplicaInnerMessage, ReplicaInnerMessageOnto, ParseReplicaInnerMessage;
  }
}
