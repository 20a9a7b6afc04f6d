/** Decoding of one 22-byte frame (driver.rs `parse_packet`), and the inverse
    encoding used to state the round trip.

    Frame layout: [0xFA, frame number, speed (2), 4 x (distance+flags (2), quality (2)),
    checksum (2)], every multi-byte field little-endian. */
module Packet {
  import opened Wrappers
  import opened Bytes
  import opened Errors
  import opened Data
  import opened Messages
  import opened Checksum

  const FrameSize: nat := 22
  const StartMarker: byte := 0xFA
  const FirstFrameNumber: byte := 0xA0
  const LastFrameNumber: byte := 0xF9
  const ReadingsPerFrame: nat := 4

  /** Bit 15 of the distance field: the reading is invalid, the low byte is an error code. */
  const InvalidDataFlag: nat := 0x8000
  /** Bit 14 of the distance field: the signal strength is low. */
  const SignalStrengthFlag: nat := 0x4000

  /** `w & flag > 0` for a single-bit flag. */
  predicate HasFlag(w: nat, flag: nat)
    requires flag > 0
  {
    (w / flag) % 2 == 1
  }

  /** Builds one reading from its raw distance and quality fields. Bit 15 takes
      priority over bit 14; only bit 14 is cleared from the stored distance. */
  function DecodeReading(index: nat, distance: nat, quality: nat): (rd: Reading)
    requires distance < 0x1_0000
    ensures rd.index == index && rd.quality == quality
    ensures distance >= 0x8000 ==>
      rd.distance == distance && rd.error == Some(InvalidDataError(distance % 0x100))
    ensures 0x4000 <= distance < 0x8000 ==>
      rd.distance == distance - 0x4000 && rd.error == Some(SignalStrengthWarning)
    ensures distance < 0x4000 ==> rd.distance == distance && rd.error == None
  {
    if HasFlag(distance, InvalidDataFlag) then
      Reading(index, distance, quality, Some(InvalidDataError(distance % 0x100)))
    else if HasFlag(distance, SignalStrengthFlag) then
      Reading(index, distance % 0x4000, quality, Some(SignalStrengthWarning))
    else
      Reading(index, distance, quality, None)
  }

  /** The raw distance field a reading was decoded from: the signal-strength
      flag is put back, everything else was stored unchanged. */
  function RawDistance(rd: Reading): int
  {
    match rd.error
    case Some(SignalStrengthWarning) => rd.distance + SignalStrengthFlag
    case _ => rd.distance
  }

  /** A reading that `DecodeReading` can produce: its fields fit their 16-bit
      wire fields and its error agrees with the flag bits. */
  ghost predicate WellFormedReading(rd: Reading)
  {
    && 0 <= rd.quality < 0x1_0000
    && match rd.error
       case None => 0 <= rd.distance < 0x4000
       case Some(SignalStrengthWarning) => 0 <= rd.distance < 0x4000
       case Some(InvalidDataError(code)) => 0x8000 <= rd.distance < 0x1_0000 && code == rd.distance % 0x100
  }

  /** A packet that frame index k can carry: four well-formed readings with
      consecutive angular indices starting at 4 * k, and a 16-bit speed. */
  ghost predicate WellFormedPacket(p: Packet, k: nat)
  {
    && |p.readings| == ReadingsPerFrame
    && p.speed < 0x1_0000
    && forall i :: 0 <= i < ReadingsPerFrame ==>
         p.readings[i].index == 4 * k + i && WellFormedReading(p.readings[i])
  }

  /** Decoding a raw field and re-encoding the reading gives the field back. */
  lemma RawDistanceOfDecode(index: nat, distance: nat, quality: nat)
    requires distance < 0x1_0000
    ensures RawDistance(DecodeReading(index, distance, quality)) == distance
    ensures WellFormedReading(DecodeReading(index, distance, quality)) <==> quality < 0x1_0000
  {
  }

  /** Every well-formed reading is decoded from its own raw fields. */
  lemma DecodeOfRawDistance(rd: Reading)
    requires WellFormedReading(rd)
    ensures 0 <= RawDistance(rd) < 0x1_0000
    ensures DecodeReading(rd.index, RawDistance(rd) as nat, rd.quality as nat) == rd
  {
  }

  /** The reading at sub-position i (0..3) of a frame with frame index k. */
  function ReadingAt(buf: seq<byte>, k: nat, i: nat): (rd: Reading)
    requires |buf| == FrameSize && i < ReadingsPerFrame
    ensures rd.index == 4 * k + i
    ensures RawDistance(rd) == LittleEndian16(buf[4 * i + 4], buf[4 * i + 5])
    ensures rd.quality == LittleEndian16(buf[4 * i + 6], buf[4 * i + 7])
    ensures WellFormedReading(rd)
  {
    var byteIndex := 4 * (i + 1);
    RawDistanceOfDecode(4 * k + i,
                        LittleEndian16(buf[byteIndex], buf[byteIndex + 1]),
                        LittleEndian16(buf[byteIndex + 2], buf[byteIndex + 3]));
    DecodeReading(4 * k + i,
                  LittleEndian16(buf[byteIndex], buf[byteIndex + 1]),
                  LittleEndian16(buf[byteIndex + 2], buf[byteIndex + 3]))
  }

  /** The checksum transmitted in the last two bytes of a frame. */
  function ExpectedChecksum(buf: seq<byte>): nat
    requires |buf| == FrameSize
  {
    LittleEndian16(buf[20], buf[21])
  }

  /** `parse_packet`: a checksum error carrying the frame index, or a packet of
      four readings. The caller has checked that the frame number is at least
      0xA0 (the `usize` subtraction would underflow otherwise). */
  function ParsePacket(buf: seq<byte>): (r: Result<DriverMessage, DriverError>)
    requires |buf| == FrameSize && buf[1] >= FirstFrameNumber
    ensures r.Err? <==> ChecksumOf(buf[..20]) != ExpectedChecksum(buf)
    ensures r.Err? ==> r.error == DriverError.Checksum(buf[1] - FirstFrameNumber)
    ensures r.Ok? ==> r.value.PacketMessage?
    ensures r.Ok? ==> WellFormedPacket(r.value.packet, buf[1] - FirstFrameNumber)
    ensures r.Ok? ==> r.value.packet.speed == LittleEndian16(buf[2], buf[3])
    ensures r.Ok? ==> forall i :: 0 <= i < ReadingsPerFrame ==>
      && RawDistance(r.value.packet.readings[i]) == LittleEndian16(buf[4 * i + 4], buf[4 * i + 5])
      && r.value.packet.readings[i].quality == LittleEndian16(buf[4 * i + 6], buf[4 * i + 7])
    ensures r.Ok? && buf[1] <= LastFrameNumber ==>
      forall i :: 0 <= i < ReadingsPerFrame ==> r.value.packet.readings[i].index < 360
  {
    var index := buf[1] - FirstFrameNumber;
    var speed := LittleEndian16(buf[2], buf[3]);
    if ChecksumOf(buf[..20]) != ExpectedChecksum(buf) then
      Err(DriverError.Checksum(index))
    else
      var readings := seq(ReadingsPerFrame, i requires 0 <= i < ReadingsPerFrame => ReadingAt(buf, index, i));
      Ok(PacketMessage(Packet(readings, speed)))
  }

  /** A frame whose checksum matches decodes to its four readings in order. */
  lemma ParsedReadings(buf: seq<byte>)
    requires |buf| == FrameSize && buf[1] >= FirstFrameNumber
    requires ChecksumOf(buf[..20]) == ExpectedChecksum(buf)
    ensures var k := buf[1] - FirstFrameNumber;
      ParsePacket(buf) == Ok(PacketMessage(Packet(
        [ReadingAt(buf, k, 0), ReadingAt(buf, k, 1), ReadingAt(buf, k, 2), ReadingAt(buf, k, 3)],
        LittleEndian16(buf[2], buf[3]))))
  {
    var k := buf[1] - FirstFrameNumber;
    assert ParsePacket(buf).value.packet.readings ==
      [ReadingAt(buf, k, 0), ReadingAt(buf, k, 1), ReadingAt(buf, k, 2), ReadingAt(buf, k, 3)];
  }

  /** The raw distance field of a well-formed reading, as a 16-bit value. */
  function RawField(rd: Reading): (w: nat)
    requires WellFormedReading(rd)
    ensures w == RawDistance(rd) && w < 0x1_0000
  {
    DecodeOfRawDistance(rd);
    RawDistance(rd) as nat
  }

  /** The first 20 bytes of the frame that carries packet p as frame index k. */
  function EncodeBody(k: nat, p: Packet): (body: seq<byte>)
    requires FirstFrameNumber + k < 0x100 && WellFormedPacket(p, k)
    ensures |body| == 20
  {
    var r := p.readings;
    var number: byte := FirstFrameNumber + k;
    [StartMarker, number, Low(p.speed), High(p.speed),
     Low(RawField(r[0])), High(RawField(r[0])), Low(r[0].quality), High(r[0].quality),
     Low(RawField(r[1])), High(RawField(r[1])), Low(r[1].quality), High(r[1].quality),
     Low(RawField(r[2])), High(RawField(r[2])), Low(r[2].quality), High(r[2].quality),
     Low(RawField(r[3])), High(RawField(r[3])), Low(r[3].quality), High(r[3].quality)]
  }

  /** The 22-byte frame that carries packet p as frame index k: the body and
      the little-endian checksum of the body. */
  function EncodeFrame(k: nat, p: Packet): (buf: seq<byte>)
    requires FirstFrameNumber + k < 0x100 && WellFormedPacket(p, k)
    ensures |buf| == FrameSize
    ensures buf[0] == StartMarker && buf[1] == FirstFrameNumber + k
  {
    var body := EncodeBody(k, p);
    var sum := ChecksumOf(body);
    body + [Low(sum), High(sum)]
  }

  /** An encoded frame carries the checksum of its own first 20 bytes. */
  lemma EncodedChecksumMatches(k: nat, p: Packet)
    requires FirstFrameNumber + k < 0x100 && WellFormedPacket(p, k)
    ensures ChecksumOf(EncodeFrame(k, p)[..20]) == ExpectedChecksum(EncodeFrame(k, p))
  {
    var body := EncodeBody(k, p);
    assert EncodeFrame(k, p)[..20] == body;
  }

  /** A well-formed reading is decoded from the four bytes that carry its
      raw fields. */
  lemma ReadingFromFields(buf: seq<byte>, k: nat, i: nat, rd: Reading)
    requires |buf| == FrameSize && i < ReadingsPerFrame
    requires rd.index == 4 * k + i && WellFormedReading(rd)
    requires buf[4 * i + 4] == Low(RawField(rd)) && buf[4 * i + 5] == High(RawField(rd))
    requires buf[4 * i + 6] == Low(rd.quality) && buf[4 * i + 7] == High(rd.quality)
    ensures ReadingAt(buf, k, i) == rd
  {
    DecodeOfRawDistance(rd);
  }

  /** The four bytes of reading i in the body of an encoded frame. */
  lemma BodyFields(k: nat, p: Packet, i: nat)
    requires FirstFrameNumber + k < 0x100 && WellFormedPacket(p, k) && i < ReadingsPerFrame
    ensures var body := EncodeBody(k, p); var rd := p.readings[i];
      body[4 * i + 4..4 * i + 8] == [Low(RawField(rd)), High(RawField(rd)), Low(rd.quality), High(rd.quality)]
  {
    if i == 0 {
    } else if i == 1 {
    } else if i == 2 {
    } else {
    }
  }

  /** An encoded frame starts with its body. */
  lemma FrameStartsWithBody(k: nat, p: Packet)
    requires FirstFrameNumber + k < 0x100 && WellFormedPacket(p, k)
    ensures EncodeFrame(k, p)[..20] == EncodeBody(k, p)
  {
  }

  /** The four bytes of reading i in an encoded frame. */
  lemma EncodedFields(k: nat, p: Packet, i: nat)
    requires FirstFrameNumber + k < 0x100 && WellFormedPacket(p, k) && i < ReadingsPerFrame
    ensures var buf := EncodeFrame(k, p); var rd := p.readings[i];
      && buf[4 * i + 4] == Low(RawField(rd)) && buf[4 * i + 5] == High(RawField(rd))
      && buf[4 * i + 6] == Low(rd.quality) && buf[4 * i + 7] == High(rd.quality)
  {
    var buf := EncodeFrame(k, p);
    var body := EncodeBody(k, p);
    FrameStartsWithBody(k, p);
    BodyFields(k, p, i);
    var j := 4 * i + 4;
    assert buf[j..j + 4] == body[j..j + 4];
  }

  /** Reading i of an encoded frame decodes to reading i of the packet. */
  lemma EncodedReadingDecodes(k: nat, p: Packet, i: nat)
    requires FirstFrameNumber + k < 0x100 && WellFormedPacket(p, k) && i < ReadingsPerFrame
    ensures ReadingAt(EncodeFrame(k, p), k, i) == p.readings[i]
  {
    EncodedFields(k, p, i);
    ReadingFromFields(EncodeFrame(k, p), k, i, p.readings[i]);
  }

  /** Decoding an encoded frame gives back the packet. */
  lemma ParseOfEncode(k: nat, p: Packet)
    requires FirstFrameNumber + k < 0x100 && WellFormedPacket(p, k)
    ensures ParsePacket(EncodeFrame(k, p)) == Ok(PacketMessage(p))
  {
    var buf := EncodeFrame(k, p);
    EncodedChecksumMatches(k, p);
    var r := ParsePacket(buf);
    forall i | 0 <= i < ReadingsPerFrame
      ensures r.value.packet.readings[i] == p.readings[i]
    {
      EncodedReadingDecodes(k, p, i);
    }
    assert r.value.packet.readings == p.readings;
    assert r.value.packet.speed == p.speed;
  }

  /** The four bytes of reading i of an accepted frame are those its decoded
      reading encodes to. */
  lemma ParsedFieldBytes(buf: seq<byte>, i: nat)
    requires |buf| == FrameSize && buf[1] >= FirstFrameNumber && i < ReadingsPerFrame
    requires ParsePacket(buf).Ok?
    ensures var p := ParsePacket(buf).value.packet;
      EncodeBody(buf[1] - FirstFrameNumber, p)[4 * i + 4..4 * i + 8] == buf[4 * i + 4..4 * i + 8]
  {
    var p := ParsePacket(buf).value.packet;
    BodyFields(buf[1] - FirstFrameNumber, p, i);
    var rd := p.readings[i];
    assert RawField(rd) == LittleEndian16(buf[4 * i + 4], buf[4 * i + 5]);
    assert rd.quality == LittleEndian16(buf[4 * i + 6], buf[4 * i + 7]);
  }

  /** Every frame that starts with the marker and passes the checksum is the
      encoding of the packet decoded from it: decoding loses nothing. */
  lemma EncodeOfParse(buf: seq<byte>)
    requires |buf| == FrameSize && buf[0] == StartMarker && buf[1] >= FirstFrameNumber
    requires ParsePacket(buf).Ok?
    ensures EncodeFrame(buf[1] - FirstFrameNumber, ParsePacket(buf).value.packet) == buf
  {
    var p := ParsePacket(buf).value.packet;
    var k := buf[1] - FirstFrameNumber;
    var body := EncodeBody(k, p);
    forall i | 0 <= i < ReadingsPerFrame
      ensures body[4 * i + 4..4 * i + 8] == buf[4 * i + 4..4 * i + 8]
    {
      ParsedFieldBytes(buf, i);
    }
    assert body == buf[..20];
  }
}
