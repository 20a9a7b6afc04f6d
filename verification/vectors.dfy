/** The concrete frames of the source's unit tests (test.rs), and what the
    decoder and `sync` make of them. */
module TestVectors {
  import opened Wrappers
  import opened Bytes
  import opened Errors
  import opened Data
  import opened Messages
  import opened Checksum
  import opened Packet
  import opened Synchronization

  /** The frame of the unit tests: frame number 0xB1, checksum 0x6BF6. */
  const GoodFrame: seq<byte> :=
    [0xFA, 0xB1, 0xE3, 0x49, 0xE4, 0x00, 0xE1, 0x05, 0xE2, 0x00, 0x34,
     0x06, 0xE0, 0x00, 0x25, 0x06, 0xDF, 0x00, 0x84, 0x06, 0xF6, 0x6B]

  /** The same frame with its checksum bytes replaced by 0xA6, 0xCE. */
  const BadChecksumFrame: seq<byte> :=
    [0xFA, 0xB1, 0xE3, 0x49, 0xE4, 0x00, 0xE1, 0x05, 0xE2, 0x00, 0x34,
     0x06, 0xE0, 0x00, 0x25, 0x06, 0xDF, 0x00, 0x84, 0x06, 0xA6, 0xCE]

  /** The first five words of the good frame accumulate to 884460. */
  lemma GoodFrameFirstWords()
    ensures Accumulate(GoodFrame[..20], 5) == 884460
  {
    var data := GoodFrame[..20];
    assert data[..10] == [0xFA, 0xB1, 0xE3, 0x49, 0xE4, 0x00, 0xE1, 0x05, 0xE2, 0x00];
    assert data[0] == 0xFA;
    assert data[1] == 0xB1;
    assert Word(data, 0) == 45562;
    assert Accumulate(data, 1) == 45562;
    assert data[2] == 0xE3 && data[3] == 0x49;
    assert Accumulate(data, 2) == 110039;
    assert data[4] == 0xE4 && data[5] == 0x00;
    assert Accumulate(data, 3) == 220306;
    assert data[6] == 0xE1 && data[7] == 0x05;
    assert Accumulate(data, 4) == 442117;
    assert data[8] == 0xE2 && data[9] == 0x00;
  }

  /** The checksum of the good frame's first 20 bytes is 0x6BF6. */
  lemma GoodFrameChecksum()
    ensures ChecksumOf(GoodFrame[..20]) == 0x6BF6
  {
    var data := GoodFrame[..20];
    GoodFrameFirstWords();
    assert data[10..] == [0x34, 0x06, 0xE0, 0x00, 0x25, 0x06, 0xDF, 0x00, 0x84, 0x06];
    assert data[10] == 0x34 && data[11] == 0x06;
    assert Accumulate(data, 6) == 1770508;
    assert data[12] == 0xE0 && data[13] == 0x00;
    assert Accumulate(data, 7) == 3541240;
    assert data[14] == 0x25 && data[15] == 0x06;
    assert Accumulate(data, 8) == 7084053;
    assert data[16] == 0xDF && data[17] == 0x00;
    assert Accumulate(data, 9) == 14168329;
    assert data[18] == 0x84 && data[19] == 0x06;
    assert Accumulate(data, 10) == 28338326;
  }

  /** The four sub-readings of the good frame, decoded one by one. */
  lemma GoodFrameReadings()
    ensures ReadingAt(GoodFrame, 0x11, 0) == Reading(68, 228, 1505, None)
    ensures ReadingAt(GoodFrame, 0x11, 1) == Reading(69, 226, 1588, None)
    ensures ReadingAt(GoodFrame, 0x11, 2) == Reading(70, 224, 1573, None)
    ensures ReadingAt(GoodFrame, 0x11, 3) == Reading(71, 223, 1668, None)
  {
    assert GoodFrame[4] == 0xE4 && GoodFrame[5] == 0x00 && GoodFrame[6] == 0xE1 && GoodFrame[7] == 0x05;
    assert GoodFrame[8] == 0xE2 && GoodFrame[9] == 0x00 && GoodFrame[10] == 0x34 && GoodFrame[11] == 0x06;
    assert GoodFrame[12] == 0xE0 && GoodFrame[13] == 0x00 && GoodFrame[14] == 0x25 && GoodFrame[15] == 0x06;
    assert GoodFrame[16] == 0xDF && GoodFrame[17] == 0x00 && GoodFrame[18] == 0x84 && GoodFrame[19] == 0x06;
  }

  /** The good frame decodes to a packet of four clean readings at angles
      68..71, with raw speed 0x49E3. */
  lemma GoodFrameDecodes()
    ensures ParsePacket(GoodFrame) == Ok(PacketMessage(Packet(
      [Reading(68, 228, 1505, None), Reading(69, 226, 1588, None),
       Reading(70, 224, 1573, None), Reading(71, 223, 1668, None)], 0x49E3)))
  {
    GoodFrameChecksum();
    GoodFrameReadings();
    assert GoodFrame[1] == 0xB1 && GoodFrame[2] == 0xE3 && GoodFrame[3] == 0x49;
    assert ExpectedChecksum(GoodFrame) == 0x6BF6;
    ParsedReadings(GoodFrame);
  }

  /** The corrupted frame is rejected with the frame index 0x11. */
  lemma BadChecksumFrameRejected()
    ensures ParsePacket(BadChecksumFrame) == Err(DriverError.Checksum(0x11))
  {
    GoodFrameChecksum();
    assert BadChecksumFrame[..20] == GoodFrame[..20];
  }

  /** A frame starting inside the 21 bytes discarded after a bad frame number
      is lost: `sync` finds the good frame on its own, but not two bytes after
      a marker whose frame number (0x10) is invalid. */
  lemma DiscardedBytesAreNotRescanned()
    ensures Sync(GoodFrame) == Synced(GoodFrame, [])
    ensures Sync([0xFA, 0x10] + GoodFrame) == ReadFailed
  {
    var input: seq<byte> := [0xFA, 0x10] + GoodFrame;
    assert GoodFrame[..FrameSize] == GoodFrame;
    SyncDiscardsBadFrame(input);
    assert input[FrameSize..] == [0xF6, 0x6B];
    assert Sync([0xF6, 0x6B]) == Sync([0x6B]);
    assert [0xF6, 0x6B][1..] == [0x6B];
    assert [0x6B][1..] == [];
  }
}
