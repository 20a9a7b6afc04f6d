/** Finding a frame boundary in the raw byte stream (driver.rs `sync`).

    The serial port is modelled as the finite sequence of bytes it will still
    deliver: `read_exact` of n bytes succeeds when at least n bytes remain and
    fails (timeout or I/O error) otherwise. */
module Synchronization {
  import opened Bytes
  import opened Packet

  /** A frame number in 0xA0..0xF9, that is a frame index in 0..89. */
  predicate ValidFrameNumber(b: byte)
  {
    FirstFrameNumber <= b <= LastFrameNumber
  }

  /** The header check of the run loop: start marker, then a valid frame number. */
  predicate HeaderOk(frame: seq<byte>)
    requires |frame| >= 2
    ensures HeaderOk(frame) <==> frame[0] == 0xFA && 0xA0 <= frame[1] <= 0xF9
    ensures HeaderOk(frame) ==> 4 * (frame[1] - FirstFrameNumber) + ReadingsPerFrame <= 360
  {
    frame[0] == StartMarker && ValidFrameNumber(frame[1])
  }

  /** `t` is what is left of `s` after dropping some prefix. */
  predicate IsSuffix(t: seq<byte>, s: seq<byte>)
  {
    |t| <= |s| && s[|s| - |t|..] == t
  }

  /** A full 22-byte frame with a plausible header and the stream after it,
      or a failed read. */
  datatype SyncResult = Synced(frame: seq<byte>, rest: seq<byte>) | ReadFailed

  /** On success, a 22-byte frame with a good header which, followed by the
      remaining bytes, is a suffix of the input. A non-marker byte costs one
      byte; a marker followed by a bad frame number costs the whole 22 bytes
      read. */
  function Sync(input: seq<byte>): (r: SyncResult)
    ensures r.Synced? ==> |r.frame| == FrameSize && HeaderOk(r.frame)
    ensures r.Synced? ==> IsSuffix(r.frame + r.rest, input)
    decreases |input|
  {
    if |input| < 1 then ReadFailed
    else if input[0] != StartMarker then Sync(input[1..])
    else if |input| < FrameSize then ReadFailed
    else if !ValidFrameNumber(input[1]) then Sync(input[FrameSize..])
    else Synced(input[..FrameSize], input[FrameSize..])
  }

  /** `sync` as written: a loop reading one byte at a time until a marker, then
      the 21 remaining bytes, restarting when the frame number is invalid. */
  method SyncLoop(input: seq<byte>) returns (r: SyncResult)
    ensures r == Sync(input)
  {
    var cursor := 0;
    while true
      invariant cursor <= |input|
      invariant Sync(input[cursor..]) == Sync(input)
      decreases |input| - cursor
    {
      if |input| - cursor < 1 {
        return ReadFailed;
      }
      if input[cursor] != StartMarker {
        assert input[cursor..][1..] == input[cursor + 1..];
        cursor := cursor + 1;
        continue;
      }
      if |input| - cursor < FrameSize {
        return ReadFailed;
      }
      var buffer := input[cursor..cursor + FrameSize];
      assert input[cursor..][FrameSize..] == input[cursor + FrameSize..];
      cursor := cursor + FrameSize;
      if !ValidFrameNumber(buffer[1]) {
        continue;
      }
      return Synced(buffer, input[cursor..]);
    }
  }

  /** Bytes other than the marker are skipped one at a time, so noise before a
      well-formed frame is harmless: the frame after it is found. */
  lemma {:induction false} SyncSkipsNoise(noise: seq<byte>, frame: seq<byte>, rest: seq<byte>)
    requires forall i :: 0 <= i < |noise| ==> noise[i] != StartMarker
    requires |frame| == FrameSize && HeaderOk(frame)
    ensures Sync(noise + frame + rest) == Synced(frame, rest)
  {
    if |noise| == 0 {
      assert noise + frame + rest == frame + rest;
      assert (frame + rest)[..FrameSize] == frame;
      assert (frame + rest)[FrameSize..] == rest;
    } else {
      assert (noise + frame + rest)[1..] == noise[1..] + frame + rest;
      SyncSkipsNoise(noise[1..], frame, rest);
    }
  }

  /** A marker followed by an invalid frame number discards all 22 bytes read:
      scanning resumes after them, not at the byte after the marker. */
  lemma SyncDiscardsBadFrame(input: seq<byte>)
    requires |input| >= FrameSize && input[0] == StartMarker && !ValidFrameNumber(input[1])
    ensures Sync(input) == Sync(input[FrameSize..])
  {
  }

  /** A stream without a marker is read to its end, one byte at a time, and
      then the read fails: `sync` returns only when the port stops delivering. */
  lemma {:induction false} SyncFailsWithoutMarker(input: seq<byte>)
    requires forall i :: 0 <= i < |input| ==> input[i] != StartMarker
    ensures Sync(input) == ReadFailed
    decreases |input|
  {
    if |input| > 0 {
      SyncFailsWithoutMarker(input[1..]);
    }
  }
}
