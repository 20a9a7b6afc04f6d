/** Properties of whole runs of the driver loop. */
module RunProperties {
  import opened Wrappers
  import opened Bytes
  import opened Errors
  import opened Messages
  import opened Packet
  import opened Synchronization
  import opened Driver

  /** Every frame is 22 bytes with a good header. */
  predicate GoodFrames(frames: seq<seq<byte>>)
  {
    |frames| == 0 || (|frames[0]| == FrameSize && HeaderOk(frames[0]) && GoodFrames(frames[1..]))
  }

  /** The frames one after another on the wire. */
  function Concat(frames: seq<seq<byte>>): seq<byte>
  {
    if |frames| == 0 then [] else frames[0] + Concat(frames[1..])
  }

  /** The messages the frames decode to, in order. */
  function Decoded(frames: seq<seq<byte>>): seq<Outbound>
    requires GoodFrames(frames)
  {
    if |frames| == 0 then [] else [ParsePacket(frames[0])] + Decoded(frames[1..])
  }

  /** No command arrives. */
  predicate Quiet(polls: seq<Poll>)
  {
    forall i :: 0 <= i < |polls| ==> polls[i] == Empty
  }

  /** A `Stop`, or a dropped command sender, anywhere among the polls ends the loop. */
  lemma {:induction false} StopEndsLoop(d: Driver, polls: seq<Poll>, j: nat)
    requires j < |polls| && (polls[j] == Received(Stop) || polls[j] == Disconnected)
    ensures RunLoop(d, polls).stopped
    decreases j
  {
    if j > 0 {
      match Iterate(d, polls[0])
      case Continue(next, _) =>
        assert polls[1..][j - 1] == polls[j];
        StopEndsLoop(next, polls[1..], j - 1);
      case Exit(_, _) =>
    }
  }

  /** Unsynchronised over a stream that holds no start marker, the first
      iteration that reads reports `SerialRead` and ends the loop; here the
      stream runs out, and `sync` never looks at the command channel. */
  lemma MarkerFreeInputEndsRun(d: Driver, polls: seq<Poll>)
    requires d.needsSync && |polls| > 0 && Active(d, polls[0])
    requires forall i :: 0 <= i < |d.input| ==> d.input[i] != StartMarker
    ensures var r := RunLoop(d, polls);
      && r.stopped
      && r.final.input == []
      && (d.ch.capacity.None? ==> r.final.ch.delivered == d.ch.delivered + [Err(SerialRead), Ok(Shutdown)])
  {
    SyncFailsWithoutMarker(d.input);
    IterateSyncReadFails(d, polls[0]);
  }

  /** While paused, and without a `Run`, the loop reads nothing and sends nothing. */
  lemma {:induction false} PausedLoopIsSilent(d: Driver, waiting: seq<Poll>, later: seq<Poll>)
    requires d.isPaused
    requires forall i :: 0 <= i < |waiting| ==> waiting[i] == Empty || waiting[i] == Received(Pause)
    ensures RunLoop(d, waiting + later) == RunLoop(d, later)
  {
    if |waiting| > 0 {
      assert Iterate(d, waiting[0]) == Continue(d, None);
      assert (waiting + later)[1..] == waiting[1..] + later;
      PausedLoopIsSilent(d, waiting[1..], later);
    } else {
      assert waiting + later == later;
    }
  }

  /** `Pause`, then any number of empty polls or further pauses, then `Stop`:
      no byte is read and the only message is the final `Shutdown`. */
  lemma PauseThenStop(d: Driver, waiting: seq<Poll>, later: seq<Poll>)
    requires forall i :: 0 <= i < |waiting| ==> waiting[i] == Empty || waiting[i] == Received(Pause)
    ensures var r := RunLoop(d, [Received(Pause)] + waiting + [Received(Stop)] + later);
      && r.stopped
      && r.final.input == d.input
      && r.final.ch.delivered == if d.ch.Open() then d.ch.delivered + [Ok(Shutdown)] else d.ch.delivered
  {
    var paused := d.(isPaused := true);
    var polls := [Received(Pause)] + waiting + [Received(Stop)] + later;
    assert polls[1..] == waiting + ([Received(Stop)] + later);
    PausedLoopIsSilent(paused, waiting, [Received(Stop)] + later);
  }

  /** Synchronised, a frame with a good header is read and its decoding sent. */
  lemma AlignedStep(d: Driver, f: seq<byte>, rest: seq<byte>)
    requires !d.needsSync && !d.isPaused && d.ch.capacity.None?
    requires |f| == FrameSize && HeaderOk(f) && d.input == f + rest
    ensures Iterate(d, Empty) ==
      Continue(d.(input := rest, ch := d.ch.(delivered := d.ch.delivered + [ParsePacket(f)])), Some(f))
  {
    assert d.input[..FrameSize] == f;
    assert d.input[FrameSize..] == rest;
  }

  /** Unsynchronised, marker-free bytes are skipped and the frame after them
      is decoded and sent. */
  lemma SyncStep(d: Driver, noise: seq<byte>, f: seq<byte>, rest: seq<byte>)
    requires d.needsSync && !d.isPaused && d.ch.capacity.None?
    requires forall i :: 0 <= i < |noise| ==> noise[i] != StartMarker
    requires |f| == FrameSize && HeaderOk(f) && d.input == noise + (f + rest)
    ensures Iterate(d, Empty) ==
      Continue(d.(needsSync := false, input := rest,
                  ch := d.ch.(delivered := d.ch.delivered + [ParsePacket(f)])), Some(f))
  {
    assert noise + (f + rest) == noise + f + rest;
    SyncSkipsNoise(noise, f, rest);
  }

  /** The first frame, and what follows it on the wire and in the output. */
  lemma FirstFrame(frames: seq<seq<byte>>, tail: seq<byte>, before: seq<Outbound>)
    requires GoodFrames(frames) && |frames| > 0
    ensures Concat(frames) + tail == frames[0] + (Concat(frames[1..]) + tail)
    ensures GoodFrames(frames[1..])
    ensures before + [ParsePacket(frames[0])] + Decoded(frames[1..]) == before + Decoded(frames)
  {
    var f, c := frames[0], Concat(frames[1..]);
    assert f + c + tail == f + (c + tail);
    var m, ms := [ParsePacket(frames[0])], Decoded(frames[1..]);
    assert before + m + ms == before + (m + ms);
  }

  /** Synchronised and running, a stream of well-framed frames is decoded
      frame by frame: one message per frame, 22 bytes per iteration. */
  lemma {:induction false} DecodesAlignedFrames(d: Driver, frames: seq<seq<byte>>, tail: seq<byte>, polls: seq<Poll>)
    requires !d.needsSync && !d.isPaused && d.ch.capacity.None?
    requires GoodFrames(frames) && d.input == Concat(frames) + tail
    requires Quiet(polls) && |polls| == |frames|
    ensures RunLoop(d, polls) ==
      RunResult(d.(input := tail, ch := d.ch.(delivered := d.ch.delivered + Decoded(frames))), false)
    decreases |frames|
  {
    if |frames| > 0 {
      var f := frames[0];
      var rest := Concat(frames[1..]) + tail;
      FirstFrame(frames, tail, d.ch.delivered);
      AlignedStep(d, f, rest);
      var next := d.(input := rest, ch := d.ch.(delivered := d.ch.delivered + [ParsePacket(f)]));
      RunLoopContinues(d, polls, next, Some(f));
      DecodesAlignedFrames(next, frames[1..], tail, polls[1..]);
    }
  }

  /** Unsynchronised and running: bytes without a marker before a run of
      well-framed frames are skipped, and every frame is then decoded. */
  lemma SyncThenDecode(d: Driver, noise: seq<byte>, frames: seq<seq<byte>>, tail: seq<byte>, polls: seq<Poll>)
    requires d.needsSync && !d.isPaused && d.ch.capacity.None?
    requires forall i :: 0 <= i < |noise| ==> noise[i] != StartMarker
    requires GoodFrames(frames) && |frames| > 0 && d.input == noise + (Concat(frames) + tail)
    requires Quiet(polls) && |polls| == |frames|
    ensures RunLoop(d, polls) ==
      RunResult(d.(needsSync := false, input := tail, ch := d.ch.(delivered := d.ch.delivered + Decoded(frames))), false)
  {
    var f := frames[0];
    var rest := Concat(frames[1..]) + tail;
    FirstFrame(frames, tail, d.ch.delivered);
    SyncStep(d, noise, f, rest);
    var next := d.(needsSync := false, input := rest, ch := d.ch.(delivered := d.ch.delivered + [ParsePacket(f)]));
    RunLoopContinues(d, polls, next, Some(f));
    DecodesAlignedFrames(next, frames[1..], tail, polls[1..]);
  }

  /** Synchronised, 22 bytes with a bad header are read, one `ResyncRequired`
      is sent and `needs_sync` is set again. */
  lemma ResyncStep(d: Driver, bad: seq<byte>, mid: seq<byte>)
    requires !d.needsSync && !d.isPaused && d.ch.capacity.None?
    requires |bad| == FrameSize && !HeaderOk(bad) && d.input == bad + mid
    ensures Iterate(d, Empty) ==
      Continue(d.(needsSync := true, input := mid,
                  ch := d.ch.(delivered := d.ch.delivered + [Err(ResyncRequired)])), None)
  {
    assert d.input[..FrameSize] == bad;
    assert d.input[FrameSize..] == mid;
  }

  /** A mis-framed 22 bytes while synchronised costs exactly one
      `ResyncRequired` and one resynchronisation: when marker-free bytes and
      well-framed frames follow, every one of those frames is decoded. */
  lemma RecoversAfterBadFrame(d: Driver, bad: seq<byte>, noise: seq<byte>, frames: seq<seq<byte>>, tail: seq<byte>, polls: seq<Poll>)
    requires !d.needsSync && !d.isPaused && d.ch.capacity.None?
    requires |bad| == FrameSize && !HeaderOk(bad)
    requires forall i :: 0 <= i < |noise| ==> noise[i] != StartMarker
    requires GoodFrames(frames) && |frames| > 0 && d.input == bad + (noise + (Concat(frames) + tail))
    requires Quiet(polls) && |polls| == 1 + |frames|
    ensures RunLoop(d, polls) ==
      RunResult(d.(input := tail, ch := d.ch.(delivered := d.ch.delivered + [Err(ResyncRequired)] + Decoded(frames))), false)
  {
    var mid := noise + (Concat(frames) + tail);
    ResyncStep(d, bad, mid);
    var next := d.(needsSync := true, input := mid,
                   ch := d.ch.(delivered := d.ch.delivered + [Err(ResyncRequired)]));
    RunLoopContinues(d, polls, next, None);
    SyncThenDecode(next, noise, frames, tail, polls[1..]);
  }
}
