/** The driver's main loop (driver.rs `run`) as a pure step function.

    The serial port is the finite byte sequence it will still deliver; the
    command channel is the sequence of outcomes of the one `try_recv` made per
    iteration; the message channel is the sequence of messages the consumer
    has received. When the poll outcomes run out the loop is still running:
    the result then describes a prefix of an unfinished run. */
module Driver {
  import opened Wrappers
  import opened Bytes
  import opened Errors
  import opened Data
  import opened Messages
  import opened Packet
  import opened Synchronization

  /** One outcome of the non-blocking `try_recv` on the command channel. */
  datatype Poll = Received(command: Command) | Empty | Disconnected

  /** The consumer's end of the message channel: the messages it has received,
      and after how many messages it drops its receiver (`None`: never). */
  datatype Channel = Channel(delivered: seq<Outbound>, capacity: Option<nat>)
  {
    /** A send succeeds exactly while the receiver is alive. */
    predicate Open()
    {
      capacity.None? || |delivered| < capacity.value
    }

    /** The consumer never holds more messages than it accepts. */
    predicate Valid()
    {
      capacity.None? || |delivered| <= capacity.value
    }
  }

  /** `send_message`: the channel afterwards and whether the send succeeded.
      A send succeeds exactly while the receiver is alive, and then the
      consumer receives the message after all earlier ones; a failed send
      changes nothing. */
  function Send(ch: Channel, m: Outbound): (r: (Channel, bool))
    ensures r.1 <==> ch.Open()
    ensures r.0.capacity == ch.capacity
    ensures r.1 ==> r.0.delivered == ch.delivered + [m]
    ensures !r.1 ==> r.0 == ch
    ensures ch.Valid() ==> r.0.Valid()
  {
    if ch.Open() then (ch.(delivered := ch.delivered + [m]), true) else (ch, false)
  }

  /** The loop state: `needs_sync`, `is_paused`, the unread stream and the channel. */
  datatype Driver = Driver(needsSync: bool, isPaused: bool, input: seq<byte>, ch: Channel)

  /** The outcome of one iteration: go round again or break out of the loop.
      `decoded` is the frame handed to `parse_packet` in this iteration, if any. */
  datatype Step =
    | Continue(driver: Driver, decoded: Option<seq<byte>>)
    | Exit(driver: Driver, decoded: Option<seq<byte>>)

  /** A packet as the loop sends it: four consistent readings for one frame
      index, with angles below 360. */
  ghost predicate ScanPacket(p: Data.Packet)
  {
    && |p.readings| == ReadingsPerFrame
    && p.readings[0].index % 4 == 0
    && p.readings[0].index < 360
    && WellFormedPacket(p, p.readings[0].index / 4)
  }

  /** A message the loop itself may send before `Shutdown`: a packet, a
      checksum error for a frame index in 0..89, a resync request, or a read
      failure. */
  ghost predicate LoopMessage(m: Outbound)
  {
    if m.Ok? then
      m.value.PacketMessage? && ScanPacket(m.value.packet)
    else
      || (m.error.Checksum? && m.error.frameIndex < 90)
      || m.error == ResyncRequired
      || m.error == SerialRead
  }

  /** The iteration reads and decodes: the poll resumes or keeps it running. */
  predicate Active(d: Driver, poll: Poll)
  {
    poll == Received(Run) || (poll == Empty && !d.isPaused)
  }

  /** `after` is `before` with at most one message appended. */
  predicate AppendsAtMostOne(before: seq<Outbound>, after: seq<Outbound>)
  {
    |before| <= |after| <= |before| + 1 && after[..|before|] == before
  }

  lemma ParsedFrameIsLoopMessage(frame: seq<byte>)
    requires |frame| == FrameSize && HeaderOk(frame)
    ensures LoopMessage(ParsePacket(frame))
  {
    var k := frame[1] - FirstFrameNumber;
    var r := ParsePacket(frame);
    if r.Ok? {
      var p := r.value.packet;
      assert WellFormedPacket(p, k);
      assert p.readings[0].index == 4 * k;
      assert (4 * k) / 4 == k && (4 * k) % 4 == 0;
      assert ScanPacket(p);
    }
  }

  /** `is_paused` after the command received this iteration, if any. */
  function PausedAfter(isPaused: bool, poll: Poll): bool
  {
    match poll
    case Received(Run) => false
    case Received(Pause) => true
    case _ => isPaused
  }

  /** Sends the decoding of a frame that passed the header check. The loop
      goes on exactly when the consumer is still there to receive it; the
      stream and the loop flags are not touched. */
  function Publish(d: Driver, frame: seq<byte>): (s: Step)
    requires |frame| == FrameSize && HeaderOk(frame)
    ensures s.decoded == Some(frame) && s.driver.input == d.input
    ensures s.driver.needsSync == d.needsSync && s.driver.isPaused == d.isPaused
    ensures s.Continue? <==> d.ch.Open()
    ensures s.driver.ch.capacity == d.ch.capacity
    ensures d.ch.Open() ==> s.driver.ch.delivered == d.ch.delivered + [ParsePacket(frame)]
    ensures !d.ch.Open() ==> s.driver.ch == d.ch
    ensures d.ch.Valid() ==> s.driver.ch.Valid()
    ensures forall i :: |d.ch.delivered| <= i < |s.driver.ch.delivered| ==> LoopMessage(s.driver.ch.delivered[i])
  {
    ParsedFrameIsLoopMessage(frame);
    var (ch, ok) := Send(d.ch, ParsePacket(frame));
    if ok then Continue(d.(ch := ch), Some(frame)) else Exit(d.(ch := ch), Some(frame))
  }

  /** One iteration of the loop in `run`: poll for a command, then (unless
      paused) synchronise or read a frame, check its header, decode and send.
      It sends at most one message, and never `Shutdown`. */
  function Iterate(d: Driver, poll: Poll): (s: Step)
    ensures s.driver.ch.capacity == d.ch.capacity
    ensures d.ch.Valid() ==> s.driver.ch.Valid()
    ensures AppendsAtMostOne(d.ch.delivered, s.driver.ch.delivered)
    ensures forall i :: |d.ch.delivered| <= i < |s.driver.ch.delivered| ==> LoopMessage(s.driver.ch.delivered[i])
  {
    if poll == Received(Stop) || poll == Disconnected then
      Exit(d, None)
    else
      var paused := PausedAfter(d.isPaused, poll);
      var d := d.(isPaused := paused);
      if paused then
        Continue(d, None)
      else if d.needsSync then
        match Sync(d.input)
        case ReadFailed =>
          Exit(d.(input := [], ch := Send(d.ch, Err(SerialRead)).0), None)
        case Synced(frame, rest) =>
          ParsedFrameIsLoopMessage(frame);
          Publish(d.(needsSync := false, input := rest), frame)
      else if |d.input| < FrameSize then
        Exit(d.(input := [], ch := Send(d.ch, Err(SerialRead)).0), None)
      else
        var frame := d.input[..FrameSize];
        var d := d.(input := d.input[FrameSize..]);
        if !HeaderOk(frame) then
          var (ch, ok) := Send(d.ch, Err(ResyncRequired));
          if ok then Continue(d.(needsSync := true, ch := ch), None) else Exit(d.(ch := ch), None)
        else
          ParsedFrameIsLoopMessage(frame);
          Publish(d, frame)
  }

  /** `Stop`, or a dropped command sender, breaks out before any read. */
  lemma IterateStops(d: Driver, poll: Poll)
    requires poll == Received(Stop) || poll == Disconnected
    ensures Iterate(d, poll) == Exit(d, None)
  {
  }

  /** A paused iteration reads nothing and sends nothing. */
  lemma IteratePaused(d: Driver, poll: Poll)
    requires !Active(d, poll) && poll != Received(Stop) && poll != Disconnected
    ensures Iterate(d, poll) == Continue(d.(isPaused := true), None)
  {
  }

  /** Only frames with a good header reach the decoder, and what is sent is
      their decoding. */
  lemma IterateDecodesGoodHeaders(d: Driver, poll: Poll)
    ensures var s := Iterate(d, poll);
      s.decoded.Some? ==>
        && |s.decoded.value| == FrameSize && HeaderOk(s.decoded.value)
        && s.driver.ch == Send(d.ch, ParsePacket(s.decoded.value)).0
  {
  }

  /** Synchronised, exactly 22 bytes are read; they are decoded exactly when
      their header is good, and a bad header sends one `ResyncRequired` and
      sets `needs_sync` again. The loop is not paused afterwards. */
  lemma IterateSynchronised(d: Driver, poll: Poll)
    requires Active(d, poll) && !d.needsSync && |d.input| >= FrameSize
    ensures var s := Iterate(d, poll);
      && s.driver.input == d.input[FrameSize..]
      && !s.driver.isPaused
      && (HeaderOk(d.input[..FrameSize]) <==> s.decoded.Some?)
      && s.decoded == (if HeaderOk(d.input[..FrameSize]) then Some(d.input[..FrameSize]) else None)
      && (HeaderOk(d.input[..FrameSize]) ==>
            && s.driver.ch == Send(d.ch, ParsePacket(d.input[..FrameSize])).0
            && (s.Continue? <==> d.ch.Open())
            && !s.driver.needsSync)
      && (!HeaderOk(d.input[..FrameSize]) ==>
            && s.driver.ch == Send(d.ch, Err(ResyncRequired)).0
            && (s.Continue? <==> d.ch.Open())
            && (s.Continue? ==> s.driver.needsSync))
  {
  }

  /** Unsynchronised, a successful `sync` decodes the frame it found, leaves
      the stream after it, and clears `needs_sync`; the loop goes on exactly
      when the decoding could be sent. */
  lemma IterateSyncs(d: Driver, poll: Poll)
    requires Active(d, poll) && d.needsSync && Sync(d.input).Synced?
    ensures var s := Iterate(d, poll); var r := Sync(d.input);
      && s.decoded == Some(r.frame)
      && s.driver.input == r.rest
      && !s.driver.needsSync
      && !s.driver.isPaused
      && (s.Continue? <==> d.ch.Open())
      && s.driver.ch == Send(d.ch, ParsePacket(r.frame)).0
  {
  }

  /** Synchronised, a read that cannot be completed reports `SerialRead` and
      breaks out. */
  lemma IterateReadFails(d: Driver, poll: Poll)
    requires Active(d, poll) && !d.needsSync && |d.input| < FrameSize
    ensures Iterate(d, poll) ==
      Exit(d.(isPaused := false, input := [], ch := Send(d.ch, Err(SerialRead)).0), None)
  {
  }

  /** Unsynchronised, a read that fails inside `sync` reports `SerialRead`
      and breaks out. */
  lemma IterateSyncReadFails(d: Driver, poll: Poll)
    requires Active(d, poll) && d.needsSync && Sync(d.input).ReadFailed?
    ensures Iterate(d, poll) ==
      Exit(d.(isPaused := false, input := [], ch := Send(d.ch, Err(SerialRead)).0), None)
  {
  }

  /** Where `run` has got to: the final loop state, and whether it has left the
      loop (and attempted its final `Shutdown`). */
  datatype RunResult = RunResult(final: Driver, stopped: bool)

  /** The loop of `run` over a sequence of poll outcomes, one per iteration.
      It only ever appends to what the consumer has received, and never
      beyond what the consumer accepts. */
  function RunLoop(d: Driver, polls: seq<Poll>): (r: RunResult)
    ensures r.final.ch.capacity == d.ch.capacity
    ensures d.ch.Valid() ==> r.final.ch.Valid()
    ensures |d.ch.delivered| <= |r.final.ch.delivered|
    ensures r.final.ch.delivered[..|d.ch.delivered|] == d.ch.delivered
    decreases |polls|
  {
    if |polls| == 0 then
      RunResult(d, false)
    else
      match Iterate(d, polls[0])
      case Continue(next, _) => RunLoop(next, polls[1..])
      case Exit(last, _) => RunResult(last.(ch := Send(last.ch, Ok(Shutdown)).0), true)
  }

  /** Loop messages sent in one iteration, followed by loop messages sent
      later, make one run of loop messages. */
  lemma LoopMessagesExtend(a: seq<Outbound>, b: seq<Outbound>, c: seq<Outbound>, hi: int)
    requires |a| <= |b| <= |c| && hi <= |c| && c[..|b|] == b
    requires forall i :: |a| <= i < |b| ==> LoopMessage(b[i])
    requires forall i :: |b| <= i < hi ==> LoopMessage(c[i])
    ensures forall i :: |a| <= i < hi ==> LoopMessage(c[i])
  {
    forall i | |a| <= i < hi
      ensures LoopMessage(c[i])
    {
      if i < |b| {
        assert c[i] == c[..|b|][i];
      }
    }
  }

  /** Whatever the loop sends is a loop message, except possibly the last
      message of a loop that has been left. */
  lemma {:induction false} RunLoopMessages(d: Driver, polls: seq<Poll>)
    ensures var r := RunLoop(d, polls);
      forall i :: |d.ch.delivered| <= i < |r.final.ch.delivered| - 1 ==> LoopMessage(r.final.ch.delivered[i])
    ensures var r := RunLoop(d, polls);
      !r.stopped ==> forall i :: |d.ch.delivered| <= i < |r.final.ch.delivered| ==> LoopMessage(r.final.ch.delivered[i])
    ensures var r := RunLoop(d, polls);
      forall i :: |d.ch.delivered| <= i < |r.final.ch.delivered| ==>
        LoopMessage(r.final.ch.delivered[i]) || r.final.ch.delivered[i] == Ok(Shutdown)
    decreases |polls|
  {
    if |polls| > 0 {
      var s := Iterate(d, polls[0]);
      if s.Continue? {
        var r := RunLoop(s.driver, polls[1..]);
        assert RunLoop(d, polls) == r;
        var out := r.final.ch.delivered;
        RunLoopMessages(s.driver, polls[1..]);
        assert forall i :: |s.driver.ch.delivered| <= i < |out| - 1 ==> LoopMessage(out[i]);
        LoopMessagesExtend(d.ch.delivered, s.driver.ch.delivered, out, |out| - 1);
        if !r.stopped {
          LoopMessagesExtend(d.ch.delivered, s.driver.ch.delivered, out, |out|);
        }
        var n := |s.driver.ch.delivered|;
        forall i | |d.ch.delivered| <= i < |out|
          ensures LoopMessage(out[i]) || out[i] == Ok(Shutdown)
        {
          if i < n {
            assert out[i] == out[..n][i];
          }
        }
      } else {
        var last := s.driver.ch.delivered;
        var out := Send(s.driver.ch, Ok(Shutdown)).0.delivered;
        assert RunLoop(d, polls).final.ch.delivered == out;
        assert out == last || out == last + [Ok(Shutdown)];
        forall i | |d.ch.delivered| <= i < |out|
          ensures i < |out| - 1 ==> LoopMessage(out[i])
          ensures LoopMessage(out[i]) || out[i] == Ok(Shutdown)
        {
          if i < |last| {
            assert out[i] == last[i];
          }
        }
      }
    }
  }

  /** An iteration that continues hands the rest of the polls to the next one. */
  lemma RunLoopContinues(d: Driver, polls: seq<Poll>, next: Driver, decoded: Option<seq<byte>>)
    requires |polls| > 0 && Iterate(d, polls[0]) == Continue(next, decoded)
    ensures RunLoop(d, polls) == RunLoop(next, polls[1..])
  {
  }

  /** An iteration that breaks out ends the loop with one attempt to send
      `Shutdown`, which a consumer that never drops its receiver gets. */
  lemma RunLoopExits(d: Driver, polls: seq<Poll>, last: Driver, decoded: Option<seq<byte>>)
    requires |polls| > 0 && Iterate(d, polls[0]) == Exit(last, decoded)
    ensures RunLoop(d, polls) == RunResult(last.(ch := Send(last.ch, Ok(Shutdown)).0), true)
    ensures d.ch.capacity.None? ==>
      RunLoop(d, polls) == RunResult(last.(ch := last.ch.(delivered := last.ch.delivered + [Ok(Shutdown)])), true)
    ensures |last.ch.delivered| >= |d.ch.delivered|
  {
  }

  /** A loop that has been left attempts one final `Shutdown`: a consumer
      that still accepts messages gets it as its last message, and one that
      does not has received all it accepts. */
  lemma {:induction false} RunLoopShutdown(d: Driver, polls: seq<Poll>)
    ensures var r := RunLoop(d, polls); var out := r.final.ch.delivered;
      r.stopped ==>
        || (|out| > |d.ch.delivered| && out[|out| - 1] == Ok(Shutdown))
        || (d.ch.capacity.Some? && |out| >= d.ch.capacity.value)
    decreases |polls|
  {
    if |polls| > 0 {
      var s := Iterate(d, polls[0]);
      if s.Continue? {
        RunLoopContinues(d, polls, s.driver, s.decoded);
        RunLoopShutdown(s.driver, polls[1..]);
      } else {
        RunLoopExits(d, polls, s.driver, s.decoded);
      }
    }
  }

  /** The loop facts above, for a consumer that has received nothing yet. */
  lemma RunFromEmpty(d: Driver, polls: seq<Poll>)
    requires d.ch.delivered == []
    ensures var r := RunLoop(d, polls); var out := r.final.ch.delivered;
      && (forall i :: 0 <= i < |out| - 1 ==> LoopMessage(out[i]))
      && (!r.stopped ==> forall i :: 0 <= i < |out| ==> LoopMessage(out[i]))
      && (r.stopped ==> (|out| > 0 && out[|out| - 1] == Ok(Shutdown)) || d.ch.capacity == Some(|out|))
      && (forall i :: 0 <= i < |out| ==> LoopMessage(out[i]) || out[i] == Ok(Shutdown))
  {
    RunLoopMessages(d, polls);
    RunLoopShutdown(d, polls);
  }

  /** How opening the port, setting its timeout and configuring it turned out. */
  datatype PortSetup = PortReady | OpenFailed | SetTimeoutFailed | ConfigureFailed

  /** The error reported for a failed setup step. */
  function SetupError(setup: PortSetup): (e: DriverError)
    requires setup != PortReady
    ensures e == OpenSerialPort <==> setup == OpenFailed
    ensures e == SetTimeout <==> setup == SetTimeoutFailed
    ensures e == Configure <==> setup == ConfigureFailed
  {
    match setup
    case OpenFailed => OpenSerialPort
    case SetTimeoutFailed => SetTimeout
    case ConfigureFailed => Configure
  }

  /** What the consumer receives from one call of `run`, and whether `run` has
      returned by the time the poll outcomes are used up. */
  datatype Session = Session(messages: seq<Outbound>, returned: bool)

  /** The loop state `run` starts in: unsynchronised and not paused. */
  function InitialDriver(input: seq<byte>, capacity: Option<nat>): Driver
  {
    Driver(true, false, input, Channel([], capacity))
  }

  /** A failed setup step: its error is sent once (unless the consumer accepts
      nothing) and `run` returns without `Shutdown`. */
  function SetupFailure(setup: PortSetup, capacity: Option<nat>): (s: Session)
    requires setup != PortReady
    ensures s.returned
    ensures capacity.Some? ==> |s.messages| <= capacity.value
    ensures |s.messages| <= 1
    ensures forall i :: 0 <= i < |s.messages| ==> s.messages[i] == Err(SetupError(setup))
    ensures capacity != Some(0) ==> |s.messages| == 1
  {
    Session(Send(Channel([], capacity), Err(SetupError(setup))).0.delivered, true)
  }

  /** The loop of `run` from a state in which the consumer has received
      nothing: every message is a loop message except the last one of a
      finished run, which is `Shutdown` unless the consumer has dropped its
      receiver after all the messages it accepts. */
  function LoopSession(start: Driver, polls: seq<Poll>): (s: Session)
    requires start.ch.delivered == []
    ensures start.ch.capacity.Some? ==> |s.messages| <= start.ch.capacity.value
    ensures forall i :: 0 <= i < |s.messages| - 1 ==> LoopMessage(s.messages[i])
    ensures !s.returned ==> forall i :: 0 <= i < |s.messages| ==> LoopMessage(s.messages[i])
    ensures s.returned ==>
      (|s.messages| > 0 && s.messages[|s.messages| - 1] == Ok(Shutdown)) || start.ch.capacity == Some(|s.messages|)
    ensures forall i :: 0 <= i < |s.messages| ==> LoopMessage(s.messages[i]) || s.messages[i] == Ok(Shutdown)
  {
    var r := RunLoop(start, polls);
    RunFromEmpty(start, polls);
    Session(r.final.ch.delivered, r.stopped)
  }

  /** `run`: a failed setup step is reported once and `run` returns without
      `Shutdown`; otherwise every message is a loop message except the last
      one of a finished run, which is the single `Shutdown`. */
  function RunDriver(setup: PortSetup, input: seq<byte>, polls: seq<Poll>, capacity: Option<nat>): (s: Session)
    ensures capacity.Some? ==> |s.messages| <= capacity.value
    ensures setup != PortReady ==>
      && s.returned
      && |s.messages| <= 1
      && (forall i :: 0 <= i < |s.messages| ==> s.messages[i] == Err(SetupError(setup)))
      && (capacity != Some(0) ==> |s.messages| == 1)
    ensures setup == PortReady ==>
      forall i :: 0 <= i < |s.messages| - 1 ==> LoopMessage(s.messages[i])
    ensures setup == PortReady && !s.returned ==>
      forall i :: 0 <= i < |s.messages| ==> LoopMessage(s.messages[i])
    ensures setup == PortReady && s.returned ==>
      (|s.messages| > 0 && s.messages[|s.messages| - 1] == Ok(Shutdown)) || capacity == Some(|s.messages|)
    ensures setup == PortReady ==>
      forall i :: 0 <= i < |s.messages| ==> LoopMessage(s.messages[i]) || s.messages[i] == Ok(Shutdown)
  {
    if setup != PortReady then SetupFailure(setup, capacity) else LoopSession(InitialDriver(input, capacity), polls)
  }

  /** `LidarDriverMessage::Err` is never sent: every message `run` sends is a
      setup error, a loop message or `Shutdown`. */
  lemma ErrorMessageNeverSent(setup: PortSetup, input: seq<byte>, polls: seq<Poll>, capacity: Option<nat>)
    ensures var s := RunDriver(setup, input, polls, capacity);
      forall i :: 0 <= i < |s.messages| ==> !(s.messages[i].Ok? && s.messages[i].value.Error?)
  {
    var s := RunDriver(setup, input, polls, capacity);
    forall i | 0 <= i < |s.messages|
      ensures !(s.messages[i].Ok? && s.messages[i].value.Error?)
    {
      if setup == PortReady {
        assert LoopMessage(s.messages[i]) || s.messages[i] == Ok(Shutdown);
      } else {
        assert s.messages[i] == Err(SetupError(setup));
      }
    }
  }
}
