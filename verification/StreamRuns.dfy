// The whole stream as a step system: the player's thread, the sending loop split at its waits, its
// reader thread, the channel, the clock and the receiver, in any interleaving.
module StreamRuns {
  import opened Bytes
  import opened Playback
  import opened InfoStream

  // Where the sending loop is: at the while condition, in the body up to the Write, about to
  // Write, before the deadline is moved on, waiting, or past the loop.
  datatype Place = AtTop | InBody | Writing | BeforeWait | Waiting | Done

  // What the statements are about, kept on the side; no step depends on it.
  datatype Record = Record(
    rounds: seq<Round>,           // rounds finished or aborted
    written: seq<TimeInfo>,       // messages the Write accepted
    history: seq<State>,          // states the callback has stored, in order
    sampledAt: Option<nat>,       // where in history the loop's newState was sampled
    oldAt: Option<nat>,           // where in history its oldState was sampled
    skipped: nat,                 // messages written before the first sample
    carriedAt: seq<nat>,          // where in history the states carried since then are
    refused: bool,                // the last Write was not accepted
    writesAfterClose: nat,        // calls of Write since closeStream became true
    completed: nat,               // rounds that reached the end of their wait
    woken: nat)                   // those of them that ended before the deadline

  datatype System = System(
    player: State,                // Player's own PlaybackState object
    toReport: Option<State>,      // stored there, callback not run yet
    playback: State,              // playback_state_ of the service
    interval: int,
    readerDone: bool,
    closeStream: bool,
    place: Place,
    sender: Sender,
    now: int,
    channel: seq<TimeInfo>,
    receiver: Receiver,
    record: Record)

  datatype Step =
    | PlayerSets(event: Event, initial: bool)
    | CallbackRuns
    | ReaderReads(milliseconds: nat)
    | ReaderEnds
    | Top
    | Body(got: Answers)
    | Write(ok: bool)
    | MoveDeadline
    | Wake
    | Tick(passed: nat)
    | Receive

  function Apply(s: System, step: Step): System {
    match step
    case PlayerSets(event, initial) =>
      var next := StateOf(event, initial);
      if s.toReport.None? && next.Ok? && next.value.Some? then
        s.(player := Stored(s.player, next.value.value), toReport := next.value)
      else s
    case CallbackRuns =>
      if s.toReport.Some? then
        s.(playback := s.toReport.value, toReport := None,
           record := s.record.(history := s.record.history + [s.toReport.value]))
      else s
    case ReaderReads(milliseconds) =>
      if !s.readerDone then s.(interval := milliseconds) else s
    case ReaderEnds => s.(readerDone := true, closeStream := true)
    case Top =>
      if s.place != AtTop then s
      else if s.closeStream then s.(place := Done)
      else s.(place := InBody)
    case Body(got) =>
      if s.place != InBody then s
      else
        s.(place := match VerdictOn(s.sender, got)
                    case Aborted => AtTop
                    case Quiet => BeforeWait
                    case Send => Writing,
           sender := Prepared(s.sender, got),
           record := s.record.(rounds := AddRound(s.record.rounds, s.sender, got), oldAt := s.record.sampledAt))
    case Write(ok) =>
      if s.place != Writing then s
      else
        var counted := s.record.(writesAfterClose := s.record.writesAfterClose + if s.closeStream then 1 else 0);
        if !ok then s.(closeStream := true, place := Done, record := counted.(refused := true))
        else
          var m := s.sender.message;
          s.(place := BeforeWait, channel := s.channel + [m],
             record := counted.(
               written := s.record.written + [m],
               skipped := s.record.skipped + if s.record.sampledAt.None? then 1 else 0,
               carriedAt := s.record.carriedAt
                            + if s.record.sampledAt.Some? && m.state != NOT_CHANGED
                              then [s.record.sampledAt.value] else []))
    case MoveDeadline =>
      if s.place != BeforeWait then s
      else s.(place := Waiting, sender := MovedOn(s.sender, s.interval))
    case Wake =>
      // Timed out, notified or for no reason: all three end the wait.
      if s.place != Waiting then s
      else
        s.(place := AtTop, sender := Woken(s.sender, s.playback),
           record := s.record.(
             completed := s.record.completed + 1,
             woken := s.record.woken + if s.now < s.sender.deadline then 1 else 0,
             sampledAt := if s.record.history == [] then s.record.sampledAt
                          else Some(|s.record.history| - 1)))
    case Tick(passed) => s.(now := s.now + passed)
    case Receive =>
      if s.channel == [] then s
      else s.(channel := s.channel[1..], receiver := Received(s.receiver, s.channel[0]))
  }

  function Run(s: System, steps: seq<Step>): System
    decreases |steps|
  {
    if steps == [] then s else Apply(Run(s, steps[..|steps| - 1]), steps[|steps| - 1])
  }

  // A stream that has just been opened, at any point in the life of the service.
  predicate Initial(s: System) {
    && (forall state | state in s.record.history :: ByPlayer(state))
    && s.playback == LastOr(s.record.history, UNDEFINED)
    && ByPlayer(s.player) && (s.toReport.Some? ==> ByPlayer(s.toReport.value))
    && !s.readerDone && !s.closeStream && s.place == AtTop
    && ByPlayer(s.sender.newState) && s.sender == Started(s.sender.newState, s.now)
    && s.channel == [] && s.receiver == IDLE
    && s.record == Record([], [], s.record.history, None, None, 0, [], false, 0, 0, 0)
  }

  // ---- refinement ----

  // What the receiver will be once everything in flight has arrived.
  function Drained(s: System): Receiver {
    ReceivedAll(s.receiver, s.channel)
  }

  predicate Refines(s: System) {
    && Drained(s) == ReceivedAll(IDLE, s.record.written)
    && (s.place in {AtTop, InBody} ==> Tracks(s.sender, Drained(s), s.record.rounds))
    && (s.place == Writing ==>
          TracksMidway(s.sender, Received(Drained(s), s.sender.message), s.record.rounds))
    && (s.place in {BeforeWait, Waiting} ==> TracksMidway(s.sender, Drained(s), s.record.rounds))
    && (s.place == Done && !s.record.refused ==> Tracks(s.sender, Drained(s), s.record.rounds))
    && (s.place != Done ==> !s.record.refused)
  }

  lemma ReceiveKeepsDrained(s: System)
    requires s.channel != []
    ensures Drained(Apply(s, Receive)) == Drained(s)
  {
    assert s.channel == s.channel[..1] + s.channel[1..];
    ReceivedAppend(s.receiver, s.channel[..1], s.channel[1..]);
    assert ReceivedAll(s.receiver, s.channel[..1]) == Received(s.receiver, s.channel[0]) by {
      assert s.channel[..1][..0] == [];
    }
  }

  lemma StepRefines(s: System, step: Step)
    requires Refines(s)
    ensures Refines(Apply(s, step))
  {
    match step
    case Receive =>
      if s.channel != [] {
        ReceiveKeepsDrained(s);
      }
    case Body(got) =>
      if s.place == InBody {
        BodyRefines(s, got);
      }
    case Write(ok) =>
      if s.place == Writing && ok {
        var m := s.sender.message;
        ReceivedAppend(s.receiver, s.channel, [m]);
        ReceivedAppend(IDLE, s.record.written, [m]);
      }
    case MoveDeadline =>
      WokenTracksIf(s);
    case Wake =>
      WokenTracksIf(s);
    case _ =>
  }

  lemma BodyRefines(s: System, got: Answers)
    requires Refines(s) && s.place == InBody
    ensures Refines(Apply(s, Body(got)))
  {
    match VerdictOn(s.sender, got)
    case Aborted => AbortedTracks(s.sender, Drained(s), s.record.rounds, got);
    case Quiet => QuietTracks(s.sender, Drained(s), s.record.rounds, got);
    case Send => SendTracks(s.sender, Drained(s), s.record.rounds, got);
  }

  lemma WokenTracksIf(s: System)
    requires Refines(s)
    ensures s.place in {BeforeWait, Waiting} ==>
              && TracksMidway(MovedOn(s.sender, s.interval), Drained(s), s.record.rounds)
              && Tracks(Woken(s.sender, s.playback), Drained(s), s.record.rounds)
  {
    if s.place in {BeforeWait, Waiting} {
      WokenTracks(s.sender, Drained(s), s.record.rounds, s.interval, s.playback);
    }
  }

  lemma {:induction false} RunRefines(s: System, steps: seq<Step>)
    requires Initial(s)
    ensures Refines(Run(s, steps))
    decreases |steps|
  {
    if steps == [] {
      StartedTracks(s.sender.newState, s.now);
    } else {
      RunRefines(s, steps[..|steps| - 1]);
      StepRefines(Run(s, steps[..|steps| - 1]), steps[|steps| - 1]);
    }
  }

  // A round is not being written just now, and no Write was refused.
  predicate Settled(s: System) {
    s.place != Writing && !s.record.refused
  }

  // In every run, what the receiver makes of the messages written, whether delivered or in
  // flight, is the last volume read, the times of the last round sent, and the state of the last
  // round that changed to a state other than UNDEFINED and could read the volume. If the volume
  // could be read in every round that brought a new state, that is the last state other than
  // UNDEFINED: suppressed messages and NOT_CHANGED lose nothing.
  lemma StreamRefinement(s: System, steps: seq<Step>)
    requires Initial(s)
    ensures var t := Run(s, steps);
            var client := ReceivedAll(IDLE, t.record.written);
            && client == Drained(t)
            && (Settled(t) ==>
                  && client.info.volume == LastVolume(t.record.rounds)
                  && Shows(client.info, LastTimes(t.record.rounds))
                  && client.info.state == client.currentState == Announced(t.record.rounds))
            && (Settled(t) && VolumesReadWhenNeeded(t.record.rounds) ==>
                  client.info.state == LastDefined(t.record.rounds))
  {
    var t := Run(s, steps);
    RunRefines(s, steps);
    if VolumesReadWhenNeeded(t.record.rounds) {
      LosesNothing(t.record.rounds);
    }
  }

  // One failing read is enough to lose a state: the first state the server processes is not sent
  // when the volume cannot be read in its round, nor in the next one, which finds no change.
  lemma LostStateRun(s: System, times: Result<Times>)
    requires Initial(s) && s.sender.newState == STOPPED
    ensures var t := Run(Run(s, OneRound(times, Thrown)), OneRound(times, Ok(0)));
            && t.place == BeforeWait && t.record.written == []
            && Drained(t).info.state == UNDEFINED && LastDefined(t.record.rounds) == STOPPED
  {
    OneRoundRun(s, times, Thrown);
    var aborted := Run(s, OneRound(times, Thrown));
    OneRoundRun(aborted, times, Ok(0));
  }

  function OneRound(times: Result<Times>, volume: Result<int>): seq<Step> {
    [Top, Body(Answers(times, volume))]
  }

  lemma OneRoundRun(s: System, times: Result<Times>, volume: Result<int>)
    ensures Run(s, OneRound(times, volume)) == Apply(Apply(s, Top), Body(Answers(times, volume)))
  {
    var steps := OneRound(times, volume);
    assert steps[..1] == [Top] && [Top][..0] == [];
    assert Run(s, []) == s;
    assert Run(s, [Top]) == Apply(s, Top);
  }
}
