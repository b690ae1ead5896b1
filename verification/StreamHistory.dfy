// What the runs of the stream owe to the history of playback states: order, catching up, and the
// states nobody ever holds.
module StreamHistory {
  import opened Bytes
  import opened Playback
  import opened InfoStream
  import opened StreamRuns

  // ---- the closed system ----

  predicate Clean(state: State) {
    !Finished(state)
  }

  predicate CleanWire(wire: WireState) {
    wire !in {WIRE_FINISHED, WIRE_FINISHED_ERROR}
  }

  // No component holds a finished state, and the receiver's two copies of the state agree.
  predicate NothingFinished(s: System) {
    && Clean(s.player) && Clean(s.playback) && (s.toReport.Some? ==> Clean(s.toReport.value))
    && (forall state | state in s.record.history :: Clean(state))
    && Clean(s.sender.newState) && Clean(s.sender.oldState) && CleanWire(s.sender.message.state)
    && (forall m | m in s.channel :: CleanWire(m.state))
    && Clean(s.receiver.currentState)
    && s.receiver.held == s.receiver.info.state == s.receiver.currentState
  }

  lemma ReceiveKeepsClean(s: System)
    requires NothingFinished(s) && s.channel != []
    ensures NothingFinished(Apply(s, Receive))
  {
    assert s.channel[0] in s.channel;
    assert forall m | m in s.channel[1..] :: m in s.channel;
  }

  lemma StepKeepsClean(s: System, step: Step)
    requires NothingFinished(s)
    ensures NothingFinished(Apply(s, step))
  {
    match step
    case PlayerSets(event, initial) =>
      assert StateOf(event, initial).Ok? && StateOf(event, initial).value.Some? ==>
          ByPlayer(StateOf(event, initial).value.value);
    case Receive =>
      if s.channel != [] {
        ReceiveKeepsClean(s);
      }
    case _ =>
  }

  // The player sets only PLAYING, PAUSED and STOPPED, so no component of the system ever holds
  // FINISHED or FINISHED_ERROR, and base_playback_info agrees with the PlaybackState object
  // between any two messages.
  lemma {:induction false} NeverFinished(s: System, steps: seq<Step>)
    requires Initial(s)
    ensures NothingFinished(Run(s, steps))
    decreases |steps|
  {
    if steps == [] {
      assert forall state | state in s.record.history :: ByPlayer(state) && Clean(state);
      assert s.playback == UNDEFINED || s.playback in s.record.history;
    } else {
      NeverFinished(s, steps[..|steps| - 1]);
      StepKeepsClean(Run(s, steps[..|steps| - 1]), steps[|steps| - 1]);
    }
  }

  // ---- order ----

  // xs is found in ys at these places, in order.
  ghost predicate EmbedsAt(xs: seq<State>, ys: seq<State>, at: seq<nat>) {
    && |xs| == |at|
    && (forall i | 0 <= i < |at| :: at[i] < |ys| && xs[i] == ys[at[i]])
    && (forall i, j | 0 <= i < j < |at| :: at[i] < at[j])
  }

  ghost predicate Embeds(xs: seq<State>, ys: seq<State>) {
    exists at :: EmbedsAt(xs, ys, at)
  }

  // The samples come from the history, in its order.
  predicate Samples(s: System) {
    && (forall state | state in s.record.history :: ByPlayer(state))
    && s.playback == LastOr(s.record.history, UNDEFINED)
    && (s.toReport.Some? ==> ByPlayer(s.toReport.value))
    && (s.record.sampledAt.Some? ==>
          && s.record.sampledAt.value < |s.record.history|
          && s.sender.newState == s.record.history[s.record.sampledAt.value])
    && (s.record.oldAt.Some? ==>
          && s.record.sampledAt.Some? && s.record.oldAt.value <= s.record.sampledAt.value
          && s.sender.oldState == s.record.history[s.record.oldAt.value])
  }

  // What the messages carry from the k-th on is at these places in the history.
  ghost predicate CarriedOk(written: seq<TimeInfo>, k: nat, history: seq<State>, at: seq<nat>) {
    k <= |written| && EmbedsAt(Carried(written[k..]), history, at)
  }

  // What the messages since the first sample carry, and where it is in the history.
  ghost predicate Ordered(s: System) {
    && (s.record.sampledAt.None? ==> s.record.skipped == |s.record.written| && s.record.carriedAt == [])
    && CarriedOk(s.record.written, s.record.skipped, s.record.history, s.record.carriedAt)
    && (s.record.carriedAt != [] ==>
          s.record.oldAt.Some? && LastAt(s.record.carriedAt) <= s.record.oldAt.value)
    && (s.place == Writing && s.record.sampledAt.Some? && s.sender.message.state != NOT_CHANGED ==>
          && FromWire(s.sender.message.state) == s.sender.newState
          && s.record.oldAt == s.record.sampledAt
          && (s.record.carriedAt != [] ==> LastAt(s.record.carriedAt) < s.record.sampledAt.value))
  }

  function LastAt(at: seq<nat>): nat {
    if at == [] then 0 else at[|at| - 1]
  }

  lemma CallbackKeepsSamples(s: System)
    requires Samples(s) && s.toReport.Some?
    ensures Samples(Apply(s, CallbackRuns))
  {
    var h := s.record.history + [s.toReport.value];
    assert forall state | state in h :: state in s.record.history || state == s.toReport.value;
  }

  lemma StepKeepsSamples(s: System, step: Step)
    requires Samples(s)
    ensures Samples(Apply(s, step))
  {
    match step
    case CallbackRuns =>
      if s.toReport.Some? {
        CallbackKeepsSamples(s);
      }
    case PlayerSets(event, initial) =>
      assert StateOf(event, initial).Ok? && StateOf(event, initial).value.Some? ==>
          ByPlayer(StateOf(event, initial).value.value);
    case _ =>
  }

  lemma EmbedsGrow(xs: seq<State>, ys: seq<State>, more: seq<State>, at: seq<nat>)
    requires EmbedsAt(xs, ys, at)
    ensures EmbedsAt(xs, ys + more, at)
  {
  }

  lemma EmbedsNext(xs: seq<State>, ys: seq<State>, at: seq<nat>, next: nat)
    requires EmbedsAt(xs, ys, at) && next < |ys| && (at != [] ==> LastAt(at) < next)
    ensures EmbedsAt(xs + [ys[next]], ys, at + [next])
  {
  }

  // One more message, which carries the state at place next of the history or none.
  lemma EmbedsWritten(written: seq<TimeInfo>, m: TimeInfo, k: nat, history: seq<State>, at: seq<nat>, next: nat)
    requires CarriedOk(written, k, history, at)
    requires m.state != NOT_CHANGED ==>
               next < |history| && FromWire(m.state) == history[next] && (at != [] ==> LastAt(at) < next)
    ensures CarriedOk(written + [m], k, history, at + if m.state != NOT_CHANGED then [next] else [])
  {
    assert (written + [m])[k..] == written[k..] + [m];
    CarriedSnoc(written[k..], m);
    if m.state != NOT_CHANGED {
      EmbedsNext(Carried(written[k..]), history, at, next);
    }
  }

  lemma NothingCarried(written: seq<TimeInfo>, history: seq<State>)
    ensures CarriedOk(written, |written|, history, [])
  {
  }

  lemma WriteAfterSample(s: System)
    requires Samples(s) && Ordered(s) && s.place == Writing && s.record.sampledAt.Some?
    ensures Ordered(Apply(s, Write(true)))
  {
    var r, m := s.record, s.sender.message;
    EmbedsWritten(r.written, m, r.skipped, r.history, r.carriedAt, r.sampledAt.value);
  }

  lemma WriteBeforeSample(s: System)
    requires Samples(s) && Ordered(s) && s.place == Writing && s.record.sampledAt.None?
    ensures Ordered(Apply(s, Write(true)))
  {
    NothingCarried(s.record.written + [s.sender.message], s.record.history);
  }

  lemma WriteKeepsOrdered(s: System)
    requires Samples(s) && Ordered(s) && s.place == Writing
    ensures Ordered(Apply(s, Write(true)))
  {
    if s.record.sampledAt.Some? {
      WriteAfterSample(s);
    } else {
      WriteBeforeSample(s);
    }
  }

  lemma BodyKeepsOrdered(s: System, got: Answers)
    requires Samples(s) && Ordered(s) && s.place == InBody
    ensures Ordered(Apply(s, Body(got)))
  {
    if s.record.sampledAt.Some? {
      assert ByPlayer(s.sender.newState);
    }
  }

  lemma StepKeepsOrdered(s: System, step: Step)
    requires Samples(s) && Ordered(s)
    ensures Ordered(Apply(s, step))
  {
    match step
    case Body(got) =>
      if s.place == InBody {
        BodyKeepsOrdered(s, got);
      }
    case Write(ok) =>
      if s.place == Writing && ok {
        WriteKeepsOrdered(s);
      }
    case CallbackRuns =>
      if s.toReport.Some? {
        EmbedsGrow(Carried(s.record.written[s.record.skipped..]), s.record.history, [s.toReport.value],
                   s.record.carriedAt);
      }
    case _ =>
  }

  lemma {:induction false} RunOrdered(s: System, steps: seq<Step>)
    requires Initial(s)
    ensures Samples(Run(s, steps)) && Ordered(Run(s, steps))
    decreases |steps|
  {
    if steps != [] {
      var before := Run(s, steps[..|steps| - 1]);
      RunOrdered(s, steps[..|steps| - 1]);
      StepKeepsSamples(before, steps[|steps| - 1]);
      StepKeepsOrdered(before, steps[|steps| - 1]);
    }
  }

  // The states carried by the messages written since the loop first sampled what the callback had
  // stored are found, in order, in the history of what the callback stored. Messages written
  // before that sample carry the player's own state.
  lemma CarriedStatesEmbed(s: System, steps: seq<Step>)
    requires Initial(s)
    ensures var t := Run(s, steps);
            && t.record.skipped <= |t.record.written|
            && Embeds(Carried(t.record.written[t.record.skipped..]), t.record.history)
  {
    RunOrdered(s, steps);
  }

  // Once there is a sample, the messages skipped stay the same ones.
  lemma {:induction false} SkippedStays(s: System, steps: seq<Step>)
    requires s.record.sampledAt.Some? && s.record.skipped <= |s.record.written|
    ensures var t := Run(s, steps);
            && t.record.sampledAt.Some? && t.record.skipped == s.record.skipped
            && s.record.written <= t.record.written
    decreases |steps|
  {
    if steps != [] {
      SkippedStays(s, steps[..|steps| - 1]);
      StepSkipsNothing(Run(s, steps[..|steps| - 1]), steps[|steps| - 1]);
    }
  }

  lemma StepSkipsNothing(s: System, step: Step)
    requires s.record.sampledAt.Some?
    ensures var t := Apply(s, step);
            && t.record.sampledAt.Some? && t.record.skipped == s.record.skipped
            && s.record.written <= t.record.written
  {
  }

  lemma {:induction false} CarriedAppend(first: seq<TimeInfo>, second: seq<TimeInfo>)
    ensures Carried(first + second) == Carried(first) + Carried(second)
  {
    if second == [] {
      assert first + second == first;
    } else {
      var init, m := second[..|second| - 1], second[|second| - 1];
      CarriedAppend(first, init);
      assert (first + second)[..|first + second| - 1] == first + init;
      Associate(Carried(first), Carried(init), if m.state == NOT_CHANGED then [] else [FromWire(m.state)]);
    }
  }

  lemma EmbedsSuffix(xs: seq<State>, more: seq<State>, ys: seq<State>, at: seq<nat>)
    requires EmbedsAt(xs + more, ys, at)
    ensures EmbedsAt(more, ys, at[|xs|..])
  {
    assert forall i | 0 <= i < |more| :: more[i] == (xs + more)[|xs| + i];
  }

  // The same seen from any end of the wait at which something had been stored: the states carried
  // by the messages written after it are found, in order, in the history.
  lemma CarriedSinceSample(s: System, steps: seq<Step>, more: seq<Step>)
    requires Initial(s)
    requires Run(s, steps).place == Waiting && Run(s, steps).record.history != []
    ensures var v := Apply(Run(s, steps), Wake);
            var u := Run(v, more);
            && v.record.written <= u.record.written
            && Embeds(Carried(u.record.written[|v.record.written|..]), u.record.history)
  {
    var v := Apply(Run(s, steps), Wake);
    WakeRun(s, steps);
    RunOrdered(s, steps + [Wake]);
    RunAppend(s, steps + [Wake], more);
    RunOrdered(s, steps + [Wake] + more);
    SkippedStays(v, more);
    var r := Run(v, more).record;
    CarriedSuffix(r.written, r.skipped, |v.record.written|, r.history, r.carriedAt);
  }

  lemma WakeRun(s: System, steps: seq<Step>)
    ensures Run(s, steps + [Wake]) == Apply(Run(s, steps), Wake)
  {
    assert (steps + [Wake])[..|steps|] == steps;
  }

  lemma CarriedSuffix(written: seq<TimeInfo>, k: nat, from: nat, history: seq<State>, at: seq<nat>)
    requires CarriedOk(written, k, history, at) && k <= from <= |written|
    ensures Embeds(Carried(written[from..]), history)
  {
    assert written[k..] == written[k..from] + written[from..];
    CarriedAppend(written[k..from], written[from..]);
    EmbedsSuffix(Carried(written[k..from]), Carried(written[from..]), history, at);
  }

  // ---- arriving ----

  lemma NeededSnoc(rounds: seq<Round>, last: Round)
    requires VolumesReadWhenNeeded(rounds) && last.volume.Ok?
    ensures VolumesReadWhenNeeded(rounds + [last])
  {
    var all := rounds + [last];
    forall k | 0 <= k < |all| ensures ReadsVolumeWhenNeeded(all, k) {
      if k < |rounds| {
        assert all[..k] == rounds[..k];
        assert ReadsVolumeWhenNeeded(rounds, k);
      }
    }
  }

  // The player sets a state, the callback stores it, the waiting loop wakes up and goes on.
  lemma EventIsSampled(s: System, event: Event, initial: bool)
    requires NothingFinished(s) && s.place == Waiting && s.toReport.None? && !s.closeStream
    requires StateOf(event, initial).Ok? && StateOf(event, initial).value.Some?
    ensures var state := StateOf(event, initial).value.value;
            var stored := Apply(Apply(s, PlayerSets(event, initial)), CallbackRuns);
            var t := Apply(Apply(stored, Wake), Top);
            && stored.player == stored.playback == state && stored.record.history == s.record.history + [state]
            && t.place == InBody && t.sender == Woken(s.sender, state)
            && t.receiver == s.receiver && t.channel == s.channel && t.record.rounds == s.record.rounds
  {
  }

  lemma SampledRefines(s: System, event: Event, initial: bool)
    requires Refines(s)
    ensures Refines(Apply(Apply(Apply(Apply(s, PlayerSets(event, initial)), CallbackRuns), Wake), Top))
  {
    var told := Apply(s, PlayerSets(event, initial));
    var stored := Apply(told, CallbackRuns);
    StepRefines(s, PlayerSets(event, initial));
    StepRefines(told, CallbackRuns);
    StepRefines(stored, Wake);
    StepRefines(Apply(stored, Wake), Top);
  }

  function AfterRound(s: System, times: Result<Times>, volume: int): System {
    Apply(Apply(Apply(s, Body(Answers(times, Ok(volume)))), Write(true)), Receive)
  }

  lemma RoundRefines(s: System, times: Result<Times>, volume: int)
    requires Refines(s)
    ensures Refines(AfterRound(s, times, volume))
  {
    var prepared := Apply(s, Body(Answers(times, Ok(volume))));
    var written := Apply(prepared, Write(true));
    StepRefines(s, Body(Answers(times, Ok(volume))));
    StepRefines(prepared, Write(true));
    StepRefines(written, Receive);
  }

  lemma RoundEnds(s: System, times: Result<Times>, volume: int)
    requires s.place == InBody && s.channel == []
    ensures var t := AfterRound(s, times, volume);
            && t.place == BeforeWait && t.channel == []
            && t.record.rounds == s.record.rounds + [Round(s.sender.newState, times, Ok(volume))]
  {
  }

  // What the last round means for the receiver when it was not lost and nothing before it was.
  lemma LastRoundShows(before: seq<Round>, last: Round)
    requires VolumesReadWhenNeeded(before) && last.volume.Ok? && last.state != UNDEFINED
    ensures var rounds := before + [last];
            && Announced(rounds) == last.state && LastVolume(rounds) == last.volume.value
            && (last.state == PLAYING && last.times.Ok? ==> LastTimes(rounds) == last.times.value)
  {
    var rounds := before + [last];
    assert rounds[..|before|] == before;
    NeededSnoc(before, last);
    LosesNothing(rounds);
  }

  lemma RoundArrives(s: System, times: Result<Times>, volume: int)
    requires Refines(s) && s.place == InBody && s.channel == [] && VolumesReadWhenNeeded(s.record.rounds)
    requires s.sender.newState != UNDEFINED
    ensures var t := AfterRound(s, times, volume);
            && t.receiver.info.state == s.sender.newState && t.receiver.info.volume == volume
            && (s.sender.newState == PLAYING && times.Ok? ==> Shows(t.receiver.info, times.value))
  {
    RoundRefines(s, times, volume);
    RoundEnds(s, times, volume);
    LastRoundShows(s.record.rounds, Round(s.sender.newState, times, Ok(volume)));
    assert Drained(AfterRound(s, times, volume)) == AfterRound(s, times, volume).receiver;
  }

  // From any point of a run at which the loop waits and nothing is in flight, an event of the
  // player is at the receiver after one more round, with the volume, and the times if it plays.
  lemma EventArrives(s: System, steps: seq<Step>, event: Event, initial: bool, times: Result<Times>, volume: int)
    requires Initial(s)
    requires var t := Run(s, steps);
             && t.place == Waiting && t.toReport.None? && !t.closeStream && t.channel == []
             && VolumesReadWhenNeeded(t.record.rounds)
    requires StateOf(event, initial).Ok? && StateOf(event, initial).value.Some?
    ensures var state := StateOf(event, initial).value.value;
            var stored := Apply(Apply(Run(s, steps), PlayerSets(event, initial)), CallbackRuns);
            var sampled := Apply(Apply(stored, Wake), Top);
            var info := AfterRound(sampled, times, volume).receiver.info;
            && stored.player == stored.playback == state
            && stored.record.history == Run(s, steps).record.history + [state]
            && info.state == state && info.volume == volume
            && (state == PLAYING && times.Ok? ==> Shows(info, times.value))
  {
    var t := Run(s, steps);
    RunRefines(s, steps);
    NeverFinished(s, steps);
    EventIsSampled(t, event, initial);
    var stored := Apply(Apply(t, PlayerSets(event, initial)), CallbackRuns);
    SampledRefines(t, event, initial);
    assert ByPlayer(StateOf(event, initial).value.value);
    RoundArrives(Apply(Apply(stored, Wake), Top), times, volume);
  }

  // ---- catching up ----

  // Since a moment with `since` completed rounds the callback has stored nothing. After one more
  // completed round the sender has sampled the last state; with the next body it has dealt with it.
  predicate CatchingUp(s: System, since: nat) {
    && since <= s.record.completed
    && s.record.history != [] && s.playback == LastOr(s.record.history, UNDEFINED)
    && (s.record.completed > since ==> s.sender.newState == s.playback)
    && (s.record.completed > since && s.place in {Writing, BeforeWait, Waiting} ==>
          StateBefore(s.record.rounds) == s.playback)
    && (s.record.completed > since + 1 ==> StateBefore(s.record.rounds) == s.playback)
  }

  lemma StepCatchesUp(s: System, step: Step, since: nat)
    requires CatchingUp(s, since) && Apply(s, step).record.history == s.record.history
    ensures CatchingUp(Apply(s, step), since)
  {
  }

  lemma StepHistoryGrows(s: System, step: Step)
    ensures s.record.history <= Apply(s, step).record.history
  {
  }

  lemma {:induction false} HistoryGrows(s: System, steps: seq<Step>)
    ensures s.record.history <= Run(s, steps).record.history
    decreases |steps|
  {
    if steps != [] {
      HistoryGrows(s, steps[..|steps| - 1]);
      StepHistoryGrows(Run(s, steps[..|steps| - 1]), steps[|steps| - 1]);
    }
  }

  lemma {:induction false} RunCatchesUp(s: System, steps: seq<Step>, since: nat)
    requires CatchingUp(s, since) && Run(s, steps).record.history == s.record.history
    ensures CatchingUp(Run(s, steps), since)
    decreases |steps|
  {
    if steps != [] {
      var init, last := steps[..|steps| - 1], steps[|steps| - 1];
      HistoryGrows(s, init);
      var before := Run(s, init);
      StepHistoryGrows(before, last);
      RunCatchesUp(s, init, since);
      StepCatchesUp(before, last, since);
    }
  }

  lemma LastRoundDefined(rounds: seq<Round>)
    requires StateBefore(rounds) != UNDEFINED
    ensures LastDefined(rounds) == StateBefore(rounds)
  {
  }

  // The loop has sampled since the moment with `since` completed rounds, and has been through the
  // body, up to the Write if there was one, with that sample.
  predicate HandledSample(s: System, since: nat) {
    || s.record.completed >= since + 2
    || (s.record.completed == since + 1 && s.place in {BeforeWait, Waiting})
  }

  // Once the callback has stopped storing states, one completion of the wait, which samples the
  // last state, the body after it, and an empty channel are enough: the receiver, its loop and its
  // PlaybackState object all hold the last state stored. The volume has to be read in the rounds
  // that bring a new state only.
  lemma ReceiverCatchesUp(s: System, steps: seq<Step>, more: seq<Step>)
    requires Initial(s)
    requires var t, u := Run(s, steps), Run(Run(s, steps), more);
             && t.record.history != [] && u.record.history == t.record.history
             && HandledSample(u, t.record.completed)
             && u.channel == [] && Settled(u)
             && VolumesReadWhenNeeded(u.record.rounds)
    ensures var u := Run(Run(s, steps), more);
            && u.receiver.info.state == u.receiver.currentState == u.receiver.held
            && u.receiver.info.state == u.record.history[|u.record.history| - 1]
  {
    var t, u := Run(s, steps), Run(Run(s, steps), more);
    RunOrdered(s, steps);
    RunCatchesUp(t, more, t.record.completed);
    RunAppend(s, steps, more);
    StreamRefinement(s, steps + more);
    NeverFinished(s, steps + more);
    RunOrdered(s, steps + more);
    assert u.record.history[|u.record.history| - 1] in u.record.history;
    LastRoundDefined(u.record.rounds);
    assert Drained(u) == u.receiver;
  }

  lemma {:induction false} RunAppend(s: System, first: seq<Step>, second: seq<Step>)
    ensures Run(s, first + second) == Run(Run(s, first), second)
    decreases |second|
  {
    if second == [] {
      assert first + second == first;
    } else {
      RunAppend(s, first, second[..|second| - 1]);
      assert (first + second)[..|first + second| - 1] == first + second[..|second| - 1];
    }
  }
}
