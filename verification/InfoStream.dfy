// The status stream, sender and receiver: the loop body of PlayerServiceImpl::TimeInfoStream and
// PlaybackSynchronizer. The server leaves messages out and sends NOT_CHANGED for the state.
module InfoStream {
  import opened Bytes
  import opened Playback

  // ---- messages ----

  datatype WireState =
    NOT_CHANGED | WIRE_PLAYING | WIRE_PAUSED | WIRE_STOPPED | WIRE_FINISHED | WIRE_FINISHED_ERROR

  datatype Times = Times(total: real, current: real, remaining: real, playtime: real)

  const CLEARED_TIMES := Times(0.0, 0.0, 0.0, 0.0)

  datatype TimeInfo = TimeInfo(state: WireState, times: Times, volume: int)

  // A message object nobody has set a field of.
  const FRESH := TimeInfo(NOT_CHANGED, CLEARED_TIMES, 0)

  // The switch of the sender; UNDEFINED leaves the field as it is.
  function ToWire(state: State, previous: WireState): WireState {
    match state
    case PLAYING => WIRE_PLAYING
    case PAUSED => WIRE_PAUSED
    case STOPPED => WIRE_STOPPED
    case FINISHED => WIRE_FINISHED
    case FINISHED_ERROR => WIRE_FINISHED_ERROR
    case UNDEFINED => previous
  }

  // The receiver's translation map.
  function FromWire(wire: WireState): State {
    match wire
    case NOT_CHANGED => UNDEFINED
    case WIRE_PLAYING => PLAYING
    case WIRE_PAUSED => PAUSED
    case WIRE_STOPPED => STOPPED
    case WIRE_FINISHED => FINISHED
    case WIRE_FINISHED_ERROR => FINISHED_ERROR
  }

  // The two tables are inverse to each other, and every state goes by its own name.
  lemma TablesAgree(state: State, wire: WireState, previous: WireState)
    ensures FromWire(WIRE_PLAYING) == PLAYING && FromWire(WIRE_PAUSED) == PAUSED && FromWire(WIRE_STOPPED) == STOPPED
    ensures ToWire(UNDEFINED, previous) == previous
    ensures FromWire(WIRE_FINISHED) == FINISHED && FromWire(WIRE_FINISHED_ERROR) == FINISHED_ERROR
    ensures state != UNDEFINED ==> FromWire(ToWire(state, previous)) == state
    ensures wire != NOT_CHANGED ==> ToWire(FromWire(wire), previous) == wire
    ensures ToWire(state, NOT_CHANGED) == NOT_CHANGED <==> state == UNDEFINED
  {
  }

  // ---- the sender ----

  // The variables the loop carries from one round to the next. The message object is reused.
  datatype Sender = Sender(
    message: TimeInfo, newState: State, oldState: State, newVolume: int, oldVolume: int, deadline: int)

  // The player's answers in one round; reading a property may throw.
  datatype Answers = Answers(times: Result<Times>, volume: Result<int>)

  datatype Verdict = Aborted | Quiet | Send

  function Started(state: State, now: int): Sender {
    Sender(FRESH, state, UNDEFINED, 0, 0, now)
  }

  predicate Changed(x: Sender) {
    x.newState != x.oldState
  }

  // The message after the state and time fields have been filled in.
  function FilledMessage(x: Sender, got: Answers): TimeInfo {
    TimeInfo(
      if Changed(x) then ToWire(x.newState, x.message.state) else NOT_CHANGED,
      if (x.newState == PLAYING || (x.newState == PAUSED && Changed(x))) && got.times.Ok?
      then got.times.value else CLEARED_TIMES,
      x.message.volume)
  }

  // The body up to the Write. When the volume cannot be read, the rest of the round is skipped,
  // although the old state has been overwritten already.
  function Prepared(x: Sender, got: Answers): Sender {
    var y := x.(message := FilledMessage(x, got), oldState := x.newState);
    match got.volume
    case Thrown => y
    case Ok(volume) => y.(message := y.message.(volume := volume), newVolume := volume)
  }

  function VerdictOn(x: Sender, got: Answers): Verdict {
    match got.volume
    case Thrown => Aborted
    case Ok(volume) =>
      if x.newState == PLAYING || Changed(x) || volume != x.oldVolume then Send else Quiet
  }

  // The rest of the round: the deadline moves on, then, after the wait, the state is sampled.
  function MovedOn(x: Sender, interval: int): Sender {
    x.(deadline := x.deadline + interval)
  }

  function Woken(x: Sender, sampled: State): Sender {
    x.(newState := sampled, oldVolume := x.newVolume)
  }

  // One time around the loop, as the player, the stream, the client and the callback answer it:
  // whether a Write is accepted, the interval asked for, the state sampled after the wait.
  datatype Turn = Turn(got: Answers, accepted: bool, interval: int, sampled: State)

  datatype Progress = Progress(sender: Sender, written: seq<TimeInfo>, refused: bool)

  function AfterTurn(p: Progress, turn: Turn): Progress {
    if p.refused then p
    else
      var x := Prepared(p.sender, turn.got);
      var done := Woken(MovedOn(x, turn.interval), turn.sampled);
      match VerdictOn(p.sender, turn.got)
      case Aborted => p.(sender := x)
      case Quiet => p.(sender := done)
      case Send =>
        if turn.accepted then Progress(done, p.written + [x.message], false)
        else p.(sender := x, refused := true)
  }

  function AfterTurns(p: Progress, turns: seq<Turn>): Progress {
    if turns == [] then p else AfterTurn(AfterTurns(p, turns[..|turns| - 1]), turns[|turns| - 1])
  }

  lemma AfterOneMore(p: Progress, turns: seq<Turn>, turn: Turn)
    ensures AfterTurns(p, turns + [turn]) == AfterTurn(AfterTurns(p, turns), turn)
  {
    assert (turns + [turn])[..|turns|] == turns;
  }

  // After a refused Write nothing happens.
  lemma {:induction false} StaysRefused(p: Progress, turns: seq<Turn>, k: nat)
    requires k <= |turns| && AfterTurns(p, turns[..k]).refused
    ensures AfterTurns(p, turns) == AfterTurns(p, turns[..k])
    decreases |turns|
  {
    if k == |turns| {
      assert turns[..k] == turns;
    } else {
      assert turns[..|turns| - 1][..k] == turns[..k];
      StaysRefused(p, turns[..|turns| - 1], k);
    }
  }

  class SendingLoop {
    var timeInfo: TimeInfo
    var newState: State
    var oldState: State
    var newVolume: int
    var oldVolume: int
    var time: int

    function Value(): Sender
      reads this
    {
      Sender(timeInfo, newState, oldState, newVolume, oldVolume, time)
    }

    constructor (state: State, now: int)
      ensures Value() == Started(state, now)
    {
      timeInfo := FRESH;
      newState := state;
      oldState := UNDEFINED;
      newVolume := 0;
      oldVolume := 0;
      time := now;
    }

    method Prepare(got: Answers) returns (verdict: Verdict)
      modifies this
      ensures Value() == Prepared(old(Value()), got)
      ensures verdict == VerdictOn(old(Value()), got)
    {
      var stateChanged := newState != oldState;
      if stateChanged {
        match newState {
          case PLAYING => timeInfo := timeInfo.(state := WIRE_PLAYING);
          case PAUSED => timeInfo := timeInfo.(state := WIRE_PAUSED);
          case STOPPED => timeInfo := timeInfo.(state := WIRE_STOPPED);
          case FINISHED => timeInfo := timeInfo.(state := WIRE_FINISHED);
          case FINISHED_ERROR => timeInfo := timeInfo.(state := WIRE_FINISHED_ERROR);
          case UNDEFINED =>
        }
        oldState := newState;
      } else {
        timeInfo := timeInfo.(state := NOT_CHANGED);
      }
      var clear := false;
      if newState == PLAYING || (newState == PAUSED && stateChanged) {
        if got.times.Ok? {
          timeInfo := timeInfo.(times := got.times.value);
        } else {
          clear := true;
        }
      } else {
        clear := true;
      }
      if clear {
        timeInfo := timeInfo.(times := CLEARED_TIMES);
      }
      if got.volume.Thrown? {
        return Aborted;
      }
      newVolume := got.volume.value;
      timeInfo := timeInfo.(volume := newVolume);
      var forceUpdate := stateChanged || newVolume != oldVolume;
      verdict := if newState == PLAYING || forceUpdate then Send else Quiet;
    }

    method MoveDeadline(interval: int)
      modifies this`time
      ensures Value() == MovedOn(old(Value()), interval)
    {
      time := time + interval;
    }

    method Wake(sampled: State)
      modifies this
      ensures Value() == Woken(old(Value()), sampled)
    {
      newState := sampled;
      oldVolume := newVolume;
    }

    // The loop, until a Write is refused or the reader has set close_stream, which is when the
    // turns are used up.
    method TimeInfoStream(turns: seq<Turn>) returns (written: seq<TimeInfo>, closeStream: bool)
      modifies this
      ensures Progress(Value(), written, closeStream) == AfterTurns(Progress(old(Value()), [], false), turns)
    {
      written, closeStream := [], false;
      ghost var start := Progress(Value(), [], false);
      var i := 0;
      while !closeStream && i < |turns|
        invariant i <= |turns|
        invariant Progress(Value(), written, closeStream) == AfterTurns(start, turns[..i])
      {
        var turn := turns[i];
        AfterOneMore(start, turns[..i], turn);
        assert turns[..i + 1] == turns[..i] + [turn];
        i := i + 1;
        var verdict := Prepare(turn.got);
        if verdict == Aborted {
          continue;
        }
        if verdict == Send {
          if !turn.accepted {
            closeStream := true;
            break;
          }
          written := written + [timeInfo];
        }
        MoveDeadline(turn.interval);
        Wake(turn.sampled);
      }
      StaysRefusedIf(start, turns, i);
    }
  }

  lemma StaysRefusedIf(p: Progress, turns: seq<Turn>, k: nat)
    requires k <= |turns| && (k == |turns| || AfterTurns(p, turns[..k]).refused)
    ensures AfterTurns(p, turns) == AfterTurns(p, turns[..k])
  {
    if k == |turns| {
      assert turns[..k] == turns;
    } else {
      StaysRefused(p, turns, k);
    }
  }

  // ---- the receiver ----

  // base_playback_info, as far as the stream feeds it.
  datatype Info = Info(state: State, volume: int, total: real, elapsed: real, remaining: real)

  // currentState lives as long as one stream; held is the state of the PlaybackState object.
  datatype Receiver = Receiver(currentState: State, info: Info, held: State)

  const IDLE := Receiver(UNDEFINED, Info(UNDEFINED, 0, 0.0, 0.0, 0.0), UNDEFINED)

  function Received(r: Receiver, m: TimeInfo): Receiver {
    var current := if m.state != NOT_CHANGED then FromWire(m.state) else r.currentState;
    Receiver(
      current,
      Info(current, m.volume, m.times.total, m.times.current, m.times.remaining),
      if m.state != NOT_CHANGED then Stored(r.held, current) else r.held)
  }

  function ReceivedAll(r: Receiver, messages: seq<TimeInfo>): Receiver {
    if messages == [] then r
    else Received(ReceivedAll(r, messages[..|messages| - 1]), messages[|messages| - 1])
  }

  lemma {:induction false} ReceivedAppend(r: Receiver, first: seq<TimeInfo>, second: seq<TimeInfo>)
    ensures ReceivedAll(r, first + second) == ReceivedAll(ReceivedAll(r, first), second)
  {
    if second == [] {
      assert first + second == first;
    } else {
      var init := second[..|second| - 1];
      ReceivedAppend(r, first, init);
      assert (first + second)[..|first + second| - 1] == first + init;
    }
  }

  // The states a series of messages carries.
  function Carried(messages: seq<TimeInfo>): seq<State> {
    if messages == [] then []
    else
      var m := messages[|messages| - 1];
      Carried(messages[..|messages| - 1]) + if m.state == NOT_CHANGED then [] else [FromWire(m.state)]
  }

  lemma CarriedSnoc(messages: seq<TimeInfo>, m: TimeInfo)
    ensures Carried(messages + [m])
            == Carried(messages) + if m.state == NOT_CHANGED then [] else [FromWire(m.state)]
  {
    assert (messages + [m])[..|messages|] == messages;
  }

  lemma Associate(a: seq<State>, b: seq<State>, c: seq<State>)
    ensures a + (b + c) == a + b + c
  {
  }

  lemma OneMoreHeard(notified: seq<State>, messages: seq<TimeInfo>, i: nat)
    requires i < |messages|
    ensures var m := messages[i];
            notified + Carried(messages[..i + 1])
            == notified + Carried(messages[..i]) + if m.state == NOT_CHANGED then [] else [FromWire(m.state)]
  {
    assert messages[..i + 1] == messages[..i] + [messages[i]];
    CarriedSnoc(messages[..i], messages[i]);
    Associate(notified, Carried(messages[..i]),
              if messages[i].state == NOT_CHANGED then [] else [FromWire(messages[i].state)]);
  }

  class PlaybackSynchronizer {
    var info: Info
    var lastUpdate: real
    const playbackState: PlaybackState

    constructor (playbackState: PlaybackState)
      ensures info == IDLE.info && this.playbackState == playbackState
    {
      info := IDLE.info;
      lastUpdate := 0.0;
      this.playbackState := playbackState;
    }

    // The read loop over one stream; the clock gives the time of each update. The callback hears of
    // the states the messages carry, in order, and of nothing else.
    method ContinuousUpdate(messages: seq<TimeInfo>, clock: nat -> real) returns (ghost end: Receiver)
      modifies this, playbackState
      ensures end == ReceivedAll(Receiver(UNDEFINED, old(info), old(playbackState.state)), messages)
      ensures info == end.info && playbackState.state == end.held
      ensures lastUpdate == if messages == [] then old(lastUpdate) else clock(|messages| - 1)
      ensures playbackState.hasCallback == old(playbackState.hasCallback)
      ensures playbackState.notified == if playbackState.hasCallback
                                        then old(playbackState.notified) + Carried(messages)
                                        else old(playbackState.notified)
    {
      var currentState := UNDEFINED;
      var stateChanged := false;
      ghost var start := Receiver(UNDEFINED, info, playbackState.state);
      ghost var heard := playbackState.notified;
      var i := 0;
      while i < |messages|
        invariant i <= |messages|
        invariant ReceivedAll(start, messages[..i]) == Receiver(currentState, info, playbackState.state)
        invariant lastUpdate == if i == 0 then old(lastUpdate) else clock(i - 1)
        invariant playbackState.hasCallback == old(playbackState.hasCallback)
        invariant playbackState.notified == if playbackState.hasCallback then heard else old(playbackState.notified)
        invariant heard == old(playbackState.notified) + Carried(messages[..i])
      {
        var timeInfo := messages[i];
        if timeInfo.state != NOT_CHANGED {
          stateChanged := true;
          currentState := FromWire(timeInfo.state);
        } else {
          stateChanged := false;
        }
        lastUpdate := clock(i);
        info := info.(state := currentState);
        info := info.(volume := timeInfo.volume);
        info := info.(total := timeInfo.times.total);
        info := info.(elapsed := timeInfo.times.current);
        info := info.(remaining := timeInfo.times.remaining);
        if stateChanged {
          playbackState.SetState(currentState);
        }
        OneMoreHeard(old(playbackState.notified), messages, i);
        heard := heard + if stateChanged then [currentState] else [];
        i := i + 1;
        assert messages[..i][..i - 1] == messages[..i - 1];
      }
      assert messages[..i] == messages;
      end := ReceivedAll(start, messages);
    }

    // While playing, the times move on with the clock; what has elapsed and what remains always
    // add up to what the last message said.
    method GetPlaybackInfo(now: real) returns (result: Info)
      ensures result.elapsed + result.remaining == info.elapsed + info.remaining
      ensures result.elapsed == if info.state == PLAYING then info.elapsed + (now - lastUpdate) else info.elapsed
      ensures result.state == info.state && result.volume == info.volume && result.total == info.total
    {
      result := Info(info.state, info.volume, info.total, 0.0, 0.0);
      if info.state == PLAYING {
        var timeDifference := now - lastUpdate;
        result := result.(elapsed := info.elapsed + timeDifference);
        result := result.(remaining := info.remaining - timeDifference);
      } else {
        result := result.(elapsed := info.elapsed);
        result := result.(remaining := info.remaining);
      }
    }
  }

  // ---- refinement: what the receiver knows ----

  // One finished or aborted round as the server saw it.
  datatype Round = Round(state: State, times: Result<Times>, volume: Result<int>)

  // The state round i took over from, UNDEFINED for the first one.
  function StateBefore(rounds: seq<Round>): State {
    if rounds == [] then UNDEFINED else rounds[|rounds| - 1].state
  }

  // The last state other than UNDEFINED the server processed.
  function LastDefined(rounds: seq<Round>): State {
    if rounds == [] then UNDEFINED
    else if rounds[|rounds| - 1].state != UNDEFINED then rounds[|rounds| - 1].state
    else LastDefined(rounds[..|rounds| - 1])
  }

  // The last volume the server read.
  function LastVolume(rounds: seq<Round>): int {
    if rounds == [] then 0
    else if rounds[|rounds| - 1].volume.Ok? then rounds[|rounds| - 1].volume.value
    else LastVolume(rounds[..|rounds| - 1])
  }

  // The state of the last round that changed to a state other than UNDEFINED and could read the
  // volume.
  function Announced(rounds: seq<Round>): State {
    if rounds == [] then UNDEFINED
    else
      var init, last := rounds[..|rounds| - 1], rounds[|rounds| - 1];
      if last.state != UNDEFINED && last.state != StateBefore(init) && last.volume.Ok? then last.state
      else Announced(init)
  }

  // A round is sent when the volume can be read and it plays or brings something new.
  predicate Sent(before: seq<Round>, round: Round) {
    && round.volume.Ok?
    && (round.state == PLAYING || round.state != StateBefore(before) || round.volume.value != LastVolume(before))
  }

  // The times of the last round sent, if it was playing or had just been paused and they could be
  // read.
  function LastTimes(rounds: seq<Round>): Times {
    if rounds == [] then CLEARED_TIMES
    else
      var init, last := rounds[..|rounds| - 1], rounds[|rounds| - 1];
      if !Sent(init, last) then LastTimes(init)
      else if (last.state == PLAYING || (last.state == PAUSED && last.state != StateBefore(init))) && last.times.Ok?
      then last.times.value
      else CLEARED_TIMES
  }

  predicate Shows(info: Info, times: Times) {
    info.total == times.total && info.elapsed == times.current && info.remaining == times.remaining
  }

  // The receiver, once everything written has arrived, against a sender about to start a round.
  predicate Tracks(x: Sender, r: Receiver, rounds: seq<Round>) {
    && r.currentState == r.info.state == Announced(rounds) && Shows(r.info, LastTimes(rounds))
    && r.info.volume == x.oldVolume == x.newVolume == LastVolume(rounds)
    && x.oldState == StateBefore(rounds)
    && (x.message.state == NOT_CHANGED || FromWire(x.message.state) == Announced(rounds) || !Changed(x))
  }

  // The same between the Write and the wait; the round is part of rounds already.
  predicate TracksMidway(x: Sender, r: Receiver, rounds: seq<Round>) {
    && r.currentState == r.info.state == Announced(rounds) && Shows(r.info, LastTimes(rounds))
    && r.info.volume == x.newVolume == LastVolume(rounds)
    && x.oldState == x.newState == StateBefore(rounds)
    && (x.message.state == NOT_CHANGED || FromWire(x.message.state) == Announced(rounds))
  }

  lemma StartedTracks(state: State, now: int)
    ensures Tracks(Started(state, now), IDLE, [])
  {
  }

  function AddRound(rounds: seq<Round>, x: Sender, got: Answers): seq<Round> {
    rounds + [Round(x.newState, got.times, got.volume)]
  }

  // An aborted round writes nothing, and the receiver loses nothing but that round's change.
  lemma AbortedTracks(x: Sender, r: Receiver, rounds: seq<Round>, got: Answers)
    requires Tracks(x, r, rounds) && VerdictOn(x, got) == Aborted
    ensures Tracks(Prepared(x, got), r, AddRound(rounds, x, got))
  {
    assert AddRound(rounds, x, got)[..|rounds|] == rounds;
  }

  // A round that keeps quiet had nothing to tell.
  lemma QuietTracks(x: Sender, r: Receiver, rounds: seq<Round>, got: Answers)
    requires Tracks(x, r, rounds) && VerdictOn(x, got) == Quiet
    ensures TracksMidway(Prepared(x, got), r, AddRound(rounds, x, got))
  {
    assert AddRound(rounds, x, got)[..|rounds|] == rounds;
  }

  // A message brings the receiver up to date.
  lemma SendTracks(x: Sender, r: Receiver, rounds: seq<Round>, got: Answers)
    requires Tracks(x, r, rounds) && VerdictOn(x, got) == Send
    ensures TracksMidway(Prepared(x, got), Received(r, Prepared(x, got).message), AddRound(rounds, x, got))
  {
    assert AddRound(rounds, x, got)[..|rounds|] == rounds;
    TablesAgree(x.newState, NOT_CHANGED, x.message.state);
  }

  lemma WokenTracks(x: Sender, r: Receiver, rounds: seq<Round>, interval: int, sampled: State)
    requires TracksMidway(x, r, rounds)
    ensures TracksMidway(MovedOn(x, interval), r, rounds)
    ensures Tracks(Woken(x, sampled), r, rounds)
  {
  }

  // When every volume read succeeds, what was announced is the last state other than UNDEFINED.
  lemma {:induction false} NothingLost(rounds: seq<Round>)
    requires forall i | 0 <= i < |rounds| :: rounds[i].volume.Ok?
    ensures Announced(rounds) == LastDefined(rounds)
  {
    if rounds != [] {
      var init := rounds[..|rounds| - 1];
      NothingLost(init);
    }
  }

  // The receiver's state is right after k rounds.
  predicate Faithful(rounds: seq<Round>, k: nat)
    requires k <= |rounds|
  {
    Announced(rounds[..k]) == LastDefined(rounds[..k])
  }

  // Round k does not both bring a new state other than the last defined one and fail to read the
  // volume.
  predicate ReadsVolumeWhenNeeded(rounds: seq<Round>, k: nat)
    requires k < |rounds|
  {
    rounds[k].state != UNDEFINED && rounds[k].state != LastDefined(rounds[..k]) ==> rounds[k].volume.Ok?
  }

  predicate VolumesReadWhenNeeded(rounds: seq<Round>) {
    forall k | 0 <= k < |rounds| :: ReadsVolumeWhenNeeded(rounds, k)
  }

  // Without that hypothesis: the receiver is right after every round exactly when the volume can
  // be read in every round that brings a state other than the last defined one.
  lemma FaithfulExactly(rounds: seq<Round>)
    ensures (forall k | 0 <= k <= |rounds| :: Faithful(rounds, k)) <==> VolumesReadWhenNeeded(rounds)
  {
    assert rounds[..0] == [];
    if forall k | 0 <= k <= |rounds| :: Faithful(rounds, k) {
      forall k | 0 <= k < |rounds| ensures ReadsVolumeWhenNeeded(rounds, k) {
        FaithfulNext(rounds, k);
        assert Faithful(rounds, k) && Faithful(rounds, k + 1);
      }
    }
    if VolumesReadWhenNeeded(rounds) {
      forall k | 0 <= k <= |rounds| ensures Faithful(rounds, k) {
        FaithfulUpTo(rounds, k);
      }
    }
  }

  lemma LosesNothing(rounds: seq<Round>)
    requires VolumesReadWhenNeeded(rounds)
    ensures Announced(rounds) == LastDefined(rounds)
  {
    FaithfulUpTo(rounds, |rounds|);
    assert rounds[..|rounds|] == rounds;
  }

  lemma FaithfulNext(rounds: seq<Round>, k: nat)
    requires k < |rounds| && Faithful(rounds, k)
    ensures Faithful(rounds, k + 1) <==> ReadsVolumeWhenNeeded(rounds, k)
  {
    assert rounds[..k + 1][..k] == rounds[..k] && rounds[..k + 1][k] == rounds[k];
    if rounds[k].state != UNDEFINED && rounds[k].state == StateBefore(rounds[..k]) {
      assert LastDefined(rounds[..k]) == rounds[k].state;
    }
  }

  lemma {:induction false} FaithfulUpTo(rounds: seq<Round>, k: nat)
    requires k <= |rounds| && VolumesReadWhenNeeded(rounds)
    ensures Faithful(rounds, k)
  {
    if k == 0 {
      assert rounds[..0] == [];
    } else {
      FaithfulUpTo(rounds, k - 1);
      FaithfulNext(rounds, k - 1);
    }
  }
}
