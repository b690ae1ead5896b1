// PlaybackState.cpp and the event loop of Player.cpp, the only source of playback states.
module Playback {
  import opened Bytes

  datatype State = UNDEFINED | PLAYING | PAUSED | STOPPED | FINISHED | FINISHED_ERROR

  // The state SetState stores. The test is on the state held so far, not on the new one.
  function Stored(held: State, newState: State): State {
    if Finished(held) then STOPPED else newState
  }

  // The state held after a series of SetState calls.
  function HeldAfter(held: State, states: seq<State>): State {
    if states == [] then held
    else Stored(HeldAfter(held, states[..|states| - 1]), states[|states| - 1])
  }

  class PlaybackState {
    var state: State
    // Whether a callback is registered, and what it has been called with.
    var hasCallback: bool
    var notified: seq<State>

    constructor (initial: State)
      ensures state == initial && !hasCallback && notified == []
    {
      state := initial;
      hasCallback := false;
      notified := [];
    }

    method SetState(newState: State)
      modifies this
      ensures state == Stored(old(state), newState)
      ensures state == if old(state) in {FINISHED, FINISHED_ERROR} then STOPPED else newState
      ensures hasCallback == old(hasCallback)
      ensures notified == if hasCallback then old(notified) + [newState] else old(notified)
    {
      if state == FINISHED || state == FINISHED_ERROR {
        state := STOPPED;
      } else {
        state := newState;
      }
      if hasCallback {
        notified := notified + [newState];
      }
    }
  }

  predicate Finished(state: State) {
    state in {FINISHED, FINISHED_ERROR}
  }

  // The header promises that a finished state is never held, only reported to the callback. The
  // code keeps that promise exactly as long as nobody sets a finished state.
  lemma NeverHoldsFinishedExactly(held: State, states: seq<State>)
    requires !Finished(held)
    ensures (forall k | 0 <= k <= |states| :: !Finished(HeldAfter(held, states[..k]))) <==>
            (forall k | 0 <= k < |states| :: !Finished(states[k]))
  {
    if forall k | 0 <= k <= |states| :: !Finished(HeldAfter(held, states[..k])) {
      forall k | 0 <= k < |states| ensures !Finished(states[k]) {
        NextHeld(held, states, k);
        assert !Finished(HeldAfter(held, states[..k + 1]));
      }
    }
    if forall k | 0 <= k < |states| :: !Finished(states[k]) {
      forall k | 0 <= k <= |states| ensures !Finished(HeldAfter(held, states[..k])) {
        UnfinishedUpTo(held, states, k);
      }
    }
  }

  lemma NextHeld(held: State, states: seq<State>, k: nat)
    requires k < |states|
    ensures HeldAfter(held, states[..k + 1]) == Stored(HeldAfter(held, states[..k]), states[k])
  {
    assert states[..k + 1][..k] == states[..k] && states[..k + 1][k] == states[k];
  }

  lemma {:induction false} UnfinishedUpTo(held: State, states: seq<State>, k: nat)
    requires k <= |states| && !Finished(held)
    requires forall j | 0 <= j < |states| :: !Finished(states[j])
    ensures !Finished(HeldAfter(held, states[..k]))
  {
    if k > 0 {
      UnfinishedUpTo(held, states, k - 1);
      NextHeld(held, states, k - 1);
    }
  }

  // The state held after the k-th call is the one that call set.
  predicate HoldsLast(held: State, states: seq<State>, k: nat)
    requires 0 < k <= |states|
  {
    HeldAfter(held, states[..k]) == states[k - 1]
  }

  // If FINISHED or FINISHED_ERROR came before call k, call k sets STOPPED.
  predicate StopsAfterFinish(held: State, states: seq<State>, k: nat)
    requires k < |states|
  {
    Finished(if k == 0 then held else states[k - 1]) ==> states[k] == STOPPED
  }

  // The state held is the one set last at every point of a series of calls exactly when every
  // call that comes upon FINISHED or FINISHED_ERROR sets STOPPED.
  lemma HoldsLastExactly(held: State, states: seq<State>)
    ensures (forall k | 0 < k <= |states| :: HoldsLast(held, states, k)) <==>
            (forall k | 0 <= k < |states| :: StopsAfterFinish(held, states, k))
  {
    if forall k | 0 < k <= |states| :: HoldsLast(held, states, k) {
      forall k | 0 <= k < |states| ensures StopsAfterFinish(held, states, k) {
        NextHoldsLast(held, states, k);
      }
    }
    if forall k | 0 <= k < |states| :: StopsAfterFinish(held, states, k) {
      forall k | 0 < k <= |states| ensures HoldsLast(held, states, k) {
        HoldsLastUpTo(held, states, k);
      }
    }
  }

  lemma NextHoldsLast(held: State, states: seq<State>, k: nat)
    requires k < |states| && (k == 0 || HoldsLast(held, states, k))
    ensures HoldsLast(held, states, k + 1) <==> StopsAfterFinish(held, states, k)
  {
    NextHeld(held, states, k);
    assert k == 0 ==> states[..k] == [];
  }

  lemma {:induction false} HoldsLastUpTo(held: State, states: seq<State>, k: nat)
    requires 0 < k <= |states|
    requires forall j | 0 <= j < |states| :: StopsAfterFinish(held, states, j)
    ensures HoldsLast(held, states, k)
  {
    if k > 1 {
      HoldsLastUpTo(held, states, k - 1);
    }
    NextHoldsLast(held, states, k - 1);
  }

  // What PlaybackState.h promises of SetState.
  function Documented(newState: State): State {
    if Finished(newState) then STOPPED else newState
  }

  // After the k-th call the state held is the documented one.
  predicate HoldsDocumented(held: State, states: seq<State>, k: nat)
    requires 0 < k <= |states|
  {
    HeldAfter(held, states[..k]) == Documented(states[k - 1])
  }

  // One call stores the documented state exactly when it sets no finished state, or comes upon
  // one and sets STOPPED or another finished state.
  lemma StoredAsDocumented(held: State, newState: State)
    ensures Stored(held, newState) == Documented(newState) <==>
            if Finished(held) then newState in {STOPPED, FINISHED, FINISHED_ERROR} else !Finished(newState)
  {
  }

  // From a state that is not a finished one, every call of a series does what is documented
  // exactly when none sets a finished state.
  lemma DocumentedExactly(held: State, states: seq<State>)
    requires !Finished(held)
    ensures (forall k | 0 < k <= |states| :: HoldsDocumented(held, states, k)) <==>
            (forall k | 0 <= k < |states| :: !Finished(states[k]))
  {
    if forall k | 0 < k <= |states| :: HoldsDocumented(held, states, k) {
      forall k | 0 <= k < |states| ensures !Finished(states[k]) {
        DocumentedCall(held, states, k);
        assert HoldsDocumented(held, states, k + 1);
      }
    }
    if forall k | 0 <= k < |states| :: !Finished(states[k]) {
      forall k | 0 < k <= |states| ensures HoldsDocumented(held, states, k) {
        UnfinishedUpTo(held, states, k - 1);
        NextHeld(held, states, k - 1);
      }
    }
  }

  lemma DocumentedCall(held: State, states: seq<State>, k: nat)
    requires k < |states| && !Finished(held) && (k == 0 || HoldsDocumented(held, states, k))
    ensures HoldsDocumented(held, states, k + 1) <==> !Finished(states[k])
  {
    NextHeld(held, states, k);
    assert k == 0 ==> states[..k] == [];
  }

  // ---- the mpv event loop ----

  datatype EndReason = Eof | EndError | StopOrQuit | Redirect | OtherReason

  // Property reads may throw; the exception leaves the loop.
  datatype Event =
    | EventError
    | NoEvent
    | EndFile(reason: EndReason)
    | FileLoaded(pause: Result<bool>)
    | PropertyChange(isPause: bool, paused: bool, idleActive: Result<bool>)
    | OtherEvent

  // The state one event sets, if any; Thrown when a property read fails.
  function StateOf(event: Event, initial: bool): Result<Option<State>> {
    match event
    case EndFile(reason) =>
      if reason in {Eof, EndError, StopOrQuit} then Ok(Some(STOPPED)) else Ok(None)
    case FileLoaded(pause) =>
      if pause.Thrown? then Thrown else if pause.value then Ok(None) else Ok(Some(PLAYING))
    case PropertyChange(isPause, paused, idleActive) =>
      if !isPause then Ok(None)
      else if paused then Ok(Some(PAUSED))
      else if idleActive.Thrown? then Thrown
      else if !idleActive.value && !initial then Ok(Some(PLAYING))
      else Ok(Some(STOPPED))
    case _ => Ok(None)
  }

  function AsSeq(state: Option<State>): seq<State> {
    if state.Some? then [state.value] else []
  }

  // The states the events from the i-th on set, up to the first failing read.
  function StatesOf(events: seq<Event>, i: nat, initial: bool): seq<State>
    requires i <= |events|
    decreases |events| - i
  {
    if i == |events| then []
    else
      match StateOf(events[i], initial)
      case Thrown => []
      case Ok(state) =>
        AsSeq(state) + StatesOf(events, i + 1, initial && !events[i].PropertyChange?)
  }

  predicate ByPlayer(state: State) {
    state in {PLAYING, PAUSED, STOPPED}
  }

  lemma {:induction false} EventsSetOnlyThree(events: seq<Event>, i: nat, initial: bool)
    requires i <= |events|
    ensures forall state | state in StatesOf(events, i, initial) :: ByPlayer(state)
    decreases |events| - i
  {
    if i < |events| && StateOf(events[i], initial).Ok? {
      EventsSetOnlyThree(events, i + 1, initial && !events[i].PropertyChange?);
    }
  }

  // ---- what the events mean ----

  predicate PauseChanges(event: Event, paused: bool) {
    event.PropertyChange? && event.isPause && event.paused == paused
  }

  // A property read that the event needs fails.
  predicate Fails(event: Event) {
    event == FileLoaded(Thrown) || (PauseChanges(event, false) && event.idleActive.Thrown?)
  }

  // A property has changed before event i.
  ghost predicate NotInitial(events: seq<Event>, i: nat)
    requires i <= |events|
  {
    exists j | 0 <= j < i :: events[j].PropertyChange?
  }

  // Event i says that the player is in this state: PLAYING when a file is loaded and not paused,
  // or the pause ends while the player is not idle and this is not the first property change;
  // PAUSED when the pause begins; STOPPED when a file ends, or the pause ends otherwise.
  ghost predicate Means(events: seq<Event>, i: nat, state: State)
    requires i < |events|
  {
    var event := events[i];
    match state
    case PLAYING =>
      || event == FileLoaded(Ok(false))
      || (PauseChanges(event, false) && event.idleActive.Ok? && !event.idleActive.value && NotInitial(events, i))
    case PAUSED => PauseChanges(event, true)
    case STOPPED =>
      || (event.EndFile? && event.reason in {Eof, EndError, StopOrQuit})
      || (PauseChanges(event, false) && event.idleActive.Ok? && (event.idleActive.value || !NotInitial(events, i)))
    case _ => false
  }

  ghost predicate Matters(events: seq<Event>, i: nat)
    requires i < |events|
  {
    exists state :: Means(events, i, state)
  }

  // These are the states that the events from the i-th up to the n-th mean, in order; the k-th of
  // them is meant by event at[k].
  ghost predicate Reports(events: seq<Event>, i: nat, n: nat, states: seq<State>, at: seq<nat>)
    requires n <= |events|
  {
    && |states| == |at|
    && (forall k | 0 <= k < |at| :: i <= at[k] < n && Means(events, at[k], states[k]))
    && (forall k, l | 0 <= k < l < |at| :: at[k] < at[l])
    && (forall j | i <= j < n && Matters(events, j) :: j in at)
  }

  // The loop gets to event n: no read has failed before, and there the events end or a read fails.
  predicate GetsTo(events: seq<Event>, i: nat, n: nat) {
    && i <= n <= |events|
    && (forall j | i <= j < n :: !Fails(events[j]))
    && (n < |events| ==> Fails(events[n]))
  }

  lemma StateMeant(events: seq<Event>, i: nat, initial: bool)
    requires i < |events| && initial == !NotInitial(events, i)
    ensures var next := StateOf(events[i], initial);
            && (next.Thrown? <==> Fails(events[i]))
            && (next == Ok(None) ==> !Matters(events, i))
            && (next.Ok? && next.value.Some? ==> Means(events, i, next.value.value))
    ensures initial && !events[i].PropertyChange? <==> !NotInitial(events, i + 1)
  {
    NotInitialNext(events, i);
  }

  lemma NotInitialNext(events: seq<Event>, i: nat)
    requires i < |events|
    ensures NotInitial(events, i + 1) <==> NotInitial(events, i) || events[i].PropertyChange?
  {
    if NotInitial(events, i) {
      var j :| 0 <= j < i && events[j].PropertyChange?;
      assert j < i + 1 && events[j].PropertyChange?;
    }
    if NotInitial(events, i + 1) && !events[i].PropertyChange? {
      var j :| 0 <= j < i + 1 && events[j].PropertyChange?;
      assert j < i && events[j].PropertyChange?;
    }
  }

  lemma ReportsMore(
    events: seq<Event>, i: nat, n: nat, next: Option<State>, states: seq<State>, at: seq<nat>)
    requires i < n <= |events| && Reports(events, i + 1, n, states, at)
    requires if next.Some? then Means(events, i, next.value) else !Matters(events, i)
    ensures Reports(events, i, n, AsSeq(next) + states, (if next.Some? then [i] else []) + at)
  {
  }

  // The states the events set are those they mean.
  lemma {:induction false} StatesMeant(events: seq<Event>, i: nat, initial: bool, n: nat)
    returns (at: seq<nat>)
    requires i <= |events| && GetsTo(events, i, n) && initial == !NotInitial(events, i)
    ensures Reports(events, i, n, StatesOf(events, i, initial), at)
    decreases |events| - i
  {
    at := [];
    if i < |events| {
      StateMeant(events, i, initial);
      if i < n {
        var next := StateOf(events[i], initial).value;
        at := StatesMeant(events, i + 1, initial && !events[i].PropertyChange?, n);
        ReportsMore(events, i, n, next, StatesOf(events, i + 1, initial && !events[i].PropertyChange?), at);
        at := (if next.Some? then [i] else []) + at;
      }
    }
  }

  ghost predicate LastToMatter(events: seq<Event>, i: nat, n: nat)
    requires i < n <= |events|
  {
    Matters(events, i) && forall j | i < j < n :: !Matters(events, j)
  }

  // The last state reported is the one the last event that matters means.
  lemma LastIsMeant(events: seq<Event>, n: nat, states: seq<State>, at: seq<nat>, start: State)
    requires n <= |events| && Reports(events, 0, n, states, at)
    ensures forall i | 0 <= i < n && LastToMatter(events, i, n) :: Means(events, i, LastOr(states, start))
    ensures (forall i | 0 <= i < n :: !Matters(events, i)) ==> LastOr(states, start) == start
  {
    forall i | 0 <= i < n && LastToMatter(events, i, n) ensures Means(events, i, LastOr(states, start)) {
      var last := |at| - 1;
      assert i in at && Matters(events, at[last]);
    }
    if states != [] {
      assert Matters(events, at[|at| - 1]);
    }
  }

  // No two states are meant by one event.
  lemma MeansOne(events: seq<Event>, i: nat, a: State, b: State)
    requires i < |events| && Means(events, i, a) && Means(events, i, b)
    ensures a == b
  {
  }

  // The switch of the loop body; next is the state it sets.
  method HandleEvent(event: Event, initialState: bool, playback: PlaybackState)
    returns (threw: bool, ghost next: Option<State>)
    modifies playback
    ensures playback.hasCallback == old(playback.hasCallback)
    ensures StateOf(event, initialState) == if threw then Thrown else Ok(next)
    ensures threw || next.None? ==>
              playback.state == old(playback.state) && playback.notified == old(playback.notified)
    ensures !threw && next.Some? ==>
              && ByPlayer(next.value)
              && playback.state == Stored(old(playback.state), next.value)
              && playback.notified
                 == if playback.hasCallback then old(playback.notified) + [next.value] else old(playback.notified)
  {
    next := None;
    threw := false;
    match event {
      case EventError =>
      case NoEvent =>
      case EndFile(reason) =>
        match reason {
          case Eof => playback.SetState(STOPPED); next := Some(STOPPED);
          case EndError => playback.SetState(STOPPED); next := Some(STOPPED);
          case StopOrQuit => playback.SetState(STOPPED); next := Some(STOPPED);
          case Redirect =>
          case OtherReason =>
        }
      case FileLoaded(pause) =>
        if pause.Thrown? {
          return true, None;
        }
        if !pause.value {
          playback.SetState(PLAYING); next := Some(PLAYING);
        }
      case PropertyChange(isPause, paused, idleActive) =>
        if isPause {
          if paused {
            playback.SetState(PAUSED); next := Some(PAUSED);
          } else {
            if idleActive.Thrown? {
              return true, None;
            }
            if !idleActive.value && !initialState {
              playback.SetState(PLAYING); next := Some(PLAYING);
            } else {
              playback.SetState(STOPPED); next := Some(STOPPED);
            }
          }
        }
      case OtherEvent =>
    }
  }

  // Runs until the events are used up, which stands for stopping the loop, or a read fails. The
  // callback has seen what the events mean, in order, and the state held is the last of it.
  method EventLoop(events: seq<Event>, playback: PlaybackState)
    returns (threw: bool, ghost handled: nat, ghost states: seq<State>, ghost at: seq<nat>)
    requires ByPlayer(playback.state)
    modifies playback
    ensures GetsTo(events, 0, handled) && (threw <==> handled < |events|)
    ensures states == StatesOf(events, 0, true) && Reports(events, 0, handled, states, at)
    ensures playback.hasCallback == old(playback.hasCallback)
    ensures playback.hasCallback ==> playback.notified == old(playback.notified) + states
    ensures playback.state == LastOr(states, old(playback.state))
    ensures forall i | 0 <= i < handled && LastToMatter(events, i, handled) :: Means(events, i, playback.state)
    ensures (forall i | 0 <= i < handled :: !Matters(events, i)) ==> playback.state == old(playback.state)
  {
    threw := false;
    states := StatesOf(events, 0, true);
    var initialState := true;
    var i := 0;
    ghost var all := StatesOf(events, 0, true);
    ghost var seen: seq<State>, rest := [], all;
    while i < |events|
      invariant i <= |events| && initialState == !NotInitial(events, i)
      invariant forall j | 0 <= j < i :: !Fails(events[j])
      invariant rest == StatesOf(events, i, initialState) && all == seen + rest
      invariant playback.hasCallback == old(playback.hasCallback)
      invariant playback.hasCallback ==> playback.notified == old(playback.notified) + seen
      invariant playback.state == LastOr(seen, old(playback.state))
      invariant ByPlayer(playback.state)
    {
      ghost var next;
      StateMeant(events, i, initialState);
      threw, next := HandleEvent(events[i], initialState, playback);
      if threw {
        assert seen + [] == seen;
        break;
      }
      ghost var after := StatesOf(events, i + 1, initialState && !events[i].PropertyChange?);
      assert rest == AsSeq(next) + after;
      OneEventMore(old(playback.notified), seen, next, after);
      LastOrMore(seen, next, old(playback.state));
      seen, rest := seen + AsSeq(next), after;
      if events[i].PropertyChange? {
        initialState := false;
      }
      i := i + 1;
    }
    assert seen + [] == seen;
    handled := i;
    at := StatesMeant(events, 0, true, handled);
    LastIsMeant(events, handled, states, at, old(playback.state));
  }

  lemma OneEventMore(notified: seq<State>, seen: seq<State>, next: Option<State>, after: seq<State>)
    ensures seen + (AsSeq(next) + after) == seen + AsSeq(next) + after
    ensures notified + (seen + AsSeq(next)) == notified + seen + AsSeq(next)
    ensures next.None? ==> seen + AsSeq(next) == seen && notified + seen + AsSeq(next) == notified + seen
  {
  }

  lemma LastOrMore(seen: seq<State>, next: Option<State>, state: State)
    ensures LastOr(seen + AsSeq(next), state) == if next.Some? then next.value else LastOr(seen, state)
  {
    if next.None? {
      assert seen + AsSeq(next) == seen;
    }
  }

  function LastOr(states: seq<State>, state: State): State {
    if states == [] then state else states[|states| - 1]
  }
}
