// The daemon's life cycle: Daemon::Initialize, the private steps it calls, and the gate that
// connection_handler puts before every command.
module Daemon {
  import opened Bytes

  datatype State = Uninitialized | ConfigInitialized | GrpcClientInitialized | Authenticated

  // What the world answers during one call of Initialize. The channel step first reads the
  // certificate and starts the thread that traces the channel, then waits for the channel and makes
  // the client.
  datatype Answers = Answers(configLoads: bool, tracingStarts: bool, channelReady: bool, loginSucceeds: bool)

  datatype Outcome = Returned | Threw | Terminated

  // tracing: grpc_channel_state_thread_ holds a thread.
  datatype Initialized = Initialized(state: State, tracing: bool, outcome: Outcome)

  // The channel step. Assigning a new thread to a variable that still holds one ends the process.
  function AfterChannel(tracing: bool, answers: Answers): Initialized {
    if !answers.tracingStarts then Initialized(ConfigInitialized, tracing, Threw)
    else if tracing then Initialized(ConfigInitialized, tracing, Terminated)
    else if !answers.channelReady then Initialized(ConfigInitialized, true, Threw)
    else Initialized(GrpcClientInitialized, true, Returned)
  }

  // One call of Initialize. From Uninitialized it goes through two steps and stops short of the
  // login; the login is the business of a further call.
  function AfterInitialize(state: State, tracing: bool, answers: Answers): Initialized {
    match state
    case Uninitialized =>
      if !answers.configLoads then Initialized(Uninitialized, tracing, Threw)
      else AfterChannel(tracing, answers)
    case ConfigInitialized => AfterChannel(tracing, answers)
    case GrpcClientInitialized =>
      if !answers.loginSucceeds then Initialized(GrpcClientInitialized, tracing, Threw)
      else Initialized(Authenticated, tracing, Returned)
    case Authenticated => Initialized(Authenticated, tracing, Returned)
  }

  datatype Rpc = AudioStreamRpc | StopRpc | TogglePauseRpc | VolumeRpc | PingRpc | SeekRpc

  // The remote call a command is turned into, if any: info answers from the local copy, and an
  // unknown command succeeds without doing anything.
  function Forwarded(state: State, command: string): Option<Rpc> {
    if state != Authenticated then None
    else if command == "play" then Some(AudioStreamRpc)
    else if command == "stop" then Some(StopRpc)
    else if command == "toggle-pause" then Some(TogglePauseRpc)
    else if command == "volume" then Some(VolumeRpc)
    else if command == "ping" then Some(PingRpc)
    else if command == "seek" then Some(SeekRpc)
    else None
  }

  // Which command leads to which call: each call has one command, and nothing is forwarded before
  // the login.
  lemma ForwardedExactly(state: State, command: string)
    ensures Forwarded(state, command) == Some(AudioStreamRpc) <==> state == Authenticated && command == "play"
    ensures Forwarded(state, command) == Some(StopRpc) <==> state == Authenticated && command == "stop"
    ensures Forwarded(state, command) == Some(TogglePauseRpc) <==> state == Authenticated && command == "toggle-pause"
    ensures Forwarded(state, command) == Some(VolumeRpc) <==> state == Authenticated && command == "volume"
    ensures Forwarded(state, command) == Some(PingRpc) <==> state == Authenticated && command == "ping"
    ensures Forwarded(state, command) == Some(SeekRpc) <==> state == Authenticated && command == "seek"
  {
    assert "play"[0] == 'p' && "stop"[0] == 's' && "toggle-pause"[0] == 't' && "volume"[0] == 'v';
    assert "ping"[1] == 'i' && "play"[1] == 'l' && "seek"[1] == 'e' && "stop"[1] == 't';
  }

  // What one call of Initialize reports: it returns exactly when it ends beyond the point where it
  // started or has nothing left to do, and ends the process exactly when it gets as far as the
  // thread while one is there; otherwise it throws.
  lemma OutcomeExactly(state: State, tracing: bool, answers: Answers)
    ensures var after := AfterInitialize(state, tracing, answers);
            && (after.outcome == Returned <==>
                  || after.state == Authenticated
                  || (after.state == GrpcClientInitialized && state != GrpcClientInitialized))
            && (after.outcome == Terminated <==>
                  && tracing && answers.tracingStarts
                  && (state == ConfigInitialized || (state == Uninitialized && answers.configLoads)))
  {
  }

  class DaemonProcess {
    var state: State
    var tracing: bool

    constructor ()
      ensures state == Uninitialized && !tracing
    {
      state := Uninitialized;
      tracing := false;
    }

    method Initialize(answers: Answers) returns (outcome: Outcome)
      modifies this
      ensures AfterInitialize(old(state), old(tracing), answers) == Initialized(state, tracing, outcome)
      ensures outcome == Returned <==>
                state == Authenticated || (state == GrpcClientInitialized && old(state) != GrpcClientInitialized)
      ensures outcome == Terminated <==>
                && old(tracing) && answers.tracingStarts
                && (old(state) == ConfigInitialized || (old(state) == Uninitialized && answers.configLoads))
    {
      match state {
        case Uninitialized =>
          outcome := InitializeConfig(answers);
          if outcome == Threw {
            return;
          }
          outcome := InitializeGrpcClient(answers);
        case ConfigInitialized =>
          outcome := InitializeGrpcClient(answers);
        case GrpcClientInitialized =>
          outcome := Authenticate(answers);
        case Authenticated =>
          outcome := Returned;
      }
    }

    method InitializeConfig(answers: Answers) returns (outcome: Outcome)
      modifies this`state
      ensures old(state) != Uninitialized ==> state == old(state) && outcome == Returned
      ensures old(state) == Uninitialized ==>
                && outcome == (if answers.configLoads then Returned else Threw)
                && state == if outcome == Threw then Uninitialized else ConfigInitialized
    {
      if state != Uninitialized {
        return Returned;
      }
      if !answers.configLoads {
        return Threw;
      }
      state := ConfigInitialized;
      outcome := Returned;
    }

    method InitializeGrpcClient(answers: Answers) returns (outcome: Outcome)
      modifies this
      ensures old(state) != ConfigInitialized ==>
                state == old(state) && tracing == old(tracing) && outcome == Returned
      ensures old(state) == ConfigInitialized ==>
                Initialized(state, tracing, outcome) == AfterChannel(old(tracing), answers)
    {
      if state != ConfigInitialized {
        return Returned;
      }
      if !answers.tracingStarts {
        return Threw;
      }
      if tracing {
        return Terminated;
      }
      tracing := true;
      if !answers.channelReady {
        return Threw;
      }
      state := GrpcClientInitialized;
      outcome := Returned;
    }

    method Authenticate(answers: Answers) returns (outcome: Outcome)
      modifies this`state
      ensures outcome == if answers.loginSucceeds then Returned else Threw
      ensures state == if outcome == Threw then old(state) else Authenticated
    {
      if answers.loginSucceeds {
        state := Authenticated;
        return Returned;
      }
      outcome := Threw;
    }

    // The gate of connection_handler: commands fail until the daemon is authenticated.
    method HandleCommand(command: string) returns (fails: bool, rpc: Option<Rpc>)
      ensures fails <==> state != Authenticated
      ensures rpc == Forwarded(state, command)
    {
      fails, rpc := false, None;
      match state {
        case Uninitialized =>
          fails := true;
        case GrpcClientInitialized =>
          fails := true;
        case Authenticated =>
          if command == "play" {
            rpc := Some(AudioStreamRpc);
          } else if command == "stop" {
            rpc := Some(StopRpc);
          } else if command == "toggle-pause" {
            rpc := Some(TogglePauseRpc);
          } else if command == "volume" {
            rpc := Some(VolumeRpc);
          } else if command == "ping" {
            rpc := Some(PingRpc);
          } else if command == "info" {
            // Answered from the local copy.
          } else if command == "seek" {
            rpc := Some(SeekRpc);
          }
        case ConfigInitialized =>
          fails := true;
      }
    }
  }

  // ---- series of calls ----

  datatype Life = Running(state: State, tracing: bool) | Ended

  function Next(life: Life, answers: Answers): Life {
    match life
    case Ended => Ended
    case Running(state, tracing) =>
      var after := AfterInitialize(state, tracing, answers);
      if after.outcome == Terminated then Ended else Running(after.state, after.tracing)
  }

  // A fresh daemon after a series of calls, thrown exceptions being caught by the caller.
  function AfterCalls(calls: seq<Answers>): Life {
    if calls == [] then Running(Uninitialized, false)
    else Next(AfterCalls(calls[..|calls| - 1]), calls[|calls| - 1])
  }

  // Some call, seen together with the calls before it, is of this kind.
  ghost predicate Happened(kind: (seq<Answers>, Answers) -> bool, calls: seq<Answers>) {
    exists i | 0 <= i < |calls| :: kind(calls[..i], calls[i])
  }

  lemma HappenedSnoc(kind: (seq<Answers>, Answers) -> bool, calls: seq<Answers>)
    requires calls != []
    ensures var init, last := calls[..|calls| - 1], calls[|calls| - 1];
            Happened(kind, calls) <==> Happened(kind, init) || kind(init, last)
  {
    var init := calls[..|calls| - 1];
    assert forall i | 0 <= i < |init| :: init[..i] == calls[..i];
    if Happened(kind, init) {
      var i :| 0 <= i < |init| && kind(init[..i], init[i]);
      assert kind(calls[..i], calls[i]);
    }
    if Happened(kind, calls) && !kind(init, calls[|calls| - 1]) {
      var i :| 0 <= i < |calls| && kind(calls[..i], calls[i]);
      assert kind(init[..i], init[i]);
    }
  }

  // The call loads the configuration.
  ghost predicate Loads(before: seq<Answers>, call: Answers) {
    call.configLoads
  }

  // With the configuration loaded, it gets as far as the thread.
  ghost predicate Reaches(before: seq<Answers>, call: Answers) {
    call.tracingStarts && (call.configLoads || Happened(Loads, before))
  }

  // It is the first to do so, and finds the channel ready.
  ghost predicate Connects(before: seq<Answers>, call: Answers) {
    Reaches(before, call) && !Happened(Reaches, before) && call.channelReady
  }

  // It logs in after an earlier call has connected.
  ghost predicate LogsIn(before: seq<Answers>, call: Answers) {
    call.loginSucceeds && Happened(Connects, before)
  }

  // It gets as far as the thread after an earlier call has done so in vain.
  ghost predicate Retries(before: seq<Answers>, call: Answers) {
    Reaches(before, call) && Happened(Reaches, before) && !Happened(Connects, before)
  }

  // Where a series of calls leads, in terms of what happened in it.
  ghost predicate LeadsTo(calls: seq<Answers>, life: Life) {
    match life
    case Ended => Happened(Retries, calls)
    case Running(state, tracing) =>
      && !Happened(Retries, calls)
      && (tracing <==> Happened(Reaches, calls))
      && (state == Uninitialized <==> !Happened(Loads, calls))
      && (state in {GrpcClientInitialized, Authenticated} <==> Happened(Connects, calls))
      && (state == Authenticated <==> Happened(LogsIn, calls))
  }

  // Without the configuration no thread, without the thread no channel, without the channel no
  // login, and no retry once the channel is up.
  ghost predicate InOrder(calls: seq<Answers>) {
    && (Happened(Reaches, calls) ==> Happened(Loads, calls))
    && (Happened(Connects, calls) ==> Happened(Reaches, calls) && !Happened(Retries, calls))
    && (Happened(LogsIn, calls) ==> Happened(Connects, calls))
    && (Happened(Retries, calls) ==> Happened(Reaches, calls))
  }

  lemma NextLeads(calls: seq<Answers>)
    requires calls != []
    requires var init := calls[..|calls| - 1]; LeadsTo(init, AfterCalls(init)) && InOrder(init)
    ensures LeadsTo(calls, AfterCalls(calls)) && InOrder(calls)
  {
    HappenedSnoc(Loads, calls);
    HappenedSnoc(Reaches, calls);
    HappenedSnoc(Connects, calls);
    HappenedSnoc(LogsIn, calls);
    HappenedSnoc(Retries, calls);
  }

  lemma {:induction false} CallsLead(calls: seq<Answers>)
    ensures LeadsTo(calls, AfterCalls(calls)) && InOrder(calls)
  {
    if calls != [] {
      CallsLead(calls[..|calls| - 1]);
      NextLeads(calls);
    }
  }

  // A fresh daemon is authenticated exactly when the first call that got as far as the thread, the
  // configuration being loaded by then, found the channel ready, and a later call logged in: one
  // call of Initialize is never enough. The process ends exactly when a call gets as far as the
  // thread after an earlier one had done so without finding the channel ready.
  lemma AuthenticatedExactly(calls: seq<Answers>)
    ensures AfterCalls(calls).Running? && AfterCalls(calls).state == Authenticated <==> Happened(LogsIn, calls)
    ensures AfterCalls(calls).Ended? <==> Happened(Retries, calls)
    ensures LeadsTo(calls, AfterCalls(calls))
  {
    CallsLead(calls);
  }

  // Waiting for the channel in vain and trying again ends the process, whatever is answered later.
  lemma {:induction false} RetryEndsProcess(first: Answers, second: Answers, more: seq<Answers>)
    requires first.configLoads && first.tracingStarts && !first.channelReady && second.tracingStarts
    ensures AfterCalls([first]) == Running(ConfigInitialized, true)
    ensures AfterCalls([first, second] + more) == Ended
    decreases |more|
  {
    assert [first][..0] == [] && [first, second][..1] == [first];
    if more == [] {
      assert [first, second] + more == [first, second];
    } else {
      RetryEndsProcess(first, second, more[..|more| - 1]);
      assert ([first, second] + more)[..|more| + 1] == [first, second] + more[..|more| - 1];
    }
  }
}
