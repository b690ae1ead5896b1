// The sending loop of the step system, with its waits and the other threads in between, is the loop
// of PlayerServiceImpl::TimeInfoStream for some answers of its surroundings.
module StreamLoop {
  import opened Bytes
  import opened Playback
  import opened InfoStream
  import opened StreamRuns

  // How far the turns done, and the one under way, have brought the loop.
  predicate Follows(start: Sender, s: System, turns: seq<Turn>, now: Turn) {
    var p := AfterTurns(Progress(start, [], false), turns);
    var verdict, x := VerdictOn(p.sender, now.got), Prepared(p.sender, now.got);
    match s.place
    case AtTop => p == Progress(s.sender, s.record.written, false)
    case InBody => p == Progress(s.sender, s.record.written, false)
    case Done => p == Progress(s.sender, s.record.written, s.record.refused)
    case Writing => verdict == Send && s.sender == x && p == Progress(p.sender, s.record.written, false)
    case BeforeWait =>
      verdict != Aborted && s.sender == x && now.accepted && !p.refused && s.record.written == WrittenBy(p, now)
    case Waiting =>
      verdict != Aborted && s.sender == MovedOn(x, now.interval) && now.accepted && !p.refused
      && s.record.written == WrittenBy(p, now)
  }

  // The messages written after an accepted turn.
  function WrittenBy(p: Progress, turn: Turn): seq<TimeInfo> {
    if VerdictOn(p.sender, turn.got) == Send then p.written + [Prepared(p.sender, turn.got).message] else p.written
  }

  predicate FollowsWell(start: Sender, s: System, turns: seq<Turn>, now: Turn) {
    Follows(start, s, turns, now) && (s.place != Done ==> !s.record.refused)
  }

  lemma BodyFollows(start: Sender, s: System, got: Answers, turns: seq<Turn>, before: Turn, now: Turn)
    requires FollowsWell(start, s, turns, before) && s.place == InBody && now == Turn(got, true, 0, UNDEFINED)
    ensures FollowsWell(start, Apply(s, Body(got)),
                        if VerdictOn(s.sender, got) == Aborted then turns + [now] else turns, now)
  {
    AfterOneMore(Progress(start, [], false), turns, now);
  }

  lemma AcceptedFollows(start: Sender, s: System, turns: seq<Turn>, before: Turn, now: Turn)
    requires FollowsWell(start, s, turns, before) && s.place == Writing && now == before.(accepted := true)
    ensures FollowsWell(start, Apply(s, Write(true)), turns, now)
  {
  }

  lemma RefusedTurn(p: Progress, now: Turn)
    requires !p.refused && VerdictOn(p.sender, now.got) == Send && !now.accepted
    ensures AfterTurn(p, now) == Progress(Prepared(p.sender, now.got), p.written, true)
  {
  }

  lemma RefusedFollows(start: Sender, s: System, turns: seq<Turn>, before: Turn, now: Turn)
    requires FollowsWell(start, s, turns, before) && s.place == Writing && now == before.(accepted := false)
    ensures FollowsWell(start, Apply(s, Write(false)), turns + [now], now)
  {
    AfterOneMore(Progress(start, [], false), turns, now);
    RefusedTurn(AfterTurns(Progress(start, [], false), turns), now);
  }

  lemma WakeFollows(start: Sender, s: System, turns: seq<Turn>, before: Turn, now: Turn)
    requires FollowsWell(start, s, turns, before) && s.place == Waiting && now == before.(sampled := s.playback)
    ensures FollowsWell(start, Apply(s, Wake), turns + [now], now)
  {
    AfterOneMore(Progress(start, [], false), turns, now);
  }

  lemma OtherStepFollows(start: Sender, s: System, step: Step, turns: seq<Turn>, now: Turn)
    requires FollowsWell(start, s, turns, now)
    requires !(step.Body? && s.place == InBody) && !(step.Write? && s.place == Writing)
    requires !(step.Wake? && s.place == Waiting) && !step.MoveDeadline?
    ensures FollowsWell(start, Apply(s, step), turns, now)
  {
  }

  // One step ends the turn under way, moves it on or leaves it alone.
  lemma StepFollows(start: Sender, s: System, step: Step, turns: seq<Turn>, now: Turn)
    returns (turns': seq<Turn>, now': Turn)
    requires FollowsWell(start, s, turns, now)
    ensures FollowsWell(start, Apply(s, step), turns', now')
  {
    turns', now' := turns, now;
    if step.Body? && s.place == InBody {
      now' := Turn(step.got, true, 0, UNDEFINED);
      turns' := if VerdictOn(s.sender, step.got) == Aborted then turns + [now'] else turns;
      BodyFollows(start, s, step.got, turns, now, now');
    } else if step.Write? && s.place == Writing {
      now' := now.(accepted := step.ok);
      if step.ok {
        AcceptedFollows(start, s, turns, now, now');
      } else {
        turns' := turns + [now'];
        RefusedFollows(start, s, turns, now, now');
      }
    } else if step.MoveDeadline? {
      now' := if s.place == BeforeWait then now.(interval := s.interval) else now;
    } else if step.Wake? && s.place == Waiting {
      now' := now.(sampled := s.playback);
      turns' := turns + [now'];
      WakeFollows(start, s, turns, now, now');
    } else {
      OtherStepFollows(start, s, step, turns, now);
    }
  }

  lemma {:induction false} RunFollows(s: System, steps: seq<Step>) returns (turns: seq<Turn>, now: Turn)
    requires Initial(s)
    ensures FollowsWell(s.sender, Run(s, steps), turns, now)
    decreases |steps|
  {
    if steps == [] {
      turns, now := [], Turn(Answers(Thrown, Thrown), true, 0, UNDEFINED);
    } else {
      turns, now := RunFollows(s, steps[..|steps| - 1]);
      turns, now := StepFollows(s.sender, Run(s, steps[..|steps| - 1]), steps[|steps| - 1], turns, now);
    }
  }

  // In every run, whenever the loop is at its top or past its end, its variables, the messages it
  // has written and whether a Write was refused are what SendingLoop.TimeInfoStream makes of some
  // turns.
  lemma RunsTheLoop(s: System, steps: seq<Step>)
    requires Initial(s) && Run(s, steps).place in {AtTop, Done}
    ensures var t := Run(s, steps);
            exists turns :: AfterTurns(Progress(s.sender, [], false), turns)
                            == Progress(t.sender, t.record.written, t.record.refused)
  {
    var turns, now := RunFollows(s, steps);
    assert AfterTurns(Progress(s.sender, [], false), turns).refused == Run(s, steps).record.refused;
  }
}
