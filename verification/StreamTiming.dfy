// How much the stream writes: after it has been closed, and over time.
module StreamTiming {
  import opened Numbers
  import opened StreamRuns

  // ---- closing ----

  predicate WritesBounded(s: System) {
    && s.record.writesAfterClose <= 1
    && (!s.closeStream || s.place in {InBody, Writing} ==> s.record.writesAfterClose == 0)
  }

  lemma StepKeepsWritesBounded(s: System, step: Step)
    requires WritesBounded(s)
    ensures WritesBounded(Apply(s, step))
  {
  }

  lemma {:induction false} RunKeepsWritesBounded(s: System, steps: seq<Step>)
    requires WritesBounded(s)
    ensures WritesBounded(Run(s, steps))
    decreases |steps|
  {
    if steps != [] {
      RunKeepsWritesBounded(s, steps[..|steps| - 1]);
      StepKeepsWritesBounded(Run(s, steps[..|steps| - 1]), steps[|steps| - 1]);
    }
  }

  // The step is a call of Write after closeStream has become true.
  predicate IsLateWrite(s: System, step: Step) {
    step.Write? && s.place == Writing && s.closeStream
  }

  // The step ends the wait before the deadline.
  predicate IsEarlyWake(s: System, step: Step) {
    step.Wake? && s.place == Waiting && s.now < s.sender.deadline
  }

  function LateWrites(s: System, steps: seq<Step>): nat {
    if steps == [] then 0
    else
      var init := steps[..|steps| - 1];
      LateWrites(s, init) + if IsLateWrite(Run(s, init), steps[|steps| - 1]) then 1 else 0
  }

  function EarlyWakes(s: System, steps: seq<Step>): nat {
    if steps == [] then 0
    else
      var init := steps[..|steps| - 1];
      EarlyWakes(s, init) + if IsEarlyWake(Run(s, init), steps[|steps| - 1]) then 1 else 0
  }

  lemma StepCounts(s: System, step: Step)
    ensures var t := Apply(s, step);
            && t.record.writesAfterClose == s.record.writesAfterClose + (if IsLateWrite(s, step) then 1 else 0)
            && t.record.woken == s.record.woken + if IsEarlyWake(s, step) then 1 else 0
  {
  }

  lemma {:induction false} RunCounts(s: System, steps: seq<Step>)
    ensures var t := Run(s, steps);
            && t.record.writesAfterClose == s.record.writesAfterClose + LateWrites(s, steps)
            && t.record.woken == s.record.woken + EarlyWakes(s, steps)
    decreases |steps|
  {
    if steps != [] {
      RunCounts(s, steps[..|steps| - 1]);
      StepCounts(Run(s, steps[..|steps| - 1]), steps[|steps| - 1]);
    }
  }

  // In every interleaving, at most one Write is called after closeStream has become true.
  lemma AtMostOneWriteAfterClose(s: System, steps: seq<Step>)
    requires Initial(s)
    ensures LateWrites(s, steps) <= 1
  {
    RunKeepsWritesBounded(s, steps);
    RunCounts(s, steps);
  }

  // The loop is to end: the client has ended its side of the stream, or a Write was refused.
  predicate Ending(s: System) {
    s.readerDone || s.record.refused
  }

  predicate EndCloses(s: System) {
    && (Ending(s) ==> s.closeStream)
    && (s.record.refused ==> s.place == Done)
  }

  // Messages written, and the one that may still be.
  function Budget(s: System): nat {
    |s.record.written| + if s.place in {InBody, Writing} then 1 else 0
  }

  lemma StepKeepsEndCloses(s: System, step: Step)
    requires EndCloses(s)
    ensures EndCloses(Apply(s, step))
    ensures s.closeStream ==> Apply(s, step).closeStream && Budget(Apply(s, step)) <= Budget(s)
    ensures s.place == Done ==> Apply(s, step).place == Done && Budget(Apply(s, step)) == Budget(s)
    ensures Ending(s) ==> Ending(Apply(s, step))
  {
  }

  lemma {:induction false} RunKeepsEndCloses(s: System, steps: seq<Step>)
    requires EndCloses(s)
    ensures EndCloses(Run(s, steps))
    ensures s.closeStream ==> Run(s, steps).closeStream && Budget(Run(s, steps)) <= Budget(s)
    ensures s.place == Done ==> Run(s, steps).place == Done && Budget(Run(s, steps)) == Budget(s)
    decreases |steps|
  {
    if steps != [] {
      RunKeepsEndCloses(s, steps[..|steps| - 1]);
      StepKeepsEndCloses(Run(s, steps[..|steps| - 1]), steps[|steps| - 1]);
    }
  }

  // Once the client has ended its side of the stream, the loop writes at most one message more in
  // whatever goes on from there, and its next look at the condition takes it out of the loop, for
  // good. After a refused Write it is out already and writes nothing.
  lemma EndedStreamStops(s: System, steps: seq<Step>, more: seq<Step>)
    requires Initial(s) && Ending(Run(s, steps))
    ensures var t := Run(s, steps);
            var u := Run(t, more);
            && |u.record.written| <= |t.record.written| + 1
            && (u.place == AtTop ==> Apply(u, Top).place == Done)
            && (t.record.refused || t.place == Done ==> u.place == Done && u.record.written == t.record.written)
  {
    RunKeepsEndCloses(s, steps);
    RunKeepsEndCloses(Run(s, steps), more);
    WrittenGrows(Run(s, steps), more);
  }

  lemma {:induction false} WrittenGrows(s: System, steps: seq<Step>)
    ensures s.record.written <= Run(s, steps).record.written
    decreases |steps|
  {
    if steps != [] {
      WrittenGrows(s, steps[..|steps| - 1]);
      StepGrowsWritten(Run(s, steps[..|steps| - 1]), steps[|steps| - 1]);
    }
  }

  lemma StepGrowsWritten(s: System, step: Step)
    ensures s.record.written <= Apply(s, step).record.written
  {
  }

  // The client can end its side at any time.
  lemma ReaderEndIsSeen(s: System)
    ensures Ending(Apply(s, ReaderEnds))
  {
  }

  // ---- pace ----

  // While the client has not ended its side, the interval it asks for is what the next wait takes.
  lemma IntervalTakesEffect(s: System, milliseconds: nat)
    requires !s.readerDone && s.place == BeforeWait
    ensures var t := Apply(Apply(s, ReaderReads(milliseconds)), MoveDeadline);
            t.place == Waiting && t.sender.deadline == s.sender.deadline + milliseconds
  {
  }

  // The time that has passed in a series of steps.
  function Passed(steps: seq<Step>): nat {
    if steps == [] then 0
    else
      var last := steps[|steps| - 1];
      Passed(steps[..|steps| - 1]) + if last.Tick? then last.passed else 0
  }

  // Only the clock moves the clock.
  lemma {:induction false} ClockMoves(s: System, steps: seq<Step>)
    ensures Run(s, steps).now == s.now + Passed(steps)
    decreases |steps|
  {
    if steps != [] {
      ClockMoves(s, steps[..|steps| - 1]);
      StepMovesClock(Run(s, steps[..|steps| - 1]), steps[|steps| - 1]);
    }
  }

  lemma StepMovesClock(s: System, step: Step)
    ensures Apply(s, step).now == s.now + if step.Tick? then step.passed else 0
  {
  }

  // The client never asks for less than d milliseconds between two updates.
  predicate AtLeast(d: int, steps: seq<Step>) {
    forall i | 0 <= i < |steps| && steps[i].ReaderReads? :: steps[i].milliseconds >= d
  }

  predicate Exactly(d: int, steps: seq<Step>) {
    forall i | 0 <= i < |steps| && steps[i].ReaderReads? :: steps[i].milliseconds == d
  }

  // How often the deadline has been moved on.
  function Moves(s: System): nat {
    s.record.completed + if s.place == Waiting then 1 else 0
  }

  // Rounds whose wait ended at the deadline or later.
  function TimedOut(s: System): int {
    s.record.completed - s.record.woken
  }

  predicate Paced(s: System, start: int, d: int) {
    && s.interval >= d
    && s.sender.deadline >= start + d * Moves(s)
    && 0 <= TimedOut(s) && s.now >= start + d * TimedOut(s)
    && |s.record.written| <= s.record.completed + if s.place in {BeforeWait, Waiting, Done} then 1 else 0
  }

  lemma OneMore(d: int, k: int)
    ensures d * (k + 1) == d * k + d
  {
  }

  lemma StepKeepsPace(s: System, step: Step, start: int, d: int)
    requires 0 < d && Paced(s, start, d)
    requires step.ReaderReads? ==> step.milliseconds >= d
    ensures Paced(Apply(s, step), start, d)
  {
    if step.MoveDeadline? {
      OneMore(d, Moves(s));
    }
    if step.Wake? && s.place == Waiting {
      OneMore(d, TimedOut(s));
      MulMono(TimedOut(s), s.record.completed, d);
      OneMore(d, s.record.completed);
    }
  }

  lemma {:induction false} RunKeepsPace(s: System, steps: seq<Step>, d: int)
    requires Initial(s) && 0 < d <= s.interval && AtLeast(d, steps)
    ensures Paced(Run(s, steps), s.now, d)
    decreases |steps|
  {
    if steps != [] {
      RunKeepsPace(s, steps[..|steps| - 1], d);
      StepKeepsPace(Run(s, steps[..|steps| - 1]), steps[|steps| - 1], s.now, d);
    }
  }

  lemma AtMostQuotient(k: int, t: int, d: int)
    requires d > 0 && d * k <= t
    ensures k <= t / d
  {
    var q, r := t / d, t % d;
    assert t == q * d + r;
    if k > q {
      MulMono(q + 1, k, d);
    }
  }

  // When every interval asked for is at least d > 0 and the clock does not go back, the messages
  // written so far are at most one per d milliseconds, plus one per round ended by a wake-up, plus
  // one.
  lemma SendRateBound(s: System, steps: seq<Step>, d: int)
    requires Initial(s) && 0 < d <= s.interval && AtLeast(d, steps)
    ensures var t := Run(s, steps);
            |t.record.written| <= (t.now - s.now) / d + EarlyWakes(s, steps) + 1
  {
    var t := Run(s, steps);
    RunCounts(s, steps);
    RunKeepsPace(s, steps, d);
    AtMostQuotient(TimedOut(t), t.now - s.now, d);
  }

  predicate OnGrid(s: System, start: int, d: int) {
    s.interval == d && s.sender.deadline == start + d * Moves(s)
  }

  lemma StepStaysOnGrid(s: System, step: Step, start: int, d: int)
    requires OnGrid(s, start, d) && (step.ReaderReads? ==> step.milliseconds == d)
    ensures OnGrid(Apply(s, step), start, d)
  {
    if step.MoveDeadline? {
      OneMore(d, Moves(s));
    }
  }

  // With one interval throughout, the deadline after k completed rounds is the start plus k times
  // the interval, plus one more interval during the wait: lateness does not add up.
  lemma {:induction false} DeadlinesDoNotDrift(s: System, steps: seq<Step>)
    requires Initial(s) && Exactly(s.interval, steps)
    ensures OnGrid(Run(s, steps), s.now, s.interval)
    decreases |steps|
  {
    if steps != [] {
      DeadlinesDoNotDrift(s, steps[..|steps| - 1]);
      StepStaysOnGrid(Run(s, steps[..|steps| - 1]), steps[|steps| - 1], s.now, s.interval);
    }
  }
}
