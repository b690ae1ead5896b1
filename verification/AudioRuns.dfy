// The audio path in every interleaving: the client sends, the stream delivers in order, the server
// reads and writes to the pipe, and any write may be short or fail.
module AudioRuns {
  import opened Bytes
  import opened Audio

  // Where the server's loops are: before a Read, inside a message, or back from the call.
  datatype Place = Reading | Writing(data: Bytes, written: nat) | Returned(status: Status)

  datatype System = System(
    file: Bytes,
    written: nat,            // the client's loop variable
    sendFailed: bool,        // a Write of the client returned false
    writesDone: bool,        // the client has left its loop
    sent: seq<Bytes>,        // messages whose Write returned true
    channel: seq<Bytes>,     // those on their way
    read: seq<Bytes>,        // messages the server's Read has returned
    broken: bool,            // the server lost the stream before its end
    place: Place,
    contents: Bytes)         // what has gone into the pipe

  datatype Step =
    | ClientRound(ok: bool)
    | StreamBreaks
    | ServerReads
    | ServerWrites(result: int)

  // A Write of the client that returns true; what it wrote is lost once the stream is broken.
  function Sent(s: System, data: Bytes): System {
    s.(sent := s.sent + [data], channel := if s.broken then [] else s.channel + [data])
  }

  function Apply(s: System, step: Step): System {
    match step
    case ClientRound(ok) =>
      if s.writesDone then s
      else if s.written >= |s.file| then s.(writesDone := true)
      else if !ok then s.(sendFailed := true, writesDone := true)
      else
        var toSend := Min(PACKAGE_BYTES, |s.file| - s.written);
        Sent(s.(written := s.written + toSend), s.file[s.written..s.written + toSend])
    case StreamBreaks => s.(broken := true, channel := [])
    case ServerReads =>
      if !s.place.Reading? then s
      else if s.channel != [] then
        s.(place := Writing(s.channel[0], 0), read := s.read + [s.channel[0]], channel := s.channel[1..])
      else if s.writesDone || s.broken then s.(place := Returned(OK))
      else s
    case ServerWrites(result) =>
      if !s.place.Writing? || s.place.written > |s.place.data| then s
      else
        var rest := s.place.data[s.place.written..];
        if rest == [] then s.(place := Reading)
        else if result == -1 then s.(place := Returned(ABORTED))
        else if 1 <= result <= |rest| then
          s.(place := s.place.(written := s.place.written + result), contents := s.contents + rest[..result])
        else s
  }

  function Run(s: System, steps: seq<Step>): System
    decreases |steps|
  {
    if steps == [] then s else Apply(Run(s, steps[..|steps| - 1]), steps[|steps| - 1])
  }

  function Initial(file: Bytes): System {
    System(file, 0, false, false, [], [], [], false, Reading, [])
  }

  predicate ClientOk(s: System) {
    && s.written <= |s.file|
    && s.sent + Chunks(s.file, s.written) == Chunks(s.file, 0)
    && (s.writesDone ==> (s.sendFailed <==> s.written < |s.file|))
    && (s.sendFailed ==> s.writesDone)
  }

  // Nothing is lost, doubled or reordered between the client's loop and the server's.
  predicate ChannelOk(s: System) {
    && s.read <= s.sent
    && (if s.broken then s.channel == [] else s.read + s.channel == s.sent)
    && (s.place == Returned(OK) && !s.broken ==> s.writesDone && s.channel == [])
  }

  // Nor between the server's loop and the pipe.
  predicate PipeOk(read: seq<Bytes>, place: Place, contents: Bytes) {
    match place
    case Reading => contents == Joined(read)
    case Writing(data, written) =>
      && written <= |data| && read != [] && data == read[|read| - 1]
      && contents == Joined(read[..|read| - 1]) + data[..written]
    case Returned(status) => StreamEnds(read, contents, status)
  }

  lemma ClientRoundOk(s: System, ok: bool)
    requires ClientOk(s)
    ensures ClientOk(Apply(s, ClientRound(ok)))
  {
    if !s.writesDone && s.written < |s.file| && ok {
      var toSend := Min(PACKAGE_BYTES, |s.file| - s.written);
      var data := s.file[s.written..s.written + toSend];
      OneMoreSent(s.sent, data, Chunks(s.file, s.written + toSend));
    }
  }

  lemma OneMoreSent(sent: seq<Bytes>, data: Bytes, rest: seq<Bytes>)
    ensures sent + ([data] + rest) == sent + [data] + rest
  {
  }

  lemma ClientRoundKeepsChannel(s: System, ok: bool)
    requires ChannelOk(s)
    ensures ChannelOk(Apply(s, ClientRound(ok)))
  {
    if !s.writesDone && s.written < |s.file| && ok {
      var data := s.file[s.written..s.written + Min(PACKAGE_BYTES, |s.file| - s.written)];
      OneMoreQueued(s.read, s.channel, data);
    }
  }

  lemma OneMoreQueued(read: seq<Bytes>, channel: seq<Bytes>, data: Bytes)
    ensures read + (channel + [data]) == read + channel + [data]
  {
  }

  lemma ServerReadsKeepsChannel(s: System)
    requires ChannelOk(s)
    ensures ChannelOk(Apply(s, ServerReads))
  {
    if s.place.Reading? && s.channel != [] {
      OneMoreRead(s.read, s.channel);
    }
  }

  lemma OneMoreRead(read: seq<Bytes>, channel: seq<Bytes>)
    requires channel != []
    ensures read + [channel[0]] + channel[1..] == read + channel
    ensures read + [channel[0]] <= read + channel
  {
  }

  lemma StepKeepsChannel(s: System, step: Step)
    requires ChannelOk(s)
    ensures ChannelOk(Apply(s, step))
  {
    match step
    case ClientRound(ok) => ClientRoundKeepsChannel(s, ok);
    case ServerReads => ServerReadsKeepsChannel(s);
    case _ =>
  }

  lemma MessageRead(read: seq<Bytes>, data: Bytes, contents: Bytes)
    requires PipeOk(read, Reading, contents)
    ensures PipeOk(read + [data], Writing(data, 0), contents)
  {
    assert (read + [data])[..|read|] == read;
  }

  lemma PartWritten(read: seq<Bytes>, data: Bytes, written: nat, contents: Bytes, taken: nat)
    requires PipeOk(read, Writing(data, written), contents) && written + taken <= |data|
    ensures PipeOk(read, Writing(data, written + taken), contents + data[written..][..taken])
  {
    Regroup(Joined(read[..|read| - 1]), data[..written], data[written..][..taken]);
    assert data[..written] + data[written..][..taken] == data[..written + taken];
  }

  lemma AllWritten(read: seq<Bytes>, data: Bytes, contents: Bytes)
    requires PipeOk(read, Writing(data, |data|), contents)
    ensures PipeOk(read, Reading, contents)
  {
    assert data[..|data|] == data;
  }

  lemma WriteFailed(read: seq<Bytes>, data: Bytes, written: nat, contents: Bytes)
    requires PipeOk(read, Writing(data, written), contents) && written < |data|
    ensures PipeOk(read, Returned(ABORTED), contents)
  {
    ProperPrefix(Joined(read[..|read| - 1]), data, written);
  }

  lemma ProperPrefix(before: Bytes, data: Bytes, written: nat)
    requires written < |data|
    ensures before + data[..written] < before + data
  {
  }

  lemma ServerWritesKeepsPipe(s: System, result: int)
    requires PipeOk(s.read, s.place, s.contents)
    ensures var t := Apply(s, ServerWrites(result)); PipeOk(t.read, t.place, t.contents)
  {
    if s.place.Writing? {
      var data, written := s.place.data, s.place.written;
      if written == |data| {
        AllWritten(s.read, data, s.contents);
      } else if result == -1 {
        WriteFailed(s.read, data, written, s.contents);
      } else if 1 <= result <= |data[written..]| {
        PartWritten(s.read, data, written, s.contents, result);
      }
    }
  }

  lemma StepKeepsPipe(s: System, step: Step)
    requires PipeOk(s.read, s.place, s.contents)
    ensures var t := Apply(s, step); PipeOk(t.read, t.place, t.contents)
  {
    match step
    case ServerReads =>
      if s.place.Reading? && s.channel != [] {
        MessageRead(s.read, s.channel[0], s.contents);
      }
    case ServerWrites(result) => ServerWritesKeepsPipe(s, result);
    case _ =>
  }

  lemma StepKeepsClient(s: System, step: Step)
    requires ClientOk(s)
    ensures ClientOk(Apply(s, step)) && Apply(s, step).file == s.file
  {
    match step
    case ClientRound(ok) => ClientRoundOk(s, ok);
    case _ =>
  }

  predicate SystemOk(s: System) {
    ClientOk(s) && ChannelOk(s) && PipeOk(s.read, s.place, s.contents)
  }

  lemma StepKeeps(s: System, step: Step)
    requires SystemOk(s)
    ensures SystemOk(Apply(s, step)) && Apply(s, step).file == s.file
  {
    StepKeepsClient(s, step);
    StepKeepsChannel(s, step);
    StepKeepsPipe(s, step);
  }

  lemma {:induction false} RunKeeps(s: System, steps: seq<Step>)
    requires SystemOk(s)
    ensures SystemOk(Run(s, steps)) && Run(s, steps).file == s.file
    decreases |steps|
  {
    if steps != [] {
      var init := steps[..|steps| - 1];
      RunKeeps(s, init);
      StepKeeps(Run(s, init), steps[|steps| - 1]);
    }
  }

  // Whatever the interleaving, the two loops end as Audio.Play and Audio.AudioStream promise.
  lemma LoopsEndAsPromised(file: Bytes, steps: seq<Step>)
    ensures var s := Run(Initial(file), steps);
            && (s.writesDone ==> PlayEnds(file, s.sent, s.sendFailed))
            && (s.place.Returned? ==> StreamEnds(s.read, s.contents, s.place.status))
            && s.read <= s.sent
  {
    RunKeeps(Initial(file), steps);
  }

  lemma PipeHoldsPrefix(read: seq<Bytes>, place: Place, contents: Bytes)
    requires PipeOk(read, place, contents)
    ensures contents <= Joined(read)
  {
    if place.Writing? {
      if place.written < |place.data| {
        WriteFailed(read, place.data, place.written, contents);
      } else {
        AllWritten(read, place.data, contents);
      }
    }
  }

  lemma JoinedInOrder(first: seq<Bytes>, all: seq<Bytes>)
    requires first <= all
    ensures Joined(first) <= Joined(all)
  {
    assert all[..|first|] == first;
    JoinedPrefix(all, |first|);
  }

  lemma FileArrives(file: Bytes, contents: Bytes, read: seq<Bytes>, sent: seq<Bytes>)
    requires contents <= Joined(read) && read <= sent <= Chunks(file, 0)
    ensures contents <= file && (sent == Chunks(file, 0) ==> Joined(sent) == file)
    ensures forall chunk | chunk in sent :: 1 <= |chunk| <= 1024
  {
    var chunks := Chunks(file, 0);
    JoinedInOrder(read, sent);
    JoinedInOrder(sent, chunks);
    ChunksAreTheFile(file, 0);
    assert file[0..] == file;
    assert forall chunk | chunk in sent :: chunk in chunks;
  }

  // Nothing failed, and the server's call has ended well.
  predicate AllWell(s: System) {
    !s.sendFailed && !s.broken && s.place == Returned(OK)
  }

  lemma AllRead(s: System)
    requires SystemOk(s) && AllWell(s)
    ensures s.read == s.sent == Chunks(s.file, 0) && s.contents == Joined(s.sent)
  {
    assert s.read + [] == s.read;
    assert s.sent + [] == s.sent;
  }

  lemma SentInOrder(s: System)
    requires SystemOk(s)
    ensures s.sent <= Chunks(s.file, 0)
  {
  }

  // In every run the pipe holds a prefix of the file, and what was sent are the first chunks of
  // it. When every send succeeded, the stream held and the server returned OK, the pipe holds the
  // whole file, sent as ceil(size / 1024) chunks of 1 to 1024 bytes.
  lemma AudioArrives(file: Bytes, steps: seq<Step>)
    ensures var s := Run(Initial(file), steps);
            && s.contents <= file
            && s.sent <= Chunks(file, 0)
            && (forall chunk | chunk in s.sent :: 1 <= |chunk| <= 1024)
            && (AllWell(s) ==> s.contents == file && |s.sent| == (|file| + 1023) / 1024)
  {
    var s := Run(Initial(file), steps);
    RunKeeps(Initial(file), steps);
    SentInOrder(s);
    PipeHoldsPrefix(s.read, s.place, s.contents);
    FileArrives(file, s.contents, s.read, s.sent);
    if AllWell(s) {
      AllRead(s);
      ChunkCount(file, 0);
    }
  }

  // ---- progress ----

  // A write puts as many bytes into the pipe as its result says, the next ones of the message.
  lemma WriteTakes(s: System, result: int)
    requires s.place.Writing? && s.place.written < |s.place.data|
    requires 1 <= result <= |s.place.data| - s.place.written
    ensures var t, from := Apply(s, ServerWrites(result)), s.place.written;
            && t.contents == s.contents + s.place.data[from..from + result]
            && t.place == Writing(s.place.data, from + result)
  {
    var data, from := s.place.data, s.place.written;
    assert data[from..][..result] == data[from..from + result];
  }

  // One chunk on its way from the file to the pipe, without trouble.
  function ChunkSteps(size: nat): seq<Step> {
    [ClientRound(true), ServerReads, ServerWrites(size), ServerWrites(0)]
  }

  // Between two chunks, when all that was sent is in the pipe.
  predicate Settled(s: System) {
    && !s.writesDone && !s.sendFailed && !s.broken && s.written <= |s.file|
    && s.channel == [] && s.place == Reading && s.contents == s.file[..s.written]
  }

  lemma RunFour(s: System, a: Step, b: Step, c: Step, d: Step)
    ensures Run(s, [a, b, c, d]) == Apply(Apply(Apply(Apply(s, a), b), c), d)
  {
    var steps := [a, b, c, d];
    assert steps[..3] == [a, b, c] && [a, b, c][..2] == [a, b] && [a, b][..1] == [a] && [a][..0] == [];
    assert Run(s, []) == s;
    assert Run(s, [a]) == Apply(s, a);
    assert Run(s, [a, b]) == Apply(Run(s, [a]), b);
    assert Run(s, [a, b, c]) == Apply(Run(s, [a, b]), c);
  }

  lemma ChunkMoves(s: System, size: nat)
    requires Settled(s) && s.written < |s.file| && size == Min(PACKAGE_BYTES, |s.file| - s.written)
    ensures var t := Run(s, ChunkSteps(size));
            Settled(t) && t.file == s.file && t.written == s.written + size
  {
    RunFour(s, ClientRound(true), ServerReads, ServerWrites(size), ServerWrites(0));
    var data := s.file[s.written..s.written + size];
    var sent := Apply(s, ClientRound(true));
    var read := Apply(sent, ServerReads);
    assert sent.channel == [data] && read.channel == [] && read.place == Writing(data, 0);
    WriteTakes(read, size);
    assert data[0..size] == data;
    assert s.file[..s.written] + data == s.file[..s.written + size];
  }

  lemma {:induction false} RunAppend(s: System, first: seq<Step>, second: seq<Step>)
    ensures Run(s, first + second) == Run(Run(s, first), second)
    decreases |second|
  {
    if second == [] {
      assert first + second == first;
    } else {
      RunAppend(s, first, second[..|second| - 1]);
      assert (first + second)[..|first + second| - 1] == first + second[..|second| - 1];
    }
  }

  lemma LastSteps(s: System)
    requires Settled(s) && s.written == |s.file|
    ensures var t := Run(s, [ClientRound(true), ServerReads]);
            AllWell(t) && t.contents == s.file && t.file == s.file
  {
    var steps: seq<Step> := [ClientRound(true), ServerReads];
    assert steps[..1] == [ClientRound(true)] && steps[..1][..0] == [];
    assert Run(s, []) == s && Run(s, steps[..1]) == Apply(s, ClientRound(true));
    assert s.file[..s.written] == s.file;
  }

  lemma {:induction false} RestArrives(s: System) returns (steps: seq<Step>)
    requires Settled(s)
    ensures AllWell(Run(s, steps)) && Run(s, steps).contents == s.file && Run(s, steps).file == s.file
    decreases |s.file| - s.written
  {
    if s.written == |s.file| {
      steps := [ClientRound(true), ServerReads];
      LastSteps(s);
    } else {
      var size := Min(PACKAGE_BYTES, |s.file| - s.written);
      ChunkMoves(s, size);
      var more := RestArrives(Run(s, ChunkSteps(size)));
      steps := ChunkSteps(size) + more;
      RunAppend(s, ChunkSteps(size), more);
    }
  }

  // Every file can arrive: some run of it ends with nothing failed.
  lemma EveryFileCanArrive(file: Bytes)
    ensures exists steps :: AllWell(Run(Initial(file), steps)) && Run(Initial(file), steps).contents == file
  {
    assert Initial(file).contents == file[..0];
    var steps := RestArrives(Initial(file));
    assert AllWell(Run(Initial(file), steps)) && Run(Initial(file), steps).contents == file;
  }

  // That the stream holds is needed: when it breaks, the server takes what it has read for the
  // whole file and answers OK, and no send of the client need have failed.
  lemma TruncatedRun(file: Bytes)
    requires file != []
    ensures var s := Run(Initial(file), [ClientRound(true), StreamBreaks, ServerReads, ServerReads]);
            && s.sent != [] && !s.sendFailed && s.place == Returned(OK) && s.contents == []
  {
    RunFour(Initial(file), ClientRound(true), StreamBreaks, ServerReads, ServerReads);
  }
}
