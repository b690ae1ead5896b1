// The audio path: PlayerClient::Play cuts the file into chunks, PlayerServiceImpl::AudioStream
// writes them to the player's pipe, as much at a time as the pipe takes.
module Audio {
  import opened Bytes

  const PACKAGE_BYTES := 1024

  function Min(a: nat, b: nat): nat {
    if a < b then a else b
  }

  // The chunks of a file from an offset on.
  function Chunks(file: Bytes, from: nat): seq<Bytes>
    requires from <= |file|
    decreases |file| - from
  {
    if from == |file| then []
    else
      var size := Min(PACKAGE_BYTES, |file| - from);
      [file[from..from + size]] + Chunks(file, from + size)
  }

  function Joined(chunks: seq<Bytes>): Bytes {
    if chunks == [] then [] else Joined(chunks[..|chunks| - 1]) + chunks[|chunks| - 1]
  }

  // The sending side of the stream; once a write fails, the stream is broken.
  class Sending {
    var sent: seq<Bytes>
    var broken: bool

    constructor ()
      ensures sent == [] && !broken
    {
      sent, broken := [], false;
    }

    method Write(data: Bytes) returns (ok: bool)
      modifies this
      ensures ok ==> sent == old(sent) + [data] && broken == old(broken)
      ensures !ok ==> sent == old(sent) && broken
    {
      ok := *;
      if ok {
        sent := sent + [data];
      } else {
        broken := true;
      }
    }
  }

  // What has been written when the client's loop ends: the first chunks of the file, all of them
  // exactly when no write failed.
  predicate PlayEnds(file: Bytes, sent: seq<Bytes>, failed: bool) {
    if failed then sent < Chunks(file, 0) else sent == Chunks(file, 0)
  }

  // The client's loop.
  method Play(file: Bytes, writer: Sending)
    requires writer.sent == [] && !writer.broken
    modifies writer
    ensures PlayEnds(file, writer.sent, writer.broken)
  {
    var written := 0;
    ghost var all := Chunks(file, 0);
    while written < |file|
      invariant written <= |file| && !writer.broken
      invariant all == writer.sent + Chunks(file, written)
    {
      var toSend := Min(PACKAGE_BYTES, |file| - written);
      var data := file[written..written + toSend];
      ghost var rest := Chunks(file, written + toSend);
      assert Chunks(file, written) == [data] + rest;
      var ok := writer.Write(data);
      if !ok {
        break;
      }
      written := written + toSend;
      assert all == writer.sent + rest;
    }
  }

  // The pipe takes at least one byte of a write, or the write fails.
  class Pipe {
    var contents: Bytes
    var closed: bool

    constructor ()
      ensures contents == [] && !closed
    {
      contents, closed := [], false;
    }

    method Write(data: Bytes) returns (result: int)
      requires data != []
      modifies this`contents
      ensures result == -1 || 1 <= result <= |data|
      ensures contents == if result == -1 then old(contents) else old(contents) + data[..result]
    {
      result := *;
      if result < 1 || result > |data| {
        result := -1;
      } else {
        contents := contents + data[..result];
      }
    }
  }

  datatype Status = OK | UNAUTHENTICATED | ABORTED

  // One message: written piece by piece until all of it is in the pipe or a write fails.
  method WriteAll(data: Bytes, pipe: Pipe) returns (ok: bool)
    modifies pipe`contents
    ensures old(pipe.contents) <= pipe.contents <= old(pipe.contents) + data
    ensures ok <==> pipe.contents == old(pipe.contents) + data
  {
    var written := 0;
    while written < |data|
      invariant written <= |data|
      invariant pipe.contents == old(pipe.contents) + data[..written]
    {
      var writeResult := pipe.Write(data[written..]);
      if writeResult == -1 {
        return false;
      }
      assert data[..written] + data[written..][..writeResult] == data[..written + writeResult];
      written := written + writeResult;
    }
    assert data[..written] == data;
    ok := true;
  }

  // What the pipe holds when the server's loop ends: all that its Read returned exactly when the
  // call ends well, a shorter prefix of it when a write failed.
  predicate StreamEnds(received: seq<Bytes>, contents: Bytes, status: Status) {
    if status == OK then contents == Joined(received) else status == ABORTED && contents < Joined(received)
  }

  // The server's call, over the messages its Read returns. The pipe is closed once the player has
  // it.
  method AudioStream(authenticated: bool, pipeOpens: bool, playerAccepts: bool, received: seq<Bytes>, pipe: Pipe)
    returns (status: Status)
    requires pipe.contents == [] && !pipe.closed
    modifies pipe
    ensures pipe.contents <= Joined(received)
    ensures status == UNAUTHENTICATED <==> !authenticated
    ensures status == OK ==> authenticated && pipeOpens && playerAccepts
    ensures authenticated && pipeOpens && playerAccepts ==> StreamEnds(received, pipe.contents, status)
    ensures pipe.closed <==> authenticated && pipeOpens && playerAccepts
    ensures !pipe.closed ==> pipe.contents == []
  {
    if !authenticated {
      return UNAUTHENTICATED;
    }
    if !pipeOpens {
      return ABORTED;
    }
    if !playerAccepts {
      return ABORTED;
    }
    var i := 0;
    while i < |received|
      invariant i <= |received|
      invariant pipe.contents == Joined(received[..i]) && !pipe.closed
    {
      var data := received[i];
      assert received[..i + 1][..i] == received[..i];
      var ok := WriteAll(data, pipe);
      if !ok {
        pipe.closed := true;
        JoinedPrefix(received, i + 1);
        return ABORTED;
      }
      i := i + 1;
    }
    assert received[..i] == received;
    pipe.closed := true;
    return OK;
  }

  lemma {:induction false} JoinedPrefix(chunks: seq<Bytes>, k: nat)
    requires k <= |chunks|
    ensures Joined(chunks[..k]) <= Joined(chunks)
    decreases |chunks|
  {
    if k == |chunks| {
      assert chunks[..k] == chunks;
    } else {
      JoinedPrefix(chunks[..|chunks| - 1], k);
      assert chunks[..|chunks| - 1][..k] == chunks[..k];
    }
  }

  lemma {:induction false} JoinedAppend(first: seq<Bytes>, second: seq<Bytes>)
    ensures Joined(first + second) == Joined(first) + Joined(second)
  {
    if second == [] {
      assert first + second == first;
    } else {
      var init := second[..|second| - 1];
      JoinedAppend(first, init);
      assert (first + second)[..|first + second| - 1] == first + init;
      Regroup(Joined(first), Joined(init), second[|second| - 1]);
    }
  }

  lemma Regroup(a: Bytes, b: Bytes, c: Bytes)
    ensures a + (b + c) == a + b + c
  {
  }

  // There are ceil(size / 1024) chunks.
  lemma {:induction false} ChunkCount(file: Bytes, from: nat)
    requires from <= |file|
    ensures |Chunks(file, from)| == (|file| - from + 1023) / 1024
    decreases |file| - from
  {
    if from < |file| {
      ChunkCount(file, from + Min(PACKAGE_BYTES, |file| - from));
    }
  }

  // The k-th chunk has the 1024 bytes from 1024*k on, or what is left of the file there.
  lemma {:induction false} ChunkAt(file: Bytes, from: nat, k: nat, at: nat)
    requires from <= |file| && k < |Chunks(file, from)| && at == from + 1024 * k
    ensures at < |file|
    ensures Chunks(file, from)[k] == file[at..if |file| - at < 1024 then |file| else at + 1024]
    decreases k
  {
    if k > 0 {
      ChunkAt(file, from + Min(PACKAGE_BYTES, |file| - from), k - 1, at);
    }
  }

  // The chunks are the file, and each has 1 to 1024 bytes.
  lemma {:induction false} ChunksAreTheFile(file: Bytes, from: nat)
    requires from <= |file|
    ensures Joined(Chunks(file, from)) == file[from..]
    ensures forall chunk | chunk in Chunks(file, from) :: 1 <= |chunk| <= 1024
    decreases |file| - from
  {
    if from < |file| {
      var size := Min(PACKAGE_BYTES, |file| - from);
      ChunksAreTheFile(file, from + size);
      var chunk := file[from..from + size];
      var first: seq<Bytes> := [chunk];
      assert first[..0] == [];
      assert Joined(first) == chunk;
      JoinedAppend(first, Chunks(file, from + size));
      assert chunk + file[from + size..] == file[from..];
    }
  }
}
