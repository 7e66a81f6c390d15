/** Tailing the output of an asynchronous execution (internal/executor/async_runs.go): each poll
    returns what the remote side has written since the stored offsets; the chunks are appended to the
    run's output and only then the offsets move. */
module OutputTail {
  import opened Domain

  datatype Stream = Stdout | Stderr

  /** A stored output row.  `start` is where a polled chunk begins in the remote stream; it is not a
      column.  Response bodies and the rows written at finalisation have none. */
  datatype Chunk = Chunk(stream: Stream, start: Option<nat>, data: string)

  datatype Tail = Tail(chunks: seq<Chunk>, outOff: int, errOff: int)

  datatype PollResult = PollResult(out: string, err: string, body: string, outCursor: int, errCursor: int)

  /** Which of the writes after a poll fail.  A crash makes all later ones fail. */
  datatype Faults = Faults(out: bool, err: bool, body: bool, offsets: bool)

  const NoFaults := Faults(false, false, false, false)

  /** A poll method may leave its cursor unset; then the chunk's length counts. */
  function NextOffset(off: int, chunk: string, cursor: int): int {
    if cursor == 0 && chunk != "" then off + |chunk| else cursor
  }

  function Appended(stream: Stream, start: Option<nat>, data: string, fails: bool): seq<Chunk> {
    if data == "" || fails then [] else [Chunk(stream, start, data)]
  }

  function AppendFailed(poll: PollResult, f: Faults): bool {
    (poll.out != "" && f.out) || (poll.err != "" && f.err) || (poll.body != "" && f.body)
  }

  /** The rows written for a poll's stdout, stderr and response body, in this order. */
  function Written(outStart: Option<nat>, errStart: Option<nat>, poll: PollResult, f: Faults): seq<Chunk> {
    Appended(Stdout, outStart, poll.out, f.out)
    + (Appended(Stderr, errStart, poll.err, f.err) + Appended(Stdout, None, poll.body, f.body))
  }

  function PollStep(t: Tail, poll: PollResult, f: Faults): Tail
    requires t.outOff >= 0 && t.errOff >= 0
  {
    var chunks := t.chunks + Written(Some(t.outOff), Some(t.errOff), poll, f);
    if AppendFailed(poll, f) || f.offsets then Tail(chunks, t.outOff, t.errOff)
    else Tail(chunks, NextOffset(t.outOff, poll.out, poll.outCursor), NextOffset(t.errOff, poll.err, poll.errCursor))
  }

  /** `finalizeRunResult` writes the chunks of the terminal poll once more; `finalizeRunKilled` does
      not.  Both reset the offsets. */
  function FinalStep(t: Tail, poll: PollResult, killed: bool, f: Faults): Tail {
    Tail(if killed then t.chunks else t.chunks + Written(None, None, poll, f), 0, 0)
  }

  class RunOutput {
    var chunks: seq<Chunk>
    var outOff: int
    var errOff: int

    function Stored(): Tail
      reads this
    {
      Tail(chunks, outOff, errOff)
    }

    /** The execution handle is saved: a fresh attempt, nothing read yet. */
    constructor ()
      ensures Stored() == Tail([], 0, 0)
    {
      chunks, outOff, errOff := [], 0, 0;
    }

    method Append(stream: Stream, start: Option<nat>, data: string, fails: bool) returns (failed: bool)
      modifies this`chunks
      ensures failed == (data != "" && fails)
      ensures chunks == old(chunks) + Appended(stream, start, data, fails)
    {
      if data == "" {
        return false;
      }
      if fails {
        return true;
      }
      chunks := chunks + [Chunk(stream, start, data)];
      failed := false;
    }

    method AppendAll(outStart: Option<nat>, errStart: Option<nat>, poll: PollResult, f: Faults) returns (appendFailed: bool)
      modifies this`chunks
      ensures appendFailed == AppendFailed(poll, f)
      ensures chunks == old(chunks) + Written(outStart, errStart, poll, f)
    {
      var outFailed := Append(Stdout, outStart, poll.out, f.out);
      var errFailed := Append(Stderr, errStart, poll.err, f.err);
      var bodyFailed := Append(Stdout, None, poll.body, f.body);
      appendFailed := outFailed || errFailed || bodyFailed;
    }

    /** The part of `pollAsyncRun` that stores what a poll returned. */
    method StorePoll(poll: PollResult, f: Faults)
      requires outOff >= 0 && errOff >= 0
      modifies this
      ensures Stored() == PollStep(old(Stored()), poll, f)
      ensures (poll.out != "" && f.out) || (poll.err != "" && f.err) || (poll.body != "" && f.body) || f.offsets ==>
                outOff == old(outOff) && errOff == old(errOff)
      ensures !f.out && !f.err && !f.body && !f.offsets ==>
                && outOff == (if poll.outCursor == 0 && poll.out != "" then old(outOff) + |poll.out| else poll.outCursor)
                && errOff == (if poll.errCursor == 0 && poll.err != "" then old(errOff) + |poll.err| else poll.errCursor)
      ensures Content(chunks, Stdout) == Content(old(chunks), Stdout) + ((if f.out then "" else poll.out) + (if f.body then "" else poll.body))
      ensures Content(chunks, Stderr) == Content(old(chunks), Stderr) + (if f.err then "" else poll.err)
    {
      PollContent(Stored(), poll, f, Stdout);
      PollContent(Stored(), poll, f, Stderr);
      var stdoutOffset, stderrOffset := poll.outCursor, poll.errCursor;
      if stdoutOffset == 0 && poll.out != "" {
        stdoutOffset := outOff + |poll.out|;
      }
      if stderrOffset == 0 && poll.err != "" {
        stderrOffset := errOff + |poll.err|;
      }
      var appendFailed := AppendAll(Some(outOff), Some(errOff), poll, f);
      if !appendFailed && (stdoutOffset != outOff || stderrOffset != errOff) && !f.offsets {
        outOff, errOff := stdoutOffset, stderrOffset;
      }
    }

    /** The writes of the finalisation after a terminal poll; their errors are ignored. */
    method Finalize(poll: PollResult, killed: bool, f: Faults)
      modifies this
      ensures Stored() == FinalStep(old(Stored()), poll, killed, f)
      ensures outOff == 0 && errOff == 0
      ensures killed ==> chunks == old(chunks)
      ensures !killed ==>
                && Content(chunks, Stdout) == Content(old(chunks), Stdout) + ((if f.out then "" else poll.out) + (if f.body then "" else poll.body))
                && Content(chunks, Stderr) == Content(old(chunks), Stderr) + (if f.err then "" else poll.err)
    {
      FinalContent(Stored(), poll, killed, f, Stdout);
      FinalContent(Stored(), poll, killed, f, Stderr);
      if !killed {
        var ignored := AppendAll(None, None, poll, f);
      }
      outOff, errOff := 0, 0;
    }
  }

  // ---------------------------------------------------------------- nothing is lost

  /** What a poll method owes: the remote bytes from the offset on, and a cursor just past them or
      left unset. */
  ghost predicate Honest(remote: string, off: int, chunk: string, cursor: int) {
    && 0 <= off && off + |chunk| <= |remote| && chunk == remote[off..off + |chunk|]
    && (cursor == off + |chunk| || cursor == 0)
  }

  ghost predicate Covers(c: Chunk, stream: Stream, remote: string, i: nat) {
    c.stream == stream && c.start.Some? && c.start.value <= i < c.start.value + |c.data|
    && i < |remote| && c.data[i - c.start.value] == remote[i]
  }

  /** Every remote byte below the offset is in some stored chunk. */
  ghost predicate Covered(chunks: seq<Chunk>, stream: Stream, remote: string, off: int) {
    && 0 <= off <= |remote|
    && forall i :: 0 <= i < off ==> HasByte(chunks, stream, remote, i)
  }

  ghost predicate HasByte(chunks: seq<Chunk>, stream: Stream, remote: string, i: nat) {
    exists k :: 0 <= k < |chunks| && Covers(chunks[k], stream, remote, i)
  }

  lemma CoveredGrows(chunks: seq<Chunk>, more: seq<Chunk>, stream: Stream, remote: string, off: int)
    requires Covered(chunks, stream, remote, off)
    ensures Covered(chunks + more, stream, remote, off)
  {
    forall i | 0 <= i < off ensures HasByte(chunks + more, stream, remote, i) {
      assert HasByte(chunks, stream, remote, i);
      var k :| 0 <= k < |chunks| && Covers(chunks[k], stream, remote, i);
      assert (chunks + more)[k] == chunks[k];
    }
  }

  lemma CoveredAdvances(chunks: seq<Chunk>, j: nat, stream: Stream, remote: string, off: nat, chunk: string, cursor: int)
    requires Covered(chunks, stream, remote, off) && Honest(remote, off, chunk, cursor)
    requires chunk != "" ==> j < |chunks| && chunks[j] == Chunk(stream, Some(off), chunk)
    ensures Covered(chunks, stream, remote, NextOffset(off, chunk, cursor))
  {
    forall i | off <= i < off + |chunk| ensures HasByte(chunks, stream, remote, i) {
      assert Covers(chunks[j], stream, remote, i);
    }
  }

  lemma PollKeepsCovered(t: Tail, poll: PollResult, f: Faults, remoteOut: string, remoteErr: string)
    requires Covered(t.chunks, Stdout, remoteOut, t.outOff) && Covered(t.chunks, Stderr, remoteErr, t.errOff)
    requires Honest(remoteOut, t.outOff, poll.out, poll.outCursor) && Honest(remoteErr, t.errOff, poll.err, poll.errCursor)
    ensures var t' := PollStep(t, poll, f);
            Covered(t'.chunks, Stdout, remoteOut, t'.outOff) && Covered(t'.chunks, Stderr, remoteErr, t'.errOff)
  {
    var o := Appended(Stdout, Some(t.outOff), poll.out, f.out);
    var w := Written(Some(t.outOff), Some(t.errOff), poll, f);
    var chunks := t.chunks + w;
    CoveredGrows(t.chunks, w, Stdout, remoteOut, t.outOff);
    CoveredGrows(t.chunks, w, Stderr, remoteErr, t.errOff);
    if !AppendFailed(poll, f) {
      CoveredAdvances(chunks, |t.chunks|, Stdout, remoteOut, t.outOff, poll.out, poll.outCursor);
      CoveredAdvances(chunks, |t.chunks + o|, Stderr, remoteErr, t.errOff, poll.err, poll.errCursor);
    }
  }

  /** The remote side honours each poll, given what is stored by then. */
  ghost predicate HonestRun(t: Tail, steps: seq<(PollResult, Faults)>, remoteOut: string, remoteErr: string)
    decreases |steps|
  {
    steps == [] ||
    (&& Honest(remoteOut, t.outOff, steps[0].0.out, steps[0].0.outCursor)
     && Honest(remoteErr, t.errOff, steps[0].0.err, steps[0].0.errCursor)
     && HonestRun(PollStep(t, steps[0].0, steps[0].1), steps[1..], remoteOut, remoteErr))
  }

  function After(t: Tail, steps: seq<(PollResult, Faults)>): Tail
    requires t.outOff >= 0 && t.errOff >= 0
    requires forall k :: 0 <= k < |steps| ==> steps[k].0.outCursor >= 0 && steps[k].0.errCursor >= 0
    decreases |steps|
  {
    if steps == [] then t else After(PollStep(t, steps[0].0, steps[0].1), steps[1..])
  }

  /** Output is never lost: whatever appends, offset writes or crashes fail, every remote byte below
      the stored offset of its stream is covered by stored chunks. */
  lemma {:induction false} NeverLost(t: Tail, steps: seq<(PollResult, Faults)>, remoteOut: string, remoteErr: string)
    requires forall k :: 0 <= k < |steps| ==> steps[k].0.outCursor >= 0 && steps[k].0.errCursor >= 0
    requires Covered(t.chunks, Stdout, remoteOut, t.outOff) && Covered(t.chunks, Stderr, remoteErr, t.errOff)
    requires HonestRun(t, steps, remoteOut, remoteErr)
    ensures var t' := After(t, steps);
            Covered(t'.chunks, Stdout, remoteOut, t'.outOff) && Covered(t'.chunks, Stderr, remoteErr, t'.errOff)
    decreases |steps|
  {
    if steps != [] {
      PollKeepsCovered(t, steps[0].0, steps[0].1, remoteOut, remoteErr);
      NeverLost(PollStep(t, steps[0].0, steps[0].1), steps[1..], remoteOut, remoteErr);
    }
  }

  // ---------------------------------------------------------------- when nothing is doubled

  function Content(chunks: seq<Chunk>, stream: Stream): string {
    if chunks == [] then ""
    else Content(chunks[..|chunks| - 1], stream)
         + (if chunks[|chunks| - 1].stream == stream then chunks[|chunks| - 1].data else "")
  }

  lemma {:induction false} ContentConcat(a: seq<Chunk>, b: seq<Chunk>, stream: Stream)
    ensures Content(a + b, stream) == Content(a, stream) + Content(b, stream)
    decreases |b|
  {
    if b == [] {
      assert a + b == a;
    } else {
      assert (a + b)[..|a + b| - 1] == a + b[..|b| - 1];
      ContentConcat(a, b[..|b| - 1], stream);
    }
  }

  lemma AppendedContent(stream: Stream, start: Option<nat>, data: string, fails: bool, of: Stream)
    ensures Content(Appended(stream, start, data, fails), of) == if fails || stream != of then "" else data
  {
    var c := Appended(stream, start, data, fails);
    if c != [] {
      assert Content(c[..0], of) == "";
    }
  }

  /** What a poll adds to a stream: its chunk, and to stdout the response body, unless the write fails. */
  function Added(poll: PollResult, f: Faults, stream: Stream): string {
    if stream == Stdout then (if f.out then "" else poll.out) + (if f.body then "" else poll.body)
    else if f.err then "" else poll.err
  }

  lemma WrittenContent(outStart: Option<nat>, errStart: Option<nat>, poll: PollResult, f: Faults, stream: Stream)
    ensures Content(Written(outStart, errStart, poll, f), stream) == Added(poll, f, stream)
  {
    AppendedContent(Stdout, outStart, poll.out, f.out, stream);
    AppendedContent(Stderr, errStart, poll.err, f.err, stream);
    AppendedContent(Stdout, None, poll.body, f.body, stream);
    var e := Appended(Stderr, errStart, poll.err, f.err);
    var b := Appended(Stdout, None, poll.body, f.body);
    ContentConcat(e, b, stream);
    ContentConcat(Appended(Stdout, outStart, poll.out, f.out), e + b, stream);
  }

  lemma PollContent(t: Tail, poll: PollResult, f: Faults, stream: Stream)
    requires t.outOff >= 0 && t.errOff >= 0
    ensures Content(PollStep(t, poll, f).chunks, stream) == Content(t.chunks, stream) + Added(poll, f, stream)
  {
    WrittenContent(Some(t.outOff), Some(t.errOff), poll, f, stream);
    ContentConcat(t.chunks, Written(Some(t.outOff), Some(t.errOff), poll, f), stream);
  }

  function Offset(t: Tail, stream: Stream): int {
    if stream == Stdout then t.outOff else t.errOff
  }

  function Reported(poll: PollResult, stream: Stream): string {
    if stream == Stdout then poll.out else poll.err
  }

  function Cursor(poll: PollResult, stream: Stream): int {
    if stream == Stdout then poll.outCursor else poll.errCursor
  }

  /** What is stored of the stream is the remote prefix up to its offset. */
  ghost predicate Exact(t: Tail, stream: Stream, remote: string) {
    && t.outOff >= 0 && t.errOff >= 0 && Offset(t, stream) <= |remote|
    && Content(t.chunks, stream) == remote[..Offset(t, stream)]
  }

  /** The poll reports nothing new and leaves its cursor unset, once something was read. */
  predicate Rewinds(t: Tail, poll: PollResult, stream: Stream) {
    Reported(poll, stream) == "" && Cursor(poll, stream) == 0 && Offset(t, stream) > 0
  }

  /** A fault-free poll keeps what is stored of either stream equal to the remote prefix, except when it
      reports nothing new and leaves its cursor unset: that resets the offset to 0. */
  lemma ExactStep(t: Tail, poll: PollResult, stream: Stream, remote: string)
    requires Exact(t, stream, remote) && Honest(remote, Offset(t, stream), Reported(poll, stream), Cursor(poll, stream))
    requires poll.outCursor >= 0 && poll.errCursor >= 0 && (stream == Stdout ==> poll.body == "")
    ensures Exact(PollStep(t, poll, NoFaults), stream, remote)
       <==> !(Reported(poll, stream) == "" && Cursor(poll, stream) == 0 && Offset(t, stream) > 0)
  {
    var t', off, chunk := PollStep(t, poll, NoFaults), Offset(t, stream), Reported(poll, stream);
    PollContent(t, poll, NoFaults, stream);
    assert remote[..off] + chunk == remote[..off + |chunk|];
    assert Content(t'.chunks, stream) == remote[..off + |chunk|];
    assert |remote[..off + |chunk|]| == off + |chunk|;
  }

  /** Nothing fails, and no response body is mixed into stdout. */
  predicate Undisturbed(steps: seq<(PollResult, Faults)>) {
    forall k :: 0 <= k < |steps| ==>
      steps[k].1 == NoFaults && steps[k].0.body == "" && steps[k].0.outCursor >= 0 && steps[k].0.errCursor >= 0
  }

  /** No poll that has nothing to report leaves its cursor unset once something was read. */
  predicate NeverRewinds(t: Tail, steps: seq<(PollResult, Faults)>, stream: Stream)
    requires t.outOff >= 0 && t.errOff >= 0 && Undisturbed(steps)
    decreases |steps|
  {
    steps == [] || (!Rewinds(t, steps[0].0, stream) && NeverRewinds(PollStep(t, steps[0].0, steps[0].1), steps[1..], stream))
  }

  /** More stored than the offset says stays more. */
  lemma {:induction false} SurplusStays(t: Tail, steps: seq<(PollResult, Faults)>, stream: Stream, remoteOut: string, remoteErr: string)
    requires t.outOff >= 0 && t.errOff >= 0 && |Content(t.chunks, stream)| > Offset(t, stream)
    requires Undisturbed(steps) && HonestRun(t, steps, remoteOut, remoteErr)
    ensures var t' := After(t, steps);
            |Content(t'.chunks, stream)| > Offset(t', stream) >= 0
    decreases |steps|
  {
    if steps != [] {
      PollContent(t, steps[0].0, steps[0].1, stream);
      SurplusStays(PollStep(t, steps[0].0, steps[0].1), steps[1..], stream, remoteOut, remoteErr);
    }
  }

  /** Exactly once: when nothing fails, what is stored of either stream is the remote prefix up to its
      offset if and only if no poll ever rewound that offset. */
  lemma {:induction false} ExactlyOnce(t: Tail, steps: seq<(PollResult, Faults)>, stream: Stream, remoteOut: string, remoteErr: string)
    requires var remote := if stream == Stdout then remoteOut else remoteErr; Exact(t, stream, remote)
    requires HonestRun(t, steps, remoteOut, remoteErr) && Undisturbed(steps)
    ensures var remote := if stream == Stdout then remoteOut else remoteErr;
            Exact(After(t, steps), stream, remote) <==> NeverRewinds(t, steps, stream)
    decreases |steps|
  {
    if steps != [] {
      var remote := if stream == Stdout then remoteOut else remoteErr;
      var (poll, faults) := steps[0];
      var t' := PollStep(t, poll, faults);
      ExactStep(t, poll, stream, remote);
      if Rewinds(t, poll, stream) {
        PollContent(t, poll, faults, stream);
        SurplusStays(t', steps[1..], stream, remoteOut, remoteErr);
        var off := Offset(After(t', steps[1..]), stream);
        assert 0 <= off <= |remote| ==> |remote[..off]| == off;
      } else {
        ExactlyOnce(t', steps[1..], stream, remoteOut, remoteErr);
      }
    }
  }

  // ---------------------------------------------------------------- the terminal poll

  lemma FinalContent(t: Tail, poll: PollResult, killed: bool, f: Faults, stream: Stream)
    ensures Content(FinalStep(t, poll, killed, f).chunks, stream) == Content(t.chunks, stream) + if killed then "" else Added(poll, f, stream)
  {
    if !killed {
      WrittenContent(None, None, poll, f, stream);
      ContentConcat(t.chunks, Written(None, None, poll, f), stream);
    }
  }

  predicate Fails(f: Faults, stream: Stream) {
    if stream == Stdout then f.out else f.err
  }

  lemma WrittenTwice(before: string, chunk: string, first: bool, second: bool)
    ensures before + (if first then "" else chunk) + (if second then "" else chunk) == before + chunk
       <==> chunk == "" || first != second
  {
    var stored := before + (if first then "" else chunk) + (if second then "" else chunk);
    assert |stored| == |before| + (if first then 0 else |chunk|) + (if second then 0 else |chunk|);
  }

  /** The last chunk: after a terminal poll what is stored of either stream ends up exact if and only if
      the last chunk is empty or precisely one of its two writes succeeded; the killed path has no second. */
  lemma LastChunk(t: Tail, poll: PollResult, stream: Stream, remote: string, killed: bool, f: Faults, g: Faults)
    requires Exact(t, stream, remote) && Honest(remote, Offset(t, stream), Reported(poll, stream), Cursor(poll, stream))
    requires stream == Stdout ==> poll.body == ""
    ensures var chunk := Reported(poll, stream);
            (Content(FinalStep(PollStep(t, poll, f), poll, killed, g).chunks, stream) == remote[..Offset(t, stream) + |chunk|]
             <==> chunk == "" || Fails(f, stream) != (killed || Fails(g, stream)))
  {
    var chunk, off := Reported(poll, stream), Offset(t, stream);
    PollContent(t, poll, f, stream);
    FinalContent(PollStep(t, poll, f), poll, killed, g, stream);
    assert remote[..off] + chunk == remote[..off + |chunk|];
    var second := if killed || Fails(g, stream) then "" else chunk;
    assert Added(poll, f, stream) == if Fails(f, stream) then "" else chunk;
    assert (if killed then "" else Added(poll, g, stream)) == second;
    WrittenTwice(remote[..off], chunk, Fails(f, stream), killed || Fails(g, stream));
  }
}
