/** A response body cut into frames by the agent and put together again by the control plane. */
module HttpCodec {
  import opened Wrappers
  import opened Frames

  // What one Read of the upstream body returns: some bytes, and whether the body goes on.
  datatype End = Open | Eof | Broken
  datatype Read = Read(data: Bytes, end: End)

  const READ_ERROR: string := "read workbench upstream response"

  /** Reads fill at most the buffer, and exactly the last one ends the body. */
  predicate WellFormed(inputs: seq<Read>) {
    && inputs != []
    && (forall i :: 0 <= i < |inputs| ==> |inputs[i].data| <= MAX_PAYLOAD)
    && (forall i :: 0 <= i < |inputs| - 1 ==> inputs[i].end == Open)
    && inputs[|inputs| - 1].end != Open
  }

  /** The frames written for the remaining reads; the frame variable keeps its body from round to round. */
  function Emit(frame: Frame, inputs: seq<Read>): seq<Frame>
    decreases |inputs|
  {
    if inputs == [] then []
    else
      var read := inputs[0];
      var sent := frame.(body := read.data, more := read.end != Eof);
      var kept := if read.data == [] then frame else sent.(headers := map[]);
      match read.end
      case Eof => if read.data == [] then [frame.(more := false)] else [sent]
      case Broken =>
        var failed := kept.(body := [], more := false, error := READ_ERROR);
        if read.data == [] then [failed] else [sent, failed]
      case Open => if read.data == [] then Emit(kept, inputs[1..]) else [sent] + Emit(kept, inputs[1..])
  }

  function Start(id: nat, status: int, headers: map<string, seq<string>>): Frame {
    Frame(Response, id, headers, [], false, status, "", "")
  }

  /** The copying loop of forwardHTTPRequest. */
  method ForwardResponse(id: nat, status: int, headers: map<string, seq<string>>, inputs: seq<Read>) returns (frames: seq<Frame>)
    requires WellFormed(inputs)
    ensures frames == Emit(Start(id, status, headers), inputs)
  {
    var frame := Start(id, status, headers);
    frames := [];
    var i := 0;
    hide Emit, WellFormed;
    EmitsOneRead(frame, inputs);
    assert inputs[0..] == inputs;
    while true
      invariant i < |inputs| && WellFormed(inputs[i..])
      invariant frames + Emit(frame, inputs[i..]) == Emit(Start(id, status, headers), inputs)
      decreases |inputs| - i
    {
      var read := inputs[i];
      EmitsOneRead(frame, inputs[i..]);
      WritesOne(frames, frame.(body := read.data, more := read.end != Eof),
                Emit(frame.(body := read.data, more := true, headers := map[]), inputs[i..][1..]));
      assert inputs[i..][1..] == inputs[i + 1..];
      if |read.data| > 0 {
        frame := frame.(body := read.data, more := true);
        if read.end == Eof {
          frame := frame.(more := false);
        }
        frames := frames + [frame];
        frame := frame.(headers := map[]);
      }
      if read.end == Eof {
        if |read.data| == 0 {
          frame := frame.(more := false);
          frames := frames + [frame];
        }
        return;
      }
      if read.end == Broken {
        frame := frame.(body := [], more := false, error := READ_ERROR);
        frames := frames + [frame];
        return;
      }
      i := i + 1;
    }
  }

  lemma WritesOne(written: seq<Frame>, frame: Frame, later: seq<Frame>)
    ensures written + ([frame] + later) == written + [frame] + later
  {}

  /** One round of the loop, and what is left. */
  lemma EmitsOneRead(frame: Frame, inputs: seq<Read>)
    requires WellFormed(inputs)
    ensures inputs != []
    ensures inputs[0].end == Open ==> inputs[1..] != [] && WellFormed(inputs[1..])
    ensures var read := inputs[0];
            var sent := frame.(body := read.data, more := read.end != Eof);
            var kept := if read.data == [] then frame else sent.(headers := map[]);
            var failed := kept.(body := [], more := false, error := READ_ERROR);
            Emit(frame, inputs) == if read.end == Eof then [if read.data == [] then frame.(more := false) else sent]
                                   else if read.end == Broken then (if read.data == [] then [failed] else [sent, failed])
                                   else if read.data == [] then Emit(frame, inputs[1..]) else [sent] + Emit(kept, inputs[1..])
  {}

  function Merge(result: Option<Frame>, received: Frame): Frame {
    match result
    case None => received
    case Some(r) => r.(body := r.body + received.body, error := if received.error != "" then received.error else r.error)
  }

  /** What Request returns once it has received these frames; None while it would go on waiting. */
  function Collect(result: Option<Frame>, frames: seq<Frame>): Option<Frame>
    decreases |frames|
  {
    if frames == [] then None
    else
      var merged := Merge(result, frames[0]);
      if frames[0].more then Collect(Some(merged), frames[1..]) else Some(merged)
  }

  /** The receiving loop of Request over the frames delivered to it. */
  method Request(frames: seq<Frame>) returns (answer: Option<Frame>)
    ensures answer == Collect(None, frames)
  {
    var result: Option<Frame> := None;
    for i := 0 to |frames|
      invariant Collect(None, frames) == Collect(result, frames[i..])
    {
      var received := frames[i];
      if result == None {
        result := Some(received);
      } else {
        var r := result.value;
        r := r.(body := r.body + received.body);
        if received.error != "" {
          r := r.(error := received.error);
        }
        result := Some(r);
      }
      if !received.more {
        return result;
      }
    }
    return None;
  }

  // ---- what comes out -----------------------------------------------------------------------------

  function Concat(inputs: seq<Read>): Bytes {
    if inputs == [] then [] else inputs[0].data + Concat(inputs[1..])
  }

  /** The last non-empty chunk read, or the given one. */
  function LastChunk(before: Bytes, inputs: seq<Read>): Bytes
    decreases |inputs|
  {
    if inputs == [] then before
    else LastChunk(if inputs[0].data == [] then before else inputs[0].data, inputs[1..])
  }

  predicate EofAlone(inputs: seq<Read>) {
    inputs != [] && inputs[|inputs| - 1] == Read([], Eof)
  }

  /** What is sent a second time when the end of the body arrives on its own. */
  function Resent(before: Bytes, inputs: seq<Read>): Bytes {
    if EofAlone(inputs) then LastChunk(before, inputs) else []
  }

  function Failure(inputs: seq<Read>): string
    requires inputs != []
  {
    if inputs[|inputs| - 1].end == Broken then READ_ERROR else ""
  }

  lemma {:induction false} LastIs(before: Bytes, inputs: seq<Read>)
    requires WellFormed(inputs) && inputs[0].end != Open
    ensures Concat(inputs) == inputs[0].data
    ensures Resent(before, inputs) == if inputs[0].end == Eof && inputs[0].data == [] then before else []
    ensures Failure(inputs) == if inputs[0].end == Broken then READ_ERROR else ""
  {
    var rest := inputs[1..];
    assert rest == [] && Concat(rest) == [] && LastChunk(before, rest) == before;
    NothingAdded(inputs[0].data);
  }

  lemma {:induction false} CollectsOne(acc: Option<Frame>, last: Frame)
    requires !last.more
    ensures Collect(acc, [last]) == Some(Merge(acc, last))
  {}

  lemma {:induction false} CollectsTwo(acc: Option<Frame>, first: Frame, last: Frame)
    requires first.more && !last.more
    ensures Collect(acc, [first, last]) == Some(Merge(Some(Merge(acc, first)), last))
  {
    assert [first, last][1..] == [last];
    CollectsOne(Some(Merge(acc, first)), last);
  }

  lemma {:induction false} CollectsMore(acc: Option<Frame>, first: Frame, later: seq<Frame>)
    requires first.more
    ensures Collect(acc, [first] + later) == Collect(Some(Merge(acc, first)), later)
  {
    assert ([first] + later)[1..] == later;
  }

  lemma {:induction false} OpenIs(before: Bytes, inputs: seq<Read>)
    requires WellFormed(inputs) && inputs[0].end == Open
    ensures WellFormed(inputs[1..]) && Failure(inputs) == Failure(inputs[1..])
    ensures Concat(inputs) == inputs[0].data + Concat(inputs[1..])
    ensures Resent(before, inputs) == Resent(if inputs[0].data == [] then before else inputs[0].data, inputs[1..])
  {
    var rest := inputs[1..];
    assert rest[|rest| - 1] == inputs[|inputs| - 1];
  }

  lemma Regroup(a: Bytes, b: Bytes, c: Bytes, d: Bytes)
    ensures a + b + c + d == a + (b + c) + d
    ensures [] + c == c
  {
    assert a + b + c == a + (b + c);
  }

  lemma {:induction false} LastCollects(frame: Frame, acc: Frame, inputs: seq<Read>)
    requires WellFormed(inputs) && inputs[0].end != Open && frame.error == "" && acc.error == ""
    ensures Collect(Some(acc), Emit(frame, inputs))
         == Some(acc.(body := acc.body + Concat(inputs) + Resent(frame.body, inputs), error := Failure(inputs)))
  {
    LastIs(frame.body, inputs);
    EmitsOneRead(frame, inputs);
    var read := inputs[0];
    NothingAdded(acc.body + read.data);
    NothingAdded(acc.body);
    hide Emit, Collect, Concat, Resent, Failure, WellFormed;
    var sent := frame.(body := read.data, more := read.end != Eof);
    if read.end == Eof {
      CollectsOne(Some(acc), if read.data == [] then frame.(more := false) else sent);
    } else if read.data == [] {
      CollectsOne(Some(acc), frame.(body := [], more := false, error := READ_ERROR));
    } else {
      CollectsTwo(Some(acc), sent, sent.(headers := map[], body := [], more := false, error := READ_ERROR));
    }
  }

  lemma NothingAdded(body: Bytes)
    ensures body + [] == body
  {}

  /** Later frames extend the result by their bodies, whatever was collected before. */
  lemma {:induction false} TailCollects(frame: Frame, acc: Frame, inputs: seq<Read>)
    requires WellFormed(inputs) && frame.error == "" && acc.error == ""
    ensures Collect(Some(acc), Emit(frame, inputs))
         == Some(acc.(body := acc.body + Concat(inputs) + Resent(frame.body, inputs), error := Failure(inputs)))
    decreases |inputs|
  {
    hide Emit, Collect, Concat, Resent, Failure, WellFormed;
    EmitsOneRead(frame, inputs);
    var read, rest := inputs[0], inputs[1..];
    if read.end != Open {
      LastCollects(frame, acc, inputs);
    } else {
      OpenIs(frame.body, inputs);
      var sent := frame.(body := read.data, more := true);
      var kept := if read.data == [] then frame else sent.(headers := map[]);
      var merged := Merge(Some(acc), sent);
      if read.data == [] {
        Regroup([], [], Concat(rest), []);
        TailCollects(frame, acc, rest);
      } else {
        CollectsMore(Some(acc), sent, Emit(kept, rest));
        TailCollects(kept, merged, rest);
        Regroup(acc.body, read.data, Concat(rest), Resent(read.data, rest));
      }
    }
  }

  /** For every sequence of reads: the original status and headers, the body, and once more the last chunk
      if the end of the body arrived on its own after data. */
  lemma {:induction false} ResponseArrives(frame: Frame, inputs: seq<Read>)
    requires WellFormed(inputs) && frame.error == "" && frame.body == [] && !frame.more
    ensures var answer := Collect(None, Emit(frame, inputs));
            && answer.Some?
            && answer.value.kind == frame.kind && answer.value.id == frame.id
            && answer.value.status == frame.status && answer.value.headers == frame.headers
            && answer.value.body == Concat(inputs) + Resent([], inputs)
            && answer.value.error == Failure(inputs)
            && answer.value.more == (|Emit(frame, inputs)| > 1)
    decreases |inputs|
  {
    hide Emit, Collect, Concat, Resent, Failure, WellFormed;
    EmitsOneRead(frame, inputs);
    var read, rest := inputs[0], inputs[1..];
    var sent := frame.(body := read.data, more := read.end != Eof);
    var failed := sent.(headers := if read.data == [] then frame.headers else map[], body := [], more := false, error := READ_ERROR);
    if read.end == Open {
      OpenIs([], inputs);
      if read.data == [] {
        Regroup([], [], Concat(rest), []);
        ResponseArrives(frame, rest);
      } else {
        var kept := sent.(headers := map[]);
        CollectsMore(None, sent, Emit(kept, rest));
        TailCollects(kept, sent, rest);
        EmitsSomething(kept, rest);
      }
    } else {
      LastIs([], inputs);
      NothingAdded(read.data);
      if read.end == Broken && read.data != [] {
        CollectsTwo(None, sent, failed);
      } else {
        CollectsOne(None, if read.data != [] then sent else if read.end == Eof then frame else failed);
      }
    }
  }

  lemma {:induction false} EmitsSomething(frame: Frame, inputs: seq<Read>)
    requires WellFormed(inputs)
    ensures |Emit(frame, inputs)| >= 1
    decreases |inputs|
  {
    if inputs[0].end == Open && inputs[0].data == [] {
      EmitsSomething(frame, inputs[1..]);
    }
  }

  lemma {:induction false} LastChunkIsEmpty(before: Bytes, inputs: seq<Read>)
    ensures LastChunk(before, inputs) == [] <==> before == [] && forall i :: 0 <= i < |inputs| ==> inputs[i].data == []
    decreases |inputs|
  {
    if inputs != [] {
      LastChunkIsEmpty(if inputs[0].data == [] then before else inputs[0].data, inputs[1..]);
      assert forall i :: 1 <= i < |inputs| ==> inputs[i] == inputs[1..][i - 1];
    }
  }

  /** The body arrives as it was read unless its end came alone after some data. */
  lemma {:induction false} BodyIsExactUnlessEofAlone(frame: Frame, inputs: seq<Read>)
    requires WellFormed(inputs) && frame.error == "" && frame.body == [] && !frame.more
    ensures var answer := Collect(None, Emit(frame, inputs));
            answer.Some? &&
            (answer.value.body == Concat(inputs) <==> !(EofAlone(inputs) && exists i :: 0 <= i < |inputs| && inputs[i].data != []))
  {
    ResponseArrives(frame, inputs);
    LastChunkIsEmpty([], inputs);
    var body := Concat(inputs) + Resent([], inputs);
    assert |body| == |Concat(inputs)| + |Resent([], inputs)|;
    if Resent([], inputs) == [] {
      assert body == Concat(inputs);
    }
  }

  /** What a caller gets for an upstream response: its status and headers, and its body as far as it could be read. */
  lemma {:induction false} UpstreamResponseArrives(id: nat, status: int, headers: map<string, seq<string>>, inputs: seq<Read>)
    requires WellFormed(inputs)
    ensures var answer := Collect(None, Emit(Start(id, status, headers), inputs));
            && answer.Some? && answer.value.id == id && answer.value.kind == Response
            && answer.value.status == status && answer.value.headers == headers
            && answer.value.error == (if inputs[|inputs| - 1].end == Broken then READ_ERROR else "")
            && answer.value.body == Concat(inputs) + (if EofAlone(inputs) then LastChunk([], inputs) else [])
  {
    ResponseArrives(Start(id, status, headers), inputs);
  }

  lemma {:induction false} FramesFit(frame: Frame, inputs: seq<Read>)
    requires WellFormed(inputs) && |frame.body| <= MAX_PAYLOAD
    ensures forall i :: 0 <= i < |Emit(frame, inputs)| ==> |Emit(frame, inputs)[i].body| <= MAX_PAYLOAD
    decreases |inputs|
  {
    var read := inputs[0];
    if read.end == Open {
      var kept := if read.data == [] then frame else frame.(body := read.data, more := true, headers := map[]);
      assert forall i :: 0 <= i < |inputs| - 1 ==> inputs[1..][i] == inputs[i + 1];
      FramesFit(kept, inputs[1..]);
    }
  }

  /** Two reads and a separate end: the second chunk arrives twice. */
  lemma LastChunkArrivesTwice()
    ensures var answer := Collect(None, Emit(Start(1, 200, map[]), [Read([1], Open), Read([2], Open), Read([], Eof)]));
            answer.Some? && answer.value.body == [1, 2, 2]
  {
    var inputs := [Read([1], Open), Read([2], Open), Read([], Eof)];
    ResponseArrives(Start(1, 200, map[]), inputs);
    assert inputs[1..] == [Read([2], Open), Read([], Eof)] && inputs[1..][1..] == [Read([], Eof)] && inputs[1..][1..][1..] == [];
    assert Concat(inputs) == [1, 2];
    assert LastChunk([], inputs) == [2];
  }
}
