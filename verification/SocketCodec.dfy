/** WebSocket messages cut into frames, interleaved with other streams, and put together again. */
module SocketCodec {
  import opened Frames

  datatype Message = Message(kind: string, body: Bytes)

  datatype Delivery = Delivery(id: nat, message: Message)

  function MessageFrame(id: nat, kind: string, body: Bytes, more: bool): Frame {
    Frame(WebSocketMessage, id, map[], body, more, 0, "", kind)
  }

  /** The frames of one message. */
  function Split(id: nat, kind: string, body: Bytes): seq<Frame>
    decreases |body|
  {
    if |body| <= MAX_PAYLOAD then [MessageFrame(id, kind, body, false)]
    else [MessageFrame(id, kind, body[..MAX_PAYLOAD], true)] + Split(id, kind, body[MAX_PAYLOAD..])
  }

  method WriteWebSocketFrames(id: nat, kind: string, message: Bytes) returns (frames: seq<Frame>)
    ensures frames == Split(id, kind, message)
  {
    frames := [];
    var body := message;
    if |body| == 0 {
      return [MessageFrame(id, kind, [], false)];
    }
    while |body| > 0
      invariant if |body| > 0 then frames + Split(id, kind, body) == Split(id, kind, message) else frames == Split(id, kind, message)
      decreases |body|
    {
      var count := if |body| < MAX_PAYLOAD then |body| else MAX_PAYLOAD;
      var frame := MessageFrame(id, kind, body[..count], |body| > count);
      assert count == |body| ==> body[..count] == body;
      frames := frames + [frame];
      body := body[count..];
    }
  }

  /** max(1, ceil(n / 65536)) frames, none of them too large, the last one and only it marked final. */
  lemma {:induction false} SplitShape(id: nat, kind: string, body: Bytes)
    ensures |Split(id, kind, body)| == if body == [] then 1 else (|body| + MAX_PAYLOAD - 1) / MAX_PAYLOAD
    ensures forall i :: 0 <= i < |Split(id, kind, body)| ==>
              var frame := Split(id, kind, body)[i];
              && frame.id == id && frame.messageType == kind && |frame.body| <= MAX_PAYLOAD
              && (frame.more <==> i < |Split(id, kind, body)| - 1)
    decreases |body|
  {
    if |body| > MAX_PAYLOAD {
      SplitShape(id, kind, body[MAX_PAYLOAD..]);
      assert (|body| + MAX_PAYLOAD - 1) / MAX_PAYLOAD == (|body| - MAX_PAYLOAD + MAX_PAYLOAD - 1) / MAX_PAYLOAD + 1;
    }
  }

  // ---- the receiving side ---------------------------------------------------------------------------

  function Pending(bodies: map<nat, Bytes>, id: nat): Bytes {
    if id in bodies then bodies[id] else []
  }

  /** What the read loop writes upstream for these frames; streams are the identifiers with an open upstream. */
  function Deliver(streams: set<nat>, bodies: map<nat, Bytes>, frames: seq<Frame>): seq<Delivery>
    decreases |frames|
  {
    if frames == [] then []
    else
      var frame := frames[0];
      var body := Pending(bodies, frame.id) + frame.body;
      if frame.id !in streams then Deliver(streams, bodies, frames[1..])
      else if frame.more then Deliver(streams, bodies[frame.id := body], frames[1..])
      else [Delivery(frame.id, Message(frame.messageType, body))] + Deliver(streams, bodies - {frame.id}, frames[1..])
  }

  method ReadLoop(streams: set<nat>, frames: seq<Frame>) returns (delivered: seq<Delivery>)
    ensures delivered == Deliver(streams, map[], frames)
  {
    var bodies: map<nat, Bytes> := map[];
    delivered := [];
    for i := 0 to |frames|
      invariant delivered + Deliver(streams, bodies, frames[i..]) == Deliver(streams, map[], frames)
    {
      var frame := frames[i];
      assert frames[i..][0] == frame && frames[i..][1..] == frames[i + 1..];
      if frame.id !in streams {
        continue;
      }
      var body := (if frame.id in bodies then bodies[frame.id] else []) + frame.body;
      if frame.more {
        bodies := bodies[frame.id := body];
        continue;
      }
      bodies := bodies - {frame.id};
      var message := Delivery(frame.id, Message(frame.messageType, body));
      assert delivered + ([message] + Deliver(streams, bodies, frames[i + 1..])) == delivered + [message] + Deliver(streams, bodies, frames[i + 1..]);
      delivered := delivered + [message];
    }
  }

  // ---- round trip ----------------------------------------------------------------------------------

  function FramesOf(frames: seq<Frame>, id: nat): seq<Frame> {
    if frames == [] then []
    else (if frames[0].id == id then [frames[0]] else []) + FramesOf(frames[1..], id)
  }

  function MessagesOf(delivered: seq<Delivery>, id: nat): seq<Message> {
    if delivered == [] then []
    else (if delivered[0].id == id then [delivered[0].message] else []) + MessagesOf(delivered[1..], id)
  }

  /** Receiving a single stream. */
  function Join(body: Bytes, frames: seq<Frame>): seq<Message>
    decreases |frames|
  {
    if frames == [] then []
    else
      var joined := body + frames[0].body;
      if frames[0].more then Join(joined, frames[1..])
      else [Message(frames[0].messageType, joined)] + Join([], frames[1..])
  }

  /** What arrives for one stream depends on that stream's frames alone. */
  lemma {:induction false} StreamsAreIndependent(streams: set<nat>, bodies: map<nat, Bytes>, frames: seq<Frame>, id: nat)
    ensures MessagesOf(Deliver(streams, bodies, frames), id)
         == if id in streams then Join(Pending(bodies, id), FramesOf(frames, id)) else []
    decreases |frames|
  {
    if frames != [] {
      var frame := frames[0];
      var rest := frames[1..];
      var body := Pending(bodies, frame.id) + frame.body;
      if frame.id == id {
        assert FramesOf(frames, id) == [frame] + FramesOf(rest, id);
      } else {
        assert FramesOf(frames, id) == FramesOf(rest, id);
      }
      if frame.id !in streams {
        StreamsAreIndependent(streams, bodies, rest, id);
      } else if frame.more {
        StreamsAreIndependent(streams, bodies[frame.id := body], rest, id);
      } else {
        StreamsAreIndependent(streams, bodies - {frame.id}, rest, id);
        var message := Delivery(frame.id, Message(frame.messageType, body));
        var later := Deliver(streams, bodies - {frame.id}, rest);
        assert Deliver(streams, bodies, frames) == [message] + later;
        assert ([message] + later)[1..] == later;
        assert frame.id != id ==> MessagesOf([message] + later, id) == MessagesOf(later, id);
      }
    }
  }

  lemma {:induction false} JoinUndoesSplit(begun: Bytes, id: nat, kind: string, body: Bytes, rest: seq<Frame>)
    ensures Join(begun, Split(id, kind, body) + rest) == [Message(kind, begun + body)] + Join([], rest)
    decreases |body|
  {
    var frames := Split(id, kind, body) + rest;
    if |body| <= MAX_PAYLOAD {
      assert frames[1..] == rest;
    } else {
      var first, tail := body[..MAX_PAYLOAD], body[MAX_PAYLOAD..];
      assert frames[1..] == Split(id, kind, tail) + rest;
      JoinUndoesSplit(begun + first, id, kind, tail, rest);
      assert begun + first + tail == begun + (first + tail) && first + tail == body;
    }
  }

  /** The frames of a stream's messages, one message after the other. */
  function SplitAll(id: nat, messages: seq<Message>): seq<Frame> {
    if messages == [] then [] else Split(id, messages[0].kind, messages[0].body) + SplitAll(id, messages[1..])
  }

  lemma {:induction false} JoinUndoesSplitAll(id: nat, messages: seq<Message>)
    ensures Join([], SplitAll(id, messages)) == messages
  {
    if messages != [] {
      JoinUndoesSplit([], id, messages[0].kind, messages[0].body, SplitAll(id, messages[1..]));
      JoinUndoesSplitAll(id, messages[1..]);
      assert [] + messages[0].body == messages[0].body;
    }
  }

  /** Whatever is delivered belongs to an open stream and to a frame that came in. */
  lemma {:induction false} DeliveredCameIn(streams: set<nat>, bodies: map<nat, Bytes>, frames: seq<Frame>, delivery: Delivery)
    requires delivery in Deliver(streams, bodies, frames)
    ensures delivery.id in streams && exists i :: 0 <= i < |frames| && frames[i].id == delivery.id
    decreases |frames|
  {
    var frame, rest := frames[0], frames[1..];
    var body := Pending(bodies, frame.id) + frame.body;
    if frame.id in streams && !frame.more && delivery == Delivery(frame.id, Message(frame.messageType, body)) {
      assert frames[0].id == delivery.id;
    } else {
      var later := if frame.id !in streams then bodies else if frame.more then bodies[frame.id := body] else bodies - {frame.id};
      DeliveredCameIn(streams, later, rest, delivery);
      var i :| 0 <= i < |rest| && rest[i].id == delivery.id;
      assert frames[i + 1] == rest[i];
    }
  }

  /** Frames that are some interleaving of the streams' messages, and no others. */
  ghost predicate Interleaves(merged: seq<Frame>, sent: map<nat, seq<Message>>) {
    && (forall i :: 0 <= i < |merged| ==> merged[i].id in sent)
    && (forall id :: id in sent ==> FramesOf(merged, id) == SplitAll(id, sent[id]))
  }

  /** Any interleaving of the streams' frames delivers each open stream's messages unchanged and in order,
      and nothing else. */
  lemma {:induction false} RoundTrip(streams: set<nat>, sent: map<nat, seq<Message>>, merged: seq<Frame>)
    requires Interleaves(merged, sent)
    ensures var delivered := Deliver(streams, map[], merged);
            && (forall id :: id in sent ==> MessagesOf(delivered, id) == if id in streams then sent[id] else [])
            && (forall d :: d in delivered ==> d.id in sent && d.id in streams)
  {
    forall id | id in sent
      ensures MessagesOf(Deliver(streams, map[], merged), id) == if id in streams then sent[id] else []
    {
      StreamsAreIndependent(streams, map[], merged, id);
      JoinUndoesSplitAll(id, sent[id]);
    }
    forall d | d in Deliver(streams, map[], merged) ensures d.id in sent && d.id in streams {
      DeliveredCameIn(streams, map[], merged, d);
    }
  }
}
