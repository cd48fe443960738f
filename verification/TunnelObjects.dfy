/** The critical sections of internal/server/agenthub/tunnel.go as methods on the objects they lock,
    each against the part of the transition system it performs. */
module TunnelObjects {
  import opened Wrappers
  import opened Tunnels
  import opened Frames
  import opened HttpCodec

  // The channels made so far and how often each was closed.
  class Channels {
    var closes: map<ChanId, nat>

    constructor ()
      ensures closes == map[]
    {
      closes := map[];
    }

    /** make(chan Frame). */
    method Make(ch: ChanId)
      requires ch !in closes
      modifies this
      ensures closes == old(closes)[ch := 0]
    {
      closes := closes[ch := 0];
    }

    method Close(ch: ChanId)
      modifies this
      ensures closes == CloseChan(old(closes), ch)
    {
      if ch in closes {
        closes := closes[ch := closes[ch] + 1];
      }
    }
  }

  /** How many entries of m outside rest hold ch. */
  function DoneWith(m: map<FrameId, ChanId>, rest: set<FrameId>, ch: ChanId): nat {
    |Entries(m, ch) - rest|
  }

  /** The closes after closing the channel of every entry of m outside rest. */
  function ClosedBut(closes: map<ChanId, nat>, m: map<FrameId, ChanId>, rest: set<FrameId>): map<ChanId, nat> {
    map ch | ch in closes :: closes[ch] + DoneWith(m, rest, ch)
  }

  lemma OneMoreEntry(m: map<FrameId, ChanId>, rest: set<FrameId>, id: FrameId, ch: ChanId)
    requires id in rest && id in m
    ensures DoneWith(m, rest - {id}, ch) == DoneWith(m, rest, ch) + if m[id] == ch then 1 else 0
  {
    if m[id] == ch {
      assert Entries(m, ch) - (rest - {id}) == Entries(m, ch) - rest + {id};
    } else {
      assert Entries(m, ch) - (rest - {id}) == Entries(m, ch) - rest;
    }
  }

  lemma CloseNext(closes: map<ChanId, nat>, m: map<FrameId, ChanId>, rest: set<FrameId>, id: FrameId)
    requires id in rest && id in m
    ensures CloseChan(ClosedBut(closes, m, rest), m[id]) == ClosedBut(closes, m, rest - {id})
  {
    hide DoneWith;
    forall ch ensures DoneWith(m, rest - {id}, ch) == DoneWith(m, rest, ch) + if m[id] == ch then 1 else 0 {
      OneMoreEntry(m, rest, id, ch);
    }
  }

  lemma NoEntries(m: map<FrameId, ChanId>, ch: ChanId)
    ensures DoneWith(m, m.Keys, ch) == 0
  {
    assert Entries(m, ch) - m.Keys == {};
  }

  lemma NothingClosed(closes: map<ChanId, nat>, m: map<FrameId, ChanId>)
    ensures ClosedBut(closes, m, m.Keys) == closes
  {
    hide DoneWith;
    forall ch ensures DoneWith(m, m.Keys, ch) == 0 {
      NoEntries(m, ch);
    }
  }

  lemma AllEntries(m: map<FrameId, ChanId>, ch: ChanId)
    ensures DoneWith(m, {}, ch) == |Entries(m, ch)|
  {
    assert Entries(m, ch) - {} == Entries(m, ch);
  }

  lemma EverythingClosed(closes: map<ChanId, nat>, c: Conn)
    ensures ClosedBut(ClosedBut(closes, c.pending, {}), c.streams, {}) == CloseAll(closes, c)
  {
    hide DoneWith, Entries;
    forall ch ensures DoneWith(c.pending, {}, ch) == |Entries(c.pending, ch)| && DoneWith(c.streams, {}, ch) == |Entries(c.streams, ch)| {
      AllEntries(c.pending, ch);
      AllEntries(c.streams, ch);
    }
  }

  datatype Reply = Answered(frame: Frame) | Disconnected | Cancelled

  // How the wait of OpenWebSocket ends: the socket opened, the agent refused or is gone, the caller gave up.
  datatype Opening = Opened | Refused | GivenUp

  class Connection {
    const agent: AgentId
    const channels: Channels
    var open: bool
    var pending: map<FrameId, ChanId>
    var streams: map<FrameId, ChanId>

    function View(): Conn
      reads this
    {
      Conn(agent, open, pending, streams)
    }

    constructor (agent: AgentId, channels: Channels)
      ensures this.agent == agent && this.channels == channels
      ensures View() == Conn(agent, true, map[], map[])
    {
      this.agent, this.channels := agent, channels;
      open, pending, streams := true, map[], map[];
    }

    /** The first section of Request; a channel that is never registered is of no consequence. */
    method Register(id: FrameId, response: ChanId) returns (ok: bool)
      requires response !in channels.closes
      modifies this`pending, channels
      ensures ok <==> open
      ensures View() == if ok then old(View()).(pending := old(pending)[id := response]) else old(View())
      ensures channels.closes == if ok then old(channels.closes)[response := 0] else old(channels.closes)
    {
      if !open {
        return false;
      }
      channels.Make(response);
      pending := pending[id := response];
      return true;
    }

    /** The deferred section of Request. */
    method Unregister(id: FrameId)
      modifies this`pending
      ensures View() == old(View()).(pending := old(pending) - {id})
    {
      pending := pending - {id};
    }

    /** An undisturbed Request that receives these frames, after which its channel is closed or its caller gives up:
        the answer is theirs, and nothing stays registered. */
    method Request(id: FrameId, response: ChanId, frames: seq<Frame>, closed: bool) returns (reply: Reply)
      requires response !in channels.closes
      modifies this`pending, channels
      ensures reply == if !open then Disconnected
                       else
                         var answer := Collect(None, frames);
                         if answer.Some? then Answered(answer.value) else if closed then Disconnected else Cancelled
      ensures View() == if open then old(View()).(pending := old(pending) - {id}) else old(View())
    {
      var ok := Register(id, response);
      if !ok {
        return Disconnected;
      }
      var answer := HttpCodec.Request(frames);
      Unregister(id);
      return if answer.Some? then Answered(answer.value) else if closed then Disconnected else Cancelled;
    }

    /** The first section of OpenWebSocket. */
    method RegisterSocket(id: FrameId, response: ChanId, stream: ChanId) returns (ok: bool)
      requires response !in channels.closes && stream !in channels.closes && response != stream
      modifies this`pending, this`streams, channels
      ensures ok <==> open
      ensures View() == if ok then old(View()).(pending := old(pending)[id := response], streams := old(streams)[id := stream])
                        else old(View())
      ensures channels.closes == if ok then old(channels.closes)[response := 0][stream := 0] else old(channels.closes)
    {
      if !open {
        return false;
      }
      channels.Make(response);
      channels.Make(stream);
      pending := pending[id := response];
      streams := streams[id := stream];
      return true;
    }

    /** An undisturbed OpenWebSocket: a socket that does not open leaves no entry and a stream closed once. */
    method OpenWebSocket(id: FrameId, response: ChanId, stream: ChanId, opening: Opening) returns (ok: bool)
      requires response !in channels.closes && stream !in channels.closes && response != stream
      modifies this`pending, this`streams, channels
      ensures ok <==> open && opening.Opened?
      ensures View() == if !open then old(View())
                        else old(View()).(pending := old(pending) - {id},
                                          streams := if ok then old(streams)[id := stream] else old(streams) - {id})
      ensures channels.closes == if !open then old(channels.closes)
                                 else old(channels.closes)[response := 0][stream := if ok then 0 else 1]
    {
      var registered := RegisterSocket(id, response, stream);
      if !registered {
        return false;
      }
      if opening.GivenUp? {
        CleanUp(id, stream);
        return false;
      }
      Unregister(id);
      if opening.Refused? {
        CleanUp(id, stream);
        return false;
      }
      return true;
    }

    /** OpenWebSocket's cleanup closes the stream only while it is still the registered one. */
    method CleanUp(id: FrameId, stream: ChanId)
      modifies this`pending, this`streams, channels
      ensures View() == old(View()).(pending := old(pending) - {id}, streams := old(streams) - {id})
      ensures channels.closes == if id in old(streams) && old(streams)[id] == stream
                                 then CloseChan(old(channels.closes), stream) else old(channels.closes)
    {
      pending := pending - {id};
      var mine := id in streams && streams[id] == stream;
      streams := streams - {id};
      if mine {
        channels.Close(stream);
      }
    }

    /** CloseWebSocket's section; the caller closes the stream after unlocking. */
    method Take(id: FrameId) returns (taken: Option<ChanId>)
      modifies this`streams
      ensures taken == if id in old(streams) then Some(old(streams)[id]) else None
      ensures View() == old(View()).(streams := old(streams) - {id})
    {
      taken := if id in streams then Some(streams[id]) else None;
      streams := streams - {id};
    }

    /** An undisturbed CloseWebSocket. */
    method CloseWebSocket(id: FrameId)
      modifies this`streams, channels
      ensures View() == old(View()).(streams := old(streams) - {id})
      ensures channels.closes == if id in old(streams) then CloseChan(old(channels.closes), old(streams)[id]) else old(channels.closes)
    {
      var taken := Take(id);
      if taken.Some? {
        channels.Close(taken.value);
      }
    }

    method Close()
      modifies this, channels
      ensures channels.closes == if old(open) then CloseAll(old(channels.closes), old(View())) else old(channels.closes)
      ensures View() == Closed(old(View()))
    {
      if !open {
        return;
      }
      ghost var before := channels.closes;
      var rest := pending.Keys;
      NothingClosed(before, pending);
      while rest != {}
        invariant rest <= pending.Keys && pending == old(pending) && streams == old(streams) && open
        invariant channels.closes == ClosedBut(before, pending, rest)
        decreases rest
      {
        var id :| id in rest;
        CloseNext(before, pending, rest, id);
        channels.Close(pending[id]);
        rest := rest - {id};
      }
      before := channels.closes;
      rest := streams.Keys;
      NothingClosed(before, streams);
      while rest != {}
        invariant rest <= streams.Keys && pending == old(pending) && streams == old(streams) && open
        invariant channels.closes == ClosedBut(before, streams, rest)
        decreases rest
      {
        var id :| id in rest;
        CloseNext(before, streams, rest, id);
        channels.Close(streams[id]);
        rest := rest - {id};
      }
      EverythingClosed(old(channels.closes), old(View()));
      open, pending, streams := false, map[], map[];
    }
  }

  /** The registry of the connected agents. */
  class Registry {
    const channels: Channels
    var connections: map<AgentId, Connection>

    ghost predicate Valid()
      reads this
    {
      forall a :: a in connections ==> connections[a].agent == a && connections[a].channels == channels
    }

    constructor (channels: Channels)
      ensures this.channels == channels && connections == map[] && Valid()
    {
      this.channels, connections := channels, map[];
    }

    /** The new connection takes the agent's place, and then the replaced one is closed. */
    method Connect(agent: AgentId) returns (connection: Connection)
      requires Valid()
      modifies this`connections, channels, connections.Values
      ensures Valid() && fresh(connection)
      ensures connections == old(connections)[agent := connection]
      ensures connection.View() == Conn(agent, true, map[], map[])
      ensures forall a :: a in old(connections) ==>
                (old(connections)[a].View() == if a == agent then Closed(old(connections[a].View())) else old(connections[a].View()))
      ensures channels.closes == if agent in old(connections) && old(connections[agent].open)
                                 then CloseAll(old(channels.closes), old(connections[agent].View())) else old(channels.closes)
    {
      connection := new Connection(agent, channels);
      var previous: Connection? := if agent in connections then connections[agent] else null;
      connections := connections[agent := connection];
      if previous != null {
        previous.Close();
      }
    }

    /** Only the registered connection itself leaves the registry; the given one is closed either way. */
    method Disconnect(agent: AgentId, connection: Connection)
      requires connection.channels == channels
      modifies this`connections, channels, connection
      ensures connections == if agent in old(connections) && old(connections)[agent] == connection
                             then old(connections) - {agent} else old(connections)
      ensures connection.View() == Closed(old(connection.View()))
      ensures channels.closes == if old(connection.open)
                                 then CloseAll(old(channels.closes), old(connection.View())) else old(channels.closes)
    {
      if agent in connections && connections[agent] == connection {
        connections := connections - {agent};
      }
      connection.Close();
    }
  }
}
