/** internal/server/agenthub/tunnel.go as a transition system: every critical section, and every
    close that happens outside one, is a step, and the steps of all goroutines interleave. */
module Tunnels {

  type AgentId = nat
  type ConnId = nat
  type ChanId = nat
  type FrameId = nat
  type ThreadId = nat

  // open is pending != nil; a closed connection has lost both maps.
  datatype Conn = Conn(agent: AgentId, open: bool, pending: map<FrameId, ChanId>, streams: map<FrameId, ChanId>)

  // Where a goroutine is between two critical sections.
  datatype Pc =
    | Requesting(conn: ConnId, id: FrameId, response: ChanId)              // in Request, registered
    | Opening(conn: ConnId, id: FrameId, response: ChanId, stream: ChanId) // in OpenWebSocket, registered
    | CleaningUp(conn: ConnId, id: FrameId, stream: ChanId)                // in OpenWebSocket, before cleanup
    | ClosingSocket(stream: ChanId)                                        // in CloseWebSocket, between delete and close
    | Shutting(conn: ConnId)                                               // in Connect or Disconnect, before Close

  datatype State = State(
    conns: map<ConnId, Conn>,
    registry: map<AgentId, ConnId>,
    closes: map<ChanId, nat>,        // every channel made, and how often it was closed
    threads: map<ThreadId, Pc>,
    used: set<FrameId>)              // auxiliary: the frame identifiers registered so far

  const INIT: State := State(map[], map[], map[], map[], {})

  datatype Step =
    | Connect(t: ThreadId, agent: AgentId, conn: ConnId)
    | Disconnect(t: ThreadId, conn: ConnId)
    | Shut(t: ThreadId)
    | RequestBegin(t: ThreadId, conn: ConnId, id: FrameId, response: ChanId)
    | RequestEnd(t: ThreadId)
    | OpenBegin(t: ThreadId, conn: ConnId, id: FrameId, response: ChanId, stream: ChanId)
    | OpenAnswered(t: ThreadId, ok: bool)
    | OpenCancelled(t: ThreadId)
    | CleanUp(t: ThreadId)
    | TakeSocket(t: ThreadId, conn: ConnId, id: FrameId)
    | CloseSocket(t: ThreadId)

  function CloseChan(closes: map<ChanId, nat>, ch: ChanId): map<ChanId, nat> {
    if ch in closes then closes[ch := closes[ch] + 1] else closes
  }

  /** How many entries of a map hold a channel. */
  function Entries(m: map<FrameId, ChanId>, ch: ChanId): set<FrameId> {
    set id | id in m && m[id] == ch
  }

  /** Close closes the channel of every entry of both maps. */
  function CloseAll(closes: map<ChanId, nat>, c: Conn): map<ChanId, nat> {
    map ch | ch in closes :: closes[ch] + |Entries(c.pending, ch)| + |Entries(c.streams, ch)|
  }

  function Closed(c: Conn): Conn {
    if c.open then c.(open := false, pending := map[], streams := map[]) else c
  }

  function CloseConn(s: State, conn: ConnId): State
    requires conn in s.conns
  {
    if !s.conns[conn].open then s
    else
      s.(closes := CloseAll(s.closes, s.conns[conn]),
         conns := s.conns[conn := Closed(s.conns[conn])])
  }

  function Forget(s: State, t: ThreadId): State {
    s.(threads := s.threads - {t})
  }

  function CleanUpStep(s: State, t: ThreadId, conn: ConnId, id: FrameId, stream: ChanId): State
    requires conn in s.conns
  {
    var c := s.conns[conn];
    var mine := id in c.streams && c.streams[id] == stream;
    Forget(s, t).(conns := s.conns[conn := c.(pending := c.pending - {id}, streams := c.streams - {id})],
                  closes := if mine then CloseChan(s.closes, stream) else s.closes)
  }

  function Next(s: State, step: Step): State {
    match step
    case Connect(t, agent, conn) =>
      if t in s.threads || conn in s.conns then s
      else
        s.(conns := s.conns[conn := Conn(agent, true, map[], map[])],
           registry := s.registry[agent := conn],
           threads := if agent in s.registry then s.threads[t := Shutting(s.registry[agent])] else s.threads)
    case Disconnect(t, conn) =>
      if t in s.threads || conn !in s.conns then s
      else
        var agent := s.conns[conn].agent;
        s.(registry := if agent in s.registry && s.registry[agent] == conn then s.registry - {agent} else s.registry,
           threads := s.threads[t := Shutting(conn)])
    case Shut(t) =>
      if t in s.threads && s.threads[t].Shutting? && s.threads[t].conn in s.conns
      then Forget(CloseConn(s, s.threads[t].conn), t) else s
    case RequestBegin(t, conn, id, response) =>
      if t in s.threads || conn !in s.conns || response in s.closes || !s.conns[conn].open then s
      else
        var c := s.conns[conn];
        s.(conns := s.conns[conn := c.(pending := c.pending[id := response])],
           closes := s.closes[response := 0],
           threads := s.threads[t := Requesting(conn, id, response)],
           used := s.used + {id})
    case RequestEnd(t) =>
      if t in s.threads && s.threads[t].Requesting? && s.threads[t].conn in s.conns then
        var c := s.conns[s.threads[t].conn];
        Forget(s, t).(conns := s.conns[s.threads[t].conn := c.(pending := c.pending - {s.threads[t].id})])
      else s
    case OpenBegin(t, conn, id, response, stream) =>
      if t in s.threads || conn !in s.conns || response in s.closes || stream in s.closes || response == stream || !s.conns[conn].open then s
      else
        var c := s.conns[conn];
        s.(conns := s.conns[conn := c.(pending := c.pending[id := response], streams := c.streams[id := stream])],
           closes := s.closes[response := 0][stream := 0],
           threads := s.threads[t := Opening(conn, id, response, stream)],
           used := s.used + {id})
    case OpenAnswered(t, ok) =>
      if t in s.threads && s.threads[t].Opening? && s.threads[t].conn in s.conns then
        var pc := s.threads[t];
        var c := s.conns[pc.conn];
        var removed := s.(conns := s.conns[pc.conn := c.(pending := c.pending - {pc.id})]);
        if ok then Forget(removed, t) else removed.(threads := s.threads[t := CleaningUp(pc.conn, pc.id, pc.stream)])
      else s
    case OpenCancelled(t) =>
      if t in s.threads && s.threads[t].Opening?
      then s.(threads := s.threads[t := CleaningUp(s.threads[t].conn, s.threads[t].id, s.threads[t].stream)]) else s
    case CleanUp(t) =>
      if t in s.threads && s.threads[t].CleaningUp? && s.threads[t].conn in s.conns
      then CleanUpStep(s, t, s.threads[t].conn, s.threads[t].id, s.threads[t].stream) else s
    case TakeSocket(t, conn, id) =>
      if t in s.threads || conn !in s.conns || id !in s.conns[conn].streams then s
      else
        var c := s.conns[conn];
        s.(conns := s.conns[conn := c.(streams := c.streams - {id})],
           threads := s.threads[t := ClosingSocket(c.streams[id])])
    case CloseSocket(t) =>
      if t in s.threads && s.threads[t].ClosingSocket?
      then Forget(s, t).(closes := CloseChan(s.closes, s.threads[t].stream)) else s
  }

  function Run(s: State, steps: seq<Step>): State {
    if steps == [] then s else Next(Run(s, steps[..|steps| - 1]), steps[|steps| - 1])
  }

  // ---- every channel is closed at most once --------------------------------------------------------

  // The places a close can still reach a channel from.
  datatype Place = InPending(conn: ConnId, id: FrameId) | InStreams(conn: ConnId, id: FrameId) | InHand(t: ThreadId)

  predicate Holds(s: State, place: Place, ch: ChanId) {
    match place
    case InPending(conn, id) => conn in s.conns && id in s.conns[conn].pending && s.conns[conn].pending[id] == ch
    case InStreams(conn, id) => conn in s.conns && id in s.conns[conn].streams && s.conns[conn].streams[id] == ch
    case InHand(t) => t in s.threads && s.threads[t].ClosingSocket? && s.threads[t].stream == ch
  }

  ghost predicate OnePlace(s: State) {
    forall p, q, ch :: Holds(s, p, ch) && Holds(s, q, ch) ==> p == q
  }

  ghost predicate HeldAreOpen(s: State) {
    forall p, ch :: Holds(s, p, ch) ==> ch in s.closes && s.closes[ch] == 0
  }

  ghost predicate ClosedOnce(s: State) {
    forall ch :: ch in s.closes ==> s.closes[ch] <= 1
  }

  predicate LostMaps(c: Conn) {
    !c.open ==> c.pending == map[] && c.streams == map[]
  }

  ghost predicate Tidy(s: State) {
    OnePlace(s) && HeldAreOpen(s) && ClosedOnce(s) && forall c :: c in s.conns ==> LostMaps(s.conns[c])
  }

  /** Steps that only let go of channels. */
  predicate LetsGo(step: Step) {
    step.Connect? || step.Disconnect? || step.RequestEnd? || step.OpenAnswered? || step.OpenCancelled?
  }

  lemma LettingGo(s: State, step: Step, p: Place, ch: ChanId)
    requires LetsGo(step) && Holds(Next(s, step), p, ch)
    ensures Holds(s, p, ch)
  {}

  lemma LettingGoKeepsRest(s: State, step: Step, c: ConnId)
    requires LetsGo(step)
    ensures Next(s, step).closes == s.closes
    ensures c in Next(s, step).conns && (c in s.conns ==> LostMaps(s.conns[c])) ==> LostMaps(Next(s, step).conns[c])
  {}

  lemma LettingGoIsTidy(s: State, step: Step)
    requires Tidy(s) && LetsGo(step)
    ensures Tidy(Next(s, step))
  {
    hide Next, Holds;
    var next := Next(s, step);
    forall p, q, ch | Holds(next, p, ch) && Holds(next, q, ch) ensures p == q {
      LettingGo(s, step, p, ch);
      LettingGo(s, step, q, ch);
    }
    forall p, ch | Holds(next, p, ch) ensures ch in next.closes && next.closes[ch] == 0 {
      LettingGo(s, step, p, ch);
      LettingGoKeepsRest(s, step, 0);
    }
    LettingGoKeepsRest(s, step, 0);
    forall c | c in next.conns ensures LostMaps(next.conns[c]) {
      LettingGoKeepsRest(s, step, c);
    }
  }

  /** A step that registers new channels, each in one place. */
  lemma RegisteringHolds(s: State, step: Step, p: Place, ch: ChanId)
    requires (step.RequestBegin? || step.OpenBegin?) && Holds(Next(s, step), p, ch)
    ensures Holds(s, p, ch)
         || (p == InPending(step.conn, step.id) && ch == step.response && ch !in s.closes && ch in Next(s, step).closes)
         || (step.OpenBegin? && p == InStreams(step.conn, step.id) && ch == step.stream && ch !in s.closes
             && ch in Next(s, step).closes && ch != step.response)
  {}

  lemma RegisteringCloses(s: State, step: Step, ch: ChanId)
    requires step.RequestBegin? || step.OpenBegin?
    ensures ch in s.closes ==> ch in Next(s, step).closes && Next(s, step).closes[ch] == s.closes[ch]
    ensures ch !in s.closes && ch in Next(s, step).closes ==> Next(s, step).closes[ch] == 0
    ensures forall c :: c in Next(s, step).conns ==> c in s.conns && (LostMaps(s.conns[c]) ==> LostMaps(Next(s, step).conns[c]))
  {
  }

  lemma RegisteringIsTidy(s: State, step: Step)
    requires Tidy(s) && (step.RequestBegin? || step.OpenBegin?)
    ensures Tidy(Next(s, step))
  {
    hide Next, Holds;
    var next := Next(s, step);
    forall p, q, ch | Holds(next, p, ch) && Holds(next, q, ch) ensures p == q {
      RegisteringHolds(s, step, p, ch);
      RegisteringHolds(s, step, q, ch);
    }
    forall p, ch | Holds(next, p, ch) ensures ch in next.closes && next.closes[ch] == 0 {
      RegisteringHolds(s, step, p, ch);
      RegisteringCloses(s, step, ch);
    }
    forall ch | ch in next.closes ensures next.closes[ch] <= 1 {
      RegisteringCloses(s, step, ch);
    }
    RegisteringCloses(s, step, 0);
  }

  // ---- the steps that close ------------------------------------------------------------------

  lemma TakeHolds(s: State, step: Step, p: Place, ch: ChanId)
    requires step.TakeSocket? && Holds(Next(s, step), p, ch)
    ensures if p == InHand(step.t) && step.t !in s.threads
            then Holds(s, InStreams(step.conn, step.id), ch) && Next(s, step) != s
            else Holds(s, p, ch) && (Next(s, step) != s ==> p != InStreams(step.conn, step.id))
  {}

  lemma TakeIsTidy(s: State, step: Step)
    requires Tidy(s) && step.TakeSocket?
    ensures Tidy(Next(s, step))
  {
    var next := Next(s, step);
    assert next.closes == s.closes;
    assert forall c :: c in next.conns ==> LostMaps(next.conns[c]);
    hide Next, Holds;
    forall p, q, ch | Holds(next, p, ch) && Holds(next, q, ch) ensures p == q {
      TakeHolds(s, step, p, ch);
      TakeHolds(s, step, q, ch);
    }
    forall p, ch | Holds(next, p, ch) ensures ch in next.closes && next.closes[ch] == 0 {
      TakeHolds(s, step, p, ch);
    }
  }

  /** The one channel a close outside Close hits, and the place it was held in. */
  function Closing(s: State, step: Step): map<ChanId, Place> {
    if step.CloseSocket? && step.t in s.threads && s.threads[step.t].ClosingSocket? then
      map[s.threads[step.t].stream := InHand(step.t)]
    else if step.CleanUp? && step.t in s.threads && s.threads[step.t].CleaningUp?
         && Holds(s, InStreams(s.threads[step.t].conn, s.threads[step.t].id), s.threads[step.t].stream) then
      map[s.threads[step.t].stream := InStreams(s.threads[step.t].conn, s.threads[step.t].id)]
    else map[]
  }

  lemma ClosingHolds(s: State, step: Step, p: Place, ch: ChanId)
    requires step.CloseSocket? || step.CleanUp?
    ensures Holds(Next(s, step), p, ch) ==> Holds(s, p, ch) && !(ch in Closing(s, step) && Closing(s, step)[ch] == p)
    ensures ch in Closing(s, step) ==> Holds(s, Closing(s, step)[ch], ch)
  {}

  lemma ClosingCloses(s: State, step: Step, ch: ChanId)
    requires step.CloseSocket? || step.CleanUp?
    ensures Next(s, step).closes.Keys == s.closes.Keys
    ensures ch in s.closes ==>
              Next(s, step).closes[ch] == s.closes[ch] + if ch in Closing(s, step) then 1 else 0
    ensures forall c :: c in Next(s, step).conns ==> c in s.conns && (LostMaps(s.conns[c]) ==> LostMaps(Next(s, step).conns[c]))
  {}

  lemma ClosingIsTidy(s: State, step: Step)
    requires Tidy(s) && (step.CloseSocket? || step.CleanUp?)
    ensures Tidy(Next(s, step))
  {
    hide Next, Holds, Closing;
    var next := Next(s, step);
    ClosingCloses(s, step, 0);
    forall p, q, ch | Holds(next, p, ch) && Holds(next, q, ch) ensures p == q {
      ClosingHolds(s, step, p, ch);
      ClosingHolds(s, step, q, ch);
    }
    forall p, ch | Holds(next, p, ch) ensures ch in next.closes && next.closes[ch] == 0 {
      ClosingHolds(s, step, p, ch);
      ClosingCloses(s, step, ch);
    }
    forall ch | ch in next.closes ensures next.closes[ch] <= 1 {
      ClosingCloses(s, step, ch);
      if ch in Closing(s, step) {
        ClosingHolds(s, step, Closing(s, step)[ch], ch);
      }
    }
  }

  lemma ShutHolds(s: State, t: ThreadId, p: Place, ch: ChanId)
    requires t in s.threads && s.threads[t].Shutting? && s.threads[t].conn in s.conns
    requires Holds(Next(s, Shut(t)), p, ch)
    ensures Holds(s, p, ch)
    ensures s.conns[s.threads[t].conn].open ==> !p.InHand? ==> p.conn != s.threads[t].conn
  {}

  /** With every channel in one place, Close hits each channel of its maps exactly once. */
  lemma CloseAllOnce(s: State, conn: ConnId, ch: ChanId)
    requires OnePlace(s) && conn in s.conns && ch in s.closes
    ensures CloseAll(s.closes, s.conns[conn])[ch]
         == s.closes[ch] + if exists id :: Holds(s, InPending(conn, id), ch) || Holds(s, InStreams(conn, id), ch) then 1 else 0
  {
    var inPending, inStreams := Entries(s.conns[conn].pending, ch), Entries(s.conns[conn].streams, ch);
    forall id ensures id in inPending <==> Holds(s, InPending(conn, id), ch) {}
    forall id ensures id in inStreams <==> Holds(s, InStreams(conn, id), ch) {}
    if id :| id in inPending {
      assert Holds(s, InPending(conn, id), ch);
      assert inPending == {id} && inStreams == {};
    } else if id :| id in inStreams {
      assert Holds(s, InStreams(conn, id), ch);
      assert inPending == {} && inStreams == {id};
    } else {
      assert inPending == {} && inStreams == {};
    }
  }

  lemma ShutIsTidy(s: State, step: Step)
    requires Tidy(s) && step.Shut?
    ensures Tidy(Next(s, step))
  {
    var next := Next(s, step);
    if step.t in s.threads && s.threads[step.t].Shutting? && s.threads[step.t].conn in s.conns {
      var conn := s.threads[step.t].conn;
      assert next.closes == if s.conns[conn].open then CloseAll(s.closes, s.conns[conn]) else s.closes;
      assert forall c :: c in next.conns ==> LostMaps(next.conns[c]);
      hide Next, Holds;
      forall p, q, ch | Holds(next, p, ch) && Holds(next, q, ch) ensures p == q {
        ShutHolds(s, step.t, p, ch);
        ShutHolds(s, step.t, q, ch);
      }
      forall p, ch | Holds(next, p, ch) ensures ch in next.closes && next.closes[ch] == 0 {
        ShutHolds(s, step.t, p, ch);
        CloseAllOnce(s, conn, ch);
      }
      forall ch | ch in next.closes ensures next.closes[ch] <= 1 {
        assert ch in s.closes;
        CloseAllOnce(s, conn, ch);
      }
    }
  }

  lemma StepIsTidy(s: State, step: Step)
    requires Tidy(s)
    ensures Tidy(Next(s, step))
  {
    hide Next, Tidy;
    if LetsGo(step) {
      LettingGoIsTidy(s, step);
    } else if step.Shut? {
      ShutIsTidy(s, step);
    } else if step.TakeSocket? {
      TakeIsTidy(s, step);
    } else if step.CloseSocket? || step.CleanUp? {
      ClosingIsTidy(s, step);
    } else {
      RegisteringIsTidy(s, step);
    }
  }

  /** However the goroutines interleave, even with repeated frame identifiers, no channel is closed twice. */
  lemma {:induction false} ChannelsCloseOnce(steps: seq<Step>, ch: ChanId)
    ensures Tidy(Run(INIT, steps))
    ensures ch in Run(INIT, steps).closes ==> Run(INIT, steps).closes[ch] <= 1
  {
    if steps != [] {
      hide Next;
      ChannelsCloseOnce(steps[..|steps| - 1], ch);
      StepIsTidy(Run(INIT, steps[..|steps| - 1]), steps[|steps| - 1]);
    }
  }

  // ---- the registry -----------------------------------------------------------------------------

  /** Registered connections are open, and one about to be closed is no longer registered. */
  ghost predicate RegistryIsLive(s: State) {
    && (forall a :: a in s.registry ==> IsLive(s, a))
    && (forall t :: t in s.threads && s.threads[t].Shutting? ==> Unregistered(s, s.threads[t].conn))
  }

  predicate IsLive(s: State, a: AgentId)
    requires a in s.registry
  {
    s.registry[a] in s.conns && s.conns[s.registry[a]].agent == a && s.conns[s.registry[a]].open
  }

  predicate Unregistered(s: State, conn: ConnId) {
    conn in s.conns && var a := s.conns[conn].agent; a in s.registry ==> s.registry[a] != conn
  }

  lemma StepKeepsLive(s: State, step: Step, a: AgentId)
    requires RegistryIsLive(s) && a in Next(s, step).registry
    ensures IsLive(Next(s, step), a)
  {
    hide CloseAll, CloseChan;
    assert a in s.registry ==> IsLive(s, a);
    if step.Shut? && step.t in s.threads && s.threads[step.t].Shutting? {
      assert Unregistered(s, s.threads[step.t].conn);
    }
  }

  lemma StepKeepsUnregistered(s: State, step: Step, t: ThreadId)
    requires RegistryIsLive(s) && t in Next(s, step).threads && Next(s, step).threads[t].Shutting?
    ensures Unregistered(Next(s, step), Next(s, step).threads[t].conn)
  {
    hide CloseAll, CloseChan;
    if t in s.threads && s.threads[t].Shutting? {
      assert Unregistered(s, s.threads[t].conn);
    }
    if step.Connect? && step.agent in s.registry {
      assert IsLive(s, step.agent);
    }
  }

  lemma StepKeepsRegistry(s: State, step: Step)
    requires RegistryIsLive(s)
    ensures RegistryIsLive(Next(s, step))
  {
    hide Next, IsLive, Unregistered;
    forall a | a in Next(s, step).registry ensures IsLive(Next(s, step), a) {
      StepKeepsLive(s, step, a);
    }
    forall t | t in Next(s, step).threads && Next(s, step).threads[t].Shutting? ensures Unregistered(Next(s, step), Next(s, step).threads[t].conn) {
      StepKeepsUnregistered(s, step, t);
    }
  }

  /** Only a new connection of the same agent or its own disconnection removes a connection from the registry. */
  lemma RegistrationPersists(s: State, step: Step, a: AgentId)
    requires RegistryIsLive(s) && a in s.registry
    requires !(step.Connect? && step.agent == a) && !(step.Disconnect? && step.conn == s.registry[a])
    ensures a in Next(s, step).registry && Next(s, step).registry[a] == s.registry[a]
  {
    hide CloseAll;
  }

  lemma {:induction false} RegisteredConnectionsAreOpen(steps: seq<Step>)
    ensures RegistryIsLive(Run(INIT, steps))
  {
    if steps != [] {
      hide Next;
      RegisteredConnectionsAreOpen(steps[..|steps| - 1]);
      StepKeepsRegistry(Run(INIT, steps[..|steps| - 1]), steps[|steps| - 1]);
    }
  }

  /** Disconnecting older connections, however late, never evicts the replacement, which stays open. */
  lemma {:induction false} ReplacementStays(s: State, steps: seq<Step>, a: AgentId)
    requires RegistryIsLive(s) && a in s.registry
    requires forall i :: 0 <= i < |steps| ==>
               !(steps[i].Connect? && steps[i].agent == a) && !(steps[i].Disconnect? && steps[i].conn == s.registry[a])
    ensures RegistryIsLive(Run(s, steps))
    ensures a in Run(s, steps).registry && Run(s, steps).registry[a] == s.registry[a]
  {
    if steps != [] {
      hide Next, RegistryIsLive;
      var n := |steps| - 1;
      ReplacementStays(s, steps[..n], a);
      StepKeepsRegistry(Run(s, steps[..n]), steps[n]);
      RegistrationPersists(Run(s, steps[..n]), steps[n], a);
    }
  }

  // ---- no request waits forever on a closed connection -----------------------------------------

  predicate Waits(pc: Pc) {
    pc.Requesting? || pc.Opening?
  }

  /** The waiting goroutine's channel is registered under its identifier, or already closed with the connection. */
  predicate Covered(s: State, t: ThreadId) {
    && t in s.threads && Waits(s.threads[t]) && s.threads[t].conn in s.conns && s.threads[t].response in s.closes
    && var c := s.conns[s.threads[t].conn];
       if c.open then s.threads[t].id in c.pending && c.pending[s.threads[t].id] == s.threads[t].response
       else s.closes[s.threads[t].response] >= 1
  }

  /** The connection and identifier a step registers or unregisters under, if it does. */
  predicate Writes(s: State, step: Step, conn: ConnId, id: FrameId) {
    match step
    case RequestBegin(t, c, i, response) =>
      c == conn && i == id && t !in s.threads && response !in s.closes
    case OpenBegin(t, c, i, response, stream) =>
      c == conn && i == id && t !in s.threads && response !in s.closes && stream !in s.closes && response != stream
    case RequestEnd(t) => t in s.threads && s.threads[t].Requesting? && s.threads[t].conn == conn && s.threads[t].id == id
    case OpenAnswered(t, _) => t in s.threads && s.threads[t].Opening? && s.threads[t].conn == conn && s.threads[t].id == id
    case CleanUp(t) => t in s.threads && s.threads[t].CleaningUp? && s.threads[t].conn == conn && s.threads[t].id == id
    case _ => false
  }

  lemma CloseAllReaches(closes: map<ChanId, nat>, c: Conn, id: FrameId, ch: ChanId)
    requires id in c.pending && c.pending[id] == ch && ch in closes
    ensures ch in CloseAll(closes, c) && CloseAll(closes, c)[ch] >= 1
  {
    assert id in Entries(c.pending, ch);
  }

  lemma CloseAllGrows(closes: map<ChanId, nat>, c: Conn, ch: ChanId)
    requires ch in closes
    ensures ch in CloseAll(closes, c) && CloseAll(closes, c)[ch] >= closes[ch]
  {}

  /** A covered waiter loses its cover exactly when another goroutine uses its identifier on its open connection. */
  lemma CoverIsLostExactly(s: State, step: Step, t: ThreadId)
    requires Covered(s, t) && t in Next(s, step).threads && Next(s, step).threads[t] == s.threads[t]
    ensures var pc := s.threads[t];
            Covered(Next(s, step), t) <==> !(s.conns[pc.conn].open && Writes(s, step, pc.conn, pc.id))
  {
    var pc := s.threads[t];
    if step.Shut? {
      if step.t in s.threads && s.threads[step.t].Shutting? && s.threads[step.t].conn in s.conns {
        var c := s.conns[s.threads[step.t].conn];
        CloseAllGrows(s.closes, c, pc.response);
        if pc.conn == s.threads[step.t].conn && c.open {
          CloseAllReaches(s.closes, c, pc.id, pc.response);
        }
      }
    }
    hide CloseAll;
  }

  /** Goroutines use distinct identifiers, all of them recorded. */
  predicate Named(pc: Pc) {
    pc.Requesting? || pc.Opening? || pc.CleaningUp?
  }

  ghost predicate DistinctNames(s: State) {
    && (forall t :: t in s.threads && Named(s.threads[t]) ==> s.threads[t].id in s.used)
    && (forall t, u :: t in s.threads && u in s.threads && t != u && Named(s.threads[t]) && Named(s.threads[u]) ==>
          s.threads[t].id != s.threads[u].id)
  }

  ghost predicate AllCovered(s: State) {
    forall t :: t in s.threads && Waits(s.threads[t]) ==> Covered(s, t)
  }

  /** The caller draws a new identifier for every request. */
  predicate Fresh(s: State, step: Step) {
    step.RequestBegin? || step.OpenBegin? ==> step.id !in s.used
  }

  lemma StepKeepsNames(s: State, step: Step)
    requires DistinctNames(s) && Fresh(s, step)
    ensures DistinctNames(Next(s, step))
  {
    hide CloseAll;
  }

  lemma NewWaiterIsCovered(s: State, step: Step, t: ThreadId)
    requires t in Next(s, step).threads && Waits(Next(s, step).threads[t])
    requires t !in s.threads || s.threads[t] != Next(s, step).threads[t]
    ensures Covered(Next(s, step), t)
  {
    hide CloseAll;
  }

  lemma OthersWriteElsewhere(s: State, step: Step, t: ThreadId)
    requires DistinctNames(s) && Fresh(s, step) && t in s.threads && Waits(s.threads[t])
    requires t in Next(s, step).threads && Next(s, step).threads[t] == s.threads[t]
    ensures !(s.threads[t].conn in s.conns && s.conns[s.threads[t].conn].open && Writes(s, step, s.threads[t].conn, s.threads[t].id))
  {
    hide CloseAll;
  }

  lemma StepKeepsCover(s: State, step: Step)
    requires DistinctNames(s) && AllCovered(s) && Fresh(s, step)
    ensures AllCovered(Next(s, step))
  {
    hide Next, Covered, DistinctNames, Writes;
    var next := Next(s, step);
    forall t | t in next.threads && Waits(next.threads[t]) ensures Covered(next, t) {
      if t in s.threads && s.threads[t] == next.threads[t] {
        OthersWriteElsewhere(s, step, t);
        CoveredHasConn(s, t);
        CoverIsLostExactly(s, step, t);
      } else {
        NewWaiterIsCovered(s, step, t);
      }
    }
  }

  lemma CoveredHasConn(s: State, t: ThreadId)
    requires Covered(s, t)
    ensures t in s.threads && Waits(s.threads[t]) && s.threads[t].conn in s.conns
  {}

  predicate FreshRun(steps: seq<Step>) {
    steps == [] || (FreshRun(steps[..|steps| - 1]) && Fresh(Run(INIT, steps[..|steps| - 1]), steps[|steps| - 1]))
  }

  /** With distinct identifiers, whoever still waits on a closed connection has a channel closed exactly once. */
  lemma {:induction false} ClosedConnectionsReleaseWaiters(steps: seq<Step>)
    requires FreshRun(steps)
    ensures DistinctNames(Run(INIT, steps)) && AllCovered(Run(INIT, steps))
    ensures var s := Run(INIT, steps);
            forall t :: t in s.threads && Waits(s.threads[t]) ==>
              && s.threads[t].conn in s.conns && s.threads[t].response in s.closes
              && (!s.conns[s.threads[t].conn].open ==> s.closes[s.threads[t].response] == 1)
  {
    hide Next;
    if steps != [] {
      var n := |steps| - 1;
      ClosedConnectionsReleaseWaiters(steps[..n]);
      StepKeepsNames(Run(INIT, steps[..n]), steps[n]);
      StepKeepsCover(Run(INIT, steps[..n]), steps[n]);
    }
    hide DistinctNames;
    var s := Run(INIT, steps);
    forall t | t in s.threads && Waits(s.threads[t])
      ensures s.threads[t].conn in s.conns && s.threads[t].response in s.closes
      ensures !s.conns[s.threads[t].conn].open ==> s.closes[s.threads[t].response] == 1
    {
      assert Covered(s, t);
      ChannelsCloseOnce(steps, s.threads[t].response);
    }
  }

  // ---- no entry outlives its call ------------------------------------------------------------------

  /** The goroutine will remove the entry for this identifier. */
  predicate Owns(pc: Pc, conn: ConnId, id: FrameId, ch: ChanId) {
    match pc
    case Requesting(c, i, response) => c == conn && i == id && response == ch
    case Opening(c, i, response, _) => c == conn && i == id && response == ch
    case CleaningUp(c, i, _) => c == conn && i == id
    case _ => false
  }

  ghost predicate HasOwner(s: State, conn: ConnId, id: FrameId, ch: ChanId) {
    exists t :: t in s.threads && Owns(s.threads[t], conn, id, ch)
  }

  ghost predicate AllOwned(s: State) {
    forall conn, id :: conn in s.conns && id in s.conns[conn].pending ==> HasOwner(s, conn, id, s.conns[conn].pending[id])
  }

  lemma OwnerStays(s: State, step: Step, conn: ConnId, id: FrameId, t: ThreadId)
    requires conn in Next(s, step).conns && id in Next(s, step).conns[conn].pending
    requires t in s.threads && Owns(s.threads[t], conn, id, Next(s, step).conns[conn].pending[id])
    ensures t in Next(s, step).threads && Owns(Next(s, step).threads[t], conn, id, Next(s, step).conns[conn].pending[id])
  {
    hide CloseAll, CloseChan, Closed;
  }

  lemma NewEntryIsOwned(s: State, step: Step, conn: ConnId, id: FrameId)
    requires conn in Next(s, step).conns && id in Next(s, step).conns[conn].pending
    ensures || (conn in s.conns && id in s.conns[conn].pending && s.conns[conn].pending[id] == Next(s, step).conns[conn].pending[id])
            || ((step.RequestBegin? || step.OpenBegin?) && step.t in Next(s, step).threads
                && Owns(Next(s, step).threads[step.t], conn, id, Next(s, step).conns[conn].pending[id]))
  {
    hide CloseAll, CloseChan;
  }

  lemma StepKeepsOwner(s: State, step: Step, conn: ConnId, id: FrameId)
    requires AllOwned(s) && conn in Next(s, step).conns && id in Next(s, step).conns[conn].pending
    ensures HasOwner(Next(s, step), conn, id, Next(s, step).conns[conn].pending[id])
  {
    hide Next, Owns;
    var ch := Next(s, step).conns[conn].pending[id];
    NewEntryIsOwned(s, step, conn, id);
    if conn in s.conns && id in s.conns[conn].pending && s.conns[conn].pending[id] == ch {
      assert HasOwner(s, conn, id, ch);
      var t :| t in s.threads && Owns(s.threads[t], conn, id, ch);
      OwnerStays(s, step, conn, id, t);
    }
  }

  /** Every pending entry belongs to a call still under way, so none outlives the call that made it. */
  lemma {:induction false} EntriesHaveOwners(steps: seq<Step>)
    ensures AllOwned(Run(INIT, steps))
  {
    hide Next, HasOwner;
    if steps != [] {
      var n := |steps| - 1;
      EntriesHaveOwners(steps[..n]);
      var next := Run(INIT, steps);
      forall conn, id | conn in next.conns && id in next.conns[conn].pending ensures HasOwner(next, conn, id, next.conns[conn].pending[id]) {
        StepKeepsOwner(Run(INIT, steps[..n]), steps[n], conn, id);
      }
    }
  }

  // ---- which waiters Close misses -----------------------------------------------------------------

  /** No close has reached the channel, and none can any more. */
  ghost predicate OutOfReach(s: State, ch: ChanId) {
    ch in s.closes && s.closes[ch] == 0 && forall p :: !Holds(s, p, ch)
  }

  /** A channel held nowhere is picked up by no step. */
  lemma NowhereStays(s: State, step: Step, ch: ChanId, p: Place)
    requires ch in s.closes && Holds(Next(s, step), p, ch)
    ensures exists q :: Holds(s, q, ch)
    ensures !step.TakeSocket? ==> Holds(s, p, ch)
  {
    hide Next, Holds;
    if LetsGo(step) {
      LettingGo(s, step, p, ch);
    } else if step.Shut? {
      ShutLetsGo(s, step, p, ch);
    } else if step.TakeSocket? {
      TakeHolds(s, step, p, ch);
    } else if step.CloseSocket? || step.CleanUp? {
      ClosingHolds(s, step, p, ch);
    } else {
      RegisteringHolds(s, step, p, ch);
    }
  }

  lemma ShutLetsGo(s: State, step: Step, p: Place, ch: ChanId)
    requires step.Shut? && Holds(Next(s, step), p, ch)
    ensures Holds(s, p, ch)
  {
    hide CloseAll;
  }

  lemma NowhereIsNotClosed(s: State, step: Step, ch: ChanId)
    requires Tidy(s) && OutOfReach(s, ch)
    ensures ch in Next(s, step).closes && Next(s, step).closes[ch] == 0
  {
    hide Holds;
    if step.Shut? {
      if step.t in s.threads && s.threads[step.t].Shutting? && s.threads[step.t].conn in s.conns {
        CloseAllOnce(s, s.threads[step.t].conn, ch);
      }
    } else if step.TakeSocket? {
      assert Next(s, step).closes == s.closes;
    } else if step.CloseSocket? || step.CleanUp? {
      ClosingCloses(s, step, ch);
      ClosingHolds(s, step, InHand(0), ch);
    } else if LetsGo(step) {
      LettingGoKeepsRest(s, step, 0);
    } else {
      RegisteringCloses(s, step, ch);
    }
  }

  lemma OutOfReachStays(s: State, step: Step, ch: ChanId)
    requires Tidy(s) && OutOfReach(s, ch)
    ensures OutOfReach(Next(s, step), ch)
  {
    hide Next, Holds, Tidy;
    NowhereIsNotClosed(s, step, ch);
    forall p ensures !Holds(Next(s, step), p, ch) {
      if Holds(Next(s, step), p, ch) {
        NowhereStays(s, step, ch, p);
        assert false;
      }
    }
  }

  lemma WriteFreesPlace(s: State, step: Step, conn: ConnId, id: FrameId, ch: ChanId)
    requires conn in s.conns && s.conns[conn].open && Writes(s, step, conn, id) && ch in s.closes
    ensures !Holds(Next(s, step), InPending(conn, id), ch)
  {}

  lemma WriteClosesOthers(s: State, step: Step, conn: ConnId, id: FrameId, ch: ChanId)
    requires Tidy(s) && Writes(s, step, conn, id) && Holds(s, InPending(conn, id), ch)
    ensures ch in Next(s, step).closes && Next(s, step).closes[ch] == 0
  {
    hide Next, Holds;
    if step.CleanUp? {
      ClosingCloses(s, step, ch);
      ClosingHolds(s, step, InHand(0), ch);
    } else if LetsGo(step) {
      LettingGoKeepsRest(s, step, 0);
    } else {
      RegisteringCloses(s, step, ch);
    }
  }

  lemma OverwritingStrands(s: State, step: Step, t: ThreadId)
    requires Tidy(s) && Covered(s, t)
    requires s.conns[s.threads[t].conn].open && Writes(s, step, s.threads[t].conn, s.threads[t].id)
    ensures OutOfReach(Next(s, step), s.threads[t].response)
  {
    var conn, id, ch := s.threads[t].conn, s.threads[t].id, s.threads[t].response;
    assert Holds(s, InPending(conn, id), ch);
    hide Next, Holds;
    WriteFreesPlace(s, step, conn, id, ch);
    WriteClosesOthers(s, step, conn, id, ch);
    forall p ensures !Holds(Next(s, step), p, ch) {
      if Holds(Next(s, step), p, ch) {
        NowhereStays(s, step, ch, p);
      }
    }
  }

  predicate Stays(s: State, next: State, t: ThreadId) {
    t in s.threads && t in next.threads && next.threads[t] == s.threads[t]
  }

  /** Since the goroutine began to wait, another one has registered or released its identifier on its open connection. */
  predicate Overwritten(steps: seq<Step>, t: ThreadId) {
    if steps == [] then false
    else
      var n := |steps| - 1;
      var before := Run(INIT, steps[..n]);
      && Stays(before, Run(INIT, steps), t)
      && (Overwritten(steps[..n], t)
          || (Waits(before.threads[t]) && before.threads[t].conn in before.conns && before.conns[before.threads[t].conn].open
              && Writes(before, steps[n], before.threads[t].conn, before.threads[t].id)))
  }

  lemma ConnsStay(s: State, step: Step)
    ensures s.conns.Keys <= Next(s, step).conns.Keys
  {}

  lemma {:induction false} WaitersAreOneOrTheOther(steps: seq<Step>, t: ThreadId)
    ensures Tidy(Run(INIT, steps))
    ensures var s := Run(INIT, steps);
            t in s.threads && Waits(s.threads[t]) ==>
              && s.threads[t].conn in s.conns
              && if Overwritten(steps, t) then OutOfReach(s, s.threads[t].response) else Covered(s, t)
  {
    hide Next, Tidy, Covered, OutOfReach, Writes;
    ChannelsCloseOnce(steps, 0);
    if steps != [] {
      var n := |steps| - 1;
      var before, after := Run(INIT, steps[..n]), Run(INIT, steps);
      WaitersAreOneOrTheOther(steps[..n], t);
      ConnsStay(before, steps[n]);
      if t in after.threads && Waits(after.threads[t]) {
        if !Stays(before, after, t) {
          NewWaiterIsCovered(before, steps[n], t);
          CoveredHasConn(after, t);
        } else if Overwritten(steps[..n], t) {
          OutOfReachStays(before, steps[n], before.threads[t].response);
        } else {
          CoveredHasConn(before, t);
          CoverIsLostExactly(before, steps[n], t);
          if Overwritten(steps, t) {
            OverwritingStrands(before, steps[n], t);
          }
        }
      }
    }
  }

  /** Over any run, a goroutine that waits on a closed connection has an open channel exactly when its identifier was
      overwritten before; otherwise its channel was closed, and closed once. */
  lemma {:induction false} CloseMissesExactlyOverwritten(steps: seq<Step>, t: ThreadId)
    requires t in Run(INIT, steps).threads && Waits(Run(INIT, steps).threads[t])
    ensures var s := Run(INIT, steps);
            && s.threads[t].conn in s.conns && s.threads[t].response in s.closes
            && (Covered(s, t) <==> !Overwritten(steps, t))
            && (!s.conns[s.threads[t].conn].open ==> s.closes[s.threads[t].response] == if Overwritten(steps, t) then 0 else 1)
  {
    hide Run, Overwritten, Tidy;
    var s := Run(INIT, steps);
    WaitersAreOneOrTheOther(steps, t);
    ChannelsCloseOnce(steps, s.threads[t].response);
    if Overwritten(steps, t) && s.conns[s.threads[t].conn].open {
      assert !Holds(s, InPending(s.threads[t].conn, s.threads[t].id), s.threads[t].response);
    }
  }

  // Two requests under one identifier, then the agent disconnects.
  const REPEATED: seq<Step> :=
    [Connect(0, 0, 0), RequestBegin(1, 0, 7, 10), RequestBegin(2, 0, 7, 11), Disconnect(3, 0), Shut(3)]

  function BothWaiting(): State {
    State(map[0 := Conn(0, true, map[7 := 11], map[])], map[0 := 0], map[10 := 0, 11 := 0],
          map[1 := Requesting(0, 7, 10), 2 := Requesting(0, 7, 11)], {7})
  }

  lemma BothWait()
    ensures Next(Next(Next(INIT, Connect(0, 0, 0)), RequestBegin(1, 0, 7, 10)), RequestBegin(2, 0, 7, 11)) == BothWaiting()
  {
    var s1 := Next(INIT, Connect(0, 0, 0));
    assert s1 == State(map[0 := Conn(0, true, map[], map[])], map[0 := 0], map[], map[], {});
    var s2 := Next(s1, RequestBegin(1, 0, 7, 10));
    assert s2 == State(map[0 := Conn(0, true, map[7 := 10], map[])], map[0 := 0], map[10 := 0], map[1 := Requesting(0, 7, 10)], {7});
    var s3 := Next(s2, RequestBegin(2, 0, 7, 11));
    assert s2.conns[0].pending[7 := 11] == map[7 := 11];
    assert s3.conns == BothWaiting().conns && s3.registry == BothWaiting().registry;
    assert s3.closes == BothWaiting().closes && s3.threads == BothWaiting().threads && s3.used == {7};
  }

  lemma DisconnectStrands(s: State)
    requires s == BothWaiting()
    ensures var after := Next(Next(s, Disconnect(3, 0)), Shut(3));
            && 1 in after.threads && after.threads[1] == Requesting(0, 7, 10)
            && 0 in after.conns && !after.conns[0].open
            && 10 in after.closes && after.closes[10] == 0
  {
    var c := s.conns[0];
    assert Entries(c.pending, 10) == {} && Entries(c.streams, 10) == {};
    assert Next(s, Disconnect(3, 0)) == s.(registry := s.registry - {0}, threads := s.threads[3 := Shutting(0)]);
  }

  /** With a repeated identifier the first of two requests is stranded: its connection is closed, its channel is not. */
  lemma RepeatedIdentifierStrands()
    ensures var s := Run(INIT, REPEATED);
            && 1 in s.threads && s.threads[1] == Requesting(0, 7, 10)
            && 0 in s.conns && !s.conns[0].open
            && 10 in s.closes && s.closes[10] == 0
  {
    hide Next, BothWaiting;
    BothWait();
    DisconnectStrands(BothWaiting());
    RunsAre(INIT, REPEATED[0], REPEATED[1], REPEATED[2], REPEATED[3], REPEATED[4]);
  }

  lemma {:induction false} RunsAre(s: State, a: Step, b: Step, c: Step, d: Step, e: Step)
    ensures Run(s, [a, b, c, d, e]) == Next(Next(Next(Next(Next(s, a), b), c), d), e)
  {
    hide Next;
    assert [a, b, c, d, e][..4] == [a, b, c, d] && [a, b, c, d][..3] == [a, b, c];
    assert [a, b, c][..2] == [a, b] && [a, b][..1] == [a] && [a][..0] == [];
    assert Run(s, []) == s;
    assert Run(s, [a]) == Next(s, a);
    assert Run(s, [a, b]) == Next(Run(s, [a]), b);
    assert Run(s, [a, b, c]) == Next(Run(s, [a, b]), c);
    assert Run(s, [a, b, c, d]) == Next(Run(s, [a, b, c]), d);
  }
}
