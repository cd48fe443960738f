/** When an agent counts as present, told by its own requests and the clock alone. */
module Presence {
  import opened Wrappers
  import opened Tables
  import opened System
  import opened AgentRecords
  import A = Agents

  // ---- one request -----------------------------------------------------------------------------

  /** Everything but the agents and the workspaces is as it was. */
  predicate OnlyAgentsAndWorkspaces(db: Db, after: Db) {
    after == db.(agents := after.agents, workspaces := after.workspaces)
  }

  /** A wanted workspace in one of these observed states becomes running, and no other workspace changes. */
  ghost predicate Lifts(db: Db, after: Db, w: WorkspaceId, from: set<Observed>) {
    && after.workspaces.Keys == db.workspaces.Keys
    && forall v :: v in db.workspaces ==>
         after.workspaces[v] == if v == w && db.workspaces[v].desired == Desired.Running && db.workspaces[v].observed in from
                                then db.workspaces[v].(observed := Observed.Running) else db.workspaces[v]
  }

  /** A heartbeat is recorded with a new fifteen-minute session; unless the agent is starting it becomes ready and its
      wanted degraded workspace running. */
  lemma HeartbeatIsExact(db: Db, agent: AgentId, now: Time)
    ensures A.Heartbeat(db, agent, now).Committed? <==> agent in db.agents
    ensures agent in db.agents ==>
              var row, after := db.agents[agent], A.Heartbeat(db, agent, now).db;
              && OnlyAgentsAndWorkspaces(db, after)
              && after.agents == db.agents[agent := row.(lastHeartbeat := Some(now), sessionExpires := Some(now + 15 * 60 * SECOND),
                                                         status := if row.status == AgentStatus.Starting then row.status else AgentStatus.Ready)]
              && (if row.status == AgentStatus.Starting then after.workspaces == db.workspaces
                  else Lifts(db, after, row.workspace, {Observed.Degraded}))
  {}

  /** A ready report is recorded likewise, and lifts a wanted starting or degraded workspace. */
  lemma ReadyReportIsExact(db: Db, agent: AgentId, asked: Time)
    ensures A.MarkReady(db, agent, asked).Committed? <==> agent in db.agents
    ensures agent in db.agents ==>
              var row, after := db.agents[agent], A.MarkReady(db, agent, asked).db;
              && OnlyAgentsAndWorkspaces(db, after)
              && after.agents == db.agents[agent := row.(lastHeartbeat := Some(asked), sessionExpires := Some(asked + 15 * 60 * SECOND),
                                                         status := AgentStatus.Ready)]
              && Lifts(db, after, row.workspace, {Observed.Starting, Observed.Degraded})
  {}

  /** Exactly a token that has not expired and a key of 32 bytes register its agent, which starts a new session. */
  lemma RegistrationIsExact(db: Db, token: Secret, publicKey: seq<bv8>, secret: Secret, now: Time)
    ensures A.Register(db, token, publicKey, secret, now).Committed?
        <==> |publicKey| == 32 && token in db.enrollments && now < db.enrollments[token].expiresAt
    ensures A.Register(db, token, publicKey, secret, now).Committed? ==>
              var agent, after := db.enrollments[token].agent, A.Register(db, token, publicKey, secret, now).db;
              && A.Register(db, token, publicKey, secret, now).value == agent
              && after == db.(agents := after.agents)
              && (agent in db.agents ==>
                    after.agents == db.agents[agent := db.agents[agent].(status := AgentStatus.Starting,
                                                                         session := Some(Session(secret, publicKey, now)),
                                                                         sessionExpires := Some(now + 15 * 60 * SECOND),
                                                                         lastHeartbeat := Some(now))])
  {}

  /** A ready agent not heard since the deadline. */
  predicate Unheard(db: Db, agent: AgentId, deadline: Time) {
    && agent in db.agents && db.agents[agent].status == AgentStatus.Ready
    && db.agents[agent].lastHeartbeat.Some? && db.agents[agent].lastHeartbeat.value < deadline
  }

  /** Exactly the unheard agents become degraded, and exactly the wanted running workspaces that have one. */
  lemma StaleIsExact(db: Db, deadline: Time)
    ensures var after := A.MarkStale(db, deadline);
            && OnlyAgentsAndWorkspaces(db, after)
            && after.agents.Keys == db.agents.Keys && after.workspaces.Keys == db.workspaces.Keys
            && (forall a :: a in db.agents ==>
                  after.agents[a] == if Unheard(db, a, deadline) then db.agents[a].(status := AgentStatus.Degraded) else db.agents[a])
            && forall w :: w in db.workspaces ==>
                 after.workspaces[w] == if db.workspaces[w].desired == Desired.Running && db.workspaces[w].observed == Observed.Running
                                           && exists a :: Unheard(db, a, deadline) && db.agents[a].workspace == w
                                        then db.workspaces[w].(observed := Observed.Degraded) else db.workspaces[w]
  {
    forall w ensures w in A.SilentWorkspaces(db, deadline) <==> exists a :: Unheard(db, a, deadline) && db.agents[a].workspace == w {
      if a :| Unheard(db, a, deadline) && db.agents[a].workspace == w {
        assert A.Silent(db.agents[a], deadline);
      }
    }
  }

  // ---- over whole runs ---------------------------------------------------------------------------

  // What an agent's own requests and the clock make of it.
  datatype Vital = Vital(clock: Time, status: AgentStatus, heard: Option<Time>, ends: Option<Time>, session: Option<Session>)

  /** The enrollment tokens of an agent and when they expire. */
  function Tokens(db: Db, agent: AgentId): map<Secret, Time> {
    map t | t in db.enrollments && db.enrollments[t].agent == agent :: db.enrollments[t].expiresAt
  }

  function Hear(vital: Vital, status: AgentStatus, at: Time): Vital {
    vital.(status := status, heard := Some(at), ends := Some(at + 15 * 60 * SECOND))
  }

  predicate RegistersWith(step: Step, tokens: map<Secret, Time>) {
    step.Register? && |step.publicKey| == 32 && step.token in tokens && step.now < tokens[step.token]
  }

  function VitalNext(vital: Vital, tokens: map<Secret, Time>, step: Step, agent: AgentId): Vital {
    if step.now < vital.clock then vital
    else
      var present := vital.(clock := step.now);
      if RegistersWith(step, tokens) then
        Hear(present, AgentStatus.Starting, step.now).(session := Some(Session(step.secret, step.publicKey, step.now)))
      else if step.Heartbeat? && step.agent == agent then
        Hear(present, if vital.status == AgentStatus.Starting then AgentStatus.Starting else AgentStatus.Ready, step.now)
      else if step.MarkReady? && step.agent == agent && step.asked <= step.now then
        Hear(present, AgentStatus.Ready, step.asked)
      else if step.MarkStale? && vital.status == AgentStatus.Ready && vital.heard.Some? && vital.heard.value < step.deadline then
        present.(status := AgentStatus.Degraded)
      else
        present
  }

  function VitalAfter(vital: Vital, tokens: map<Secret, Time>, steps: seq<Step>, agent: AgentId): Vital {
    if steps == [] then vital
    else VitalNext(VitalAfter(vital, tokens, steps[..|steps| - 1], agent), tokens, steps[|steps| - 1], agent)
  }

  function VitalOf(s: Sys, agent: AgentId): Vital
    requires agent in s.db.agents
  {
    var row := s.db.agents[agent];
    Vital(s.clock, row.status, row.lastHeartbeat, row.sessionExpires, row.session)
  }

  lemma OthersKeepVital(cfg: Config, s: Sys, step: Step, agent: AgentId)
    requires agent in s.db.agents && !step.Register? && !step.Heartbeat? && !step.MarkReady? && !step.MarkStale?
    ensures agent in Apply(cfg, s, step).db.agents && Apply(cfg, s, step).db.agents[agent] == s.db.agents[agent]
    ensures Tokens(Apply(cfg, s, step).db, agent) == Tokens(s.db, agent)
    ensures Apply(cfg, s, step).clock == s.clock
  {
    if step.Enroll? {
      EnrollKeepsVital(cfg, s, step, agent);
    } else {
      OthersKeepAgents(cfg, s, step);
    }
    ApplyKeepsClock(cfg, s, step);
    hide Apply;
  }

  lemma ApplyKeepsClock(cfg: Config, s: Sys, step: Step)
    ensures Apply(cfg, s, step).clock == s.clock
  {}

  lemma EnrollKeepsVital(cfg: Config, s: Sys, step: Step, agent: AgentId)
    requires agent in s.db.agents && step.Enroll?
    ensures agent in Apply(cfg, s, step).db.agents && Apply(cfg, s, step).db.agents[agent] == s.db.agents[agent]
    ensures Tokens(Apply(cfg, s, step).db, agent) == Tokens(s.db, agent)
  {}

  predicate StepsVital(cfg: Config, s: Sys, step: Step, agent: AgentId)
    requires agent in s.db.agents
  {
    var next := Next(cfg, s, step);
    && agent in next.db.agents
    && VitalOf(next, agent) == VitalNext(VitalOf(s, agent), Tokens(s.db, agent), step, agent)
    && Tokens(next.db, agent) == Tokens(s.db, agent)
  }

  lemma RegisterVital(cfg: Config, s: Sys, step: Step, agent: AgentId)
    requires agent in s.db.agents && s.clock <= step.now && step.Register?
    ensures StepsVital(cfg, s, step, agent)
  {
    RegistrationIsExact(s.db, step.token, step.publicKey, step.secret, step.now);
    hide A.Register;
  }

  lemma HeartbeatVital(cfg: Config, s: Sys, step: Step, agent: AgentId)
    requires agent in s.db.agents && s.clock <= step.now && step.Heartbeat?
    ensures StepsVital(cfg, s, step, agent)
  {
    HeartbeatIsExact(s.db, step.agent, step.now);
    hide A.Heartbeat, Lifts;
  }

  lemma ReadyVital(cfg: Config, s: Sys, step: Step, agent: AgentId)
    requires agent in s.db.agents && s.clock <= step.now && step.MarkReady?
    ensures StepsVital(cfg, s, step, agent)
  {
    ReadyReportIsExact(s.db, step.agent, step.asked);
    hide A.MarkReady, Lifts;
  }

  lemma StaleVital(cfg: Config, s: Sys, step: Step, agent: AgentId)
    requires agent in s.db.agents && s.clock <= step.now && step.MarkStale?
    ensures StepsVital(cfg, s, step, agent)
  {
    StaleIsExact(s.db, step.deadline);
    hide A.MarkStale;
  }

  lemma OtherVital(cfg: Config, s: Sys, step: Step, agent: AgentId)
    requires agent in s.db.agents && !step.Register? && !step.Heartbeat? && !step.MarkReady? && !step.MarkStale?
    ensures StepsVital(cfg, s, step, agent)
  {
    OthersKeepVital(cfg, s.(clock := step.now), step, agent);
    hide Apply;
  }

  lemma PastStepsKeepVital(cfg: Config, s: Sys, step: Step, agent: AgentId)
    requires agent in s.db.agents && step.now < s.clock
    ensures StepsVital(cfg, s, step, agent)
  {}

  lemma VitalStep(cfg: Config, s: Sys, step: Step, agent: AgentId)
    requires agent in s.db.agents
    ensures StepsVital(cfg, s, step, agent)
  {
    hide StepsVital;
    if step.now < s.clock {
      PastStepsKeepVital(cfg, s, step, agent);
    } else {
      match step
      case Register(_, _, _, _) => RegisterVital(cfg, s, step, agent);
      case Heartbeat(_, _) => HeartbeatVital(cfg, s, step, agent);
      case MarkReady(_, _, _) => ReadyVital(cfg, s, step, agent);
      case MarkStale(_, _) => StaleVital(cfg, s, step, agent);
      case _ => OtherVital(cfg, s, step, agent);
    }
  }

  /** Over any run, an agent's row says exactly what its own requests and the deadlines made of it. */
  lemma {:induction false} AgentIsItsVital(cfg: Config, s: Sys, steps: seq<Step>, agent: AgentId)
    requires agent in s.db.agents
    ensures agent in Run(cfg, s, steps).db.agents
    ensures VitalOf(Run(cfg, s, steps), agent) == VitalAfter(VitalOf(s, agent), Tokens(s.db, agent), steps, agent)
    ensures Tokens(Run(cfg, s, steps).db, agent) == Tokens(s.db, agent)
  {
    if steps != [] {
      hide Next, VitalNext, Tokens, VitalOf;
      var n := |steps| - 1;
      AgentIsItsVital(cfg, s, steps[..n], agent);
      VitalStep(cfg, Run(cfg, s, steps[..n]), steps[n], agent);
    }
  }

  /** The agent does not register again, no deadline lies after t and no ready report of its own was made before t. */
  predicate Undisturbed(steps: seq<Step>, tokens: map<Secret, Time>, agent: AgentId, t: Time) {
    forall i :: 0 <= i < |steps| ==>
      && !RegistersWith(steps[i], tokens)
      && (steps[i].MarkStale? ==> steps[i].deadline <= t)
      && (steps[i].MarkReady? && steps[i].agent == agent ==> steps[i].asked >= t)
  }

  lemma {:induction false} VitalStaysReady(vital: Vital, tokens: map<Secret, Time>, steps: seq<Step>, agent: AgentId, t: Time)
    requires vital.status == AgentStatus.Ready && vital.heard.Some? && vital.heard.value >= t && vital.clock >= t
    requires Undisturbed(steps, tokens, agent, t)
    ensures var after := VitalAfter(vital, tokens, steps, agent);
            after.status == AgentStatus.Ready && after.heard.Some? && after.heard.value >= t && after.clock >= t
  {
    if steps != [] {
      VitalStaysReady(vital, tokens, steps[..|steps| - 1], agent, t);
    }
  }

  /** The step's request is one that makes its agent present: a ready report, or a heartbeat once it is not starting. */
  predicate Announces(s: Sys, step: Step, agent: AgentId) {
    && s.clock <= step.now && agent in s.db.agents
    && ((step.MarkReady? && step.agent == agent && step.asked <= step.now)
        || (step.Heartbeat? && step.agent == agent && s.db.agents[agent].status != AgentStatus.Starting))
  }

  /** The clock reading a request is recorded under. */
  function ReadingOf(step: Step): Time {
    if step.MarkReady? then step.asked else step.now
  }

  /** From a ready report or such a heartbeat at time t on, over any run in which it does not register again, the agent is
      present at every moment before t + 45 s, so its workspace has an active agent, and no expiry up to t touches it. */
  lemma {:induction false} AnnouncedAgentIsPresent(cfg: Config, s: Sys, announce: Step, steps: seq<Step>, agent: AgentId, moment: Time)
    requires Announces(s, announce, agent)
    requires Undisturbed(steps, Tokens(s.db, agent), agent, ReadingOf(announce))
    requires moment < ReadingOf(announce) + 45 * SECOND
    ensures var after := Run(cfg, Next(cfg, s, announce), steps).db;
            && agent in after.agents && after.agents[agent].status == AgentStatus.Ready
            && after.agents[agent].lastHeartbeat.Some? && after.agents[agent].lastHeartbeat.value >= ReadingOf(announce)
            && A.Present(after, agent, after.agents[agent].workspace, moment)
            && (forall deadline: Time :: deadline <= ReadingOf(announce) ==> A.MarkStale(after, deadline).agents[agent] == after.agents[agent])
  {
    var next := Next(cfg, s, announce);
    VitalStep(cfg, s, announce, agent);
    assert VitalOf(next, agent).status == AgentStatus.Ready && VitalOf(next, agent).heard == Some(ReadingOf(announce));
    hide Next;
    AgentIsItsVital(cfg, next, steps, agent);
    VitalStaysReady(VitalOf(next, agent), Tokens(s.db, agent), steps, agent, ReadingOf(announce));
  }

  /** An agent is present exactly while it is ready and was heard less than 45 seconds ago. */
  lemma {:induction false} PresenceIsExact(cfg: Config, s: Sys, steps: seq<Step>, agent: AgentId, w: WorkspaceId, moment: Time)
    requires agent in s.db.agents
    ensures agent in Run(cfg, s, steps).db.agents
    ensures var vital := VitalAfter(VitalOf(s, agent), Tokens(s.db, agent), steps, agent);
            A.Present(Run(cfg, s, steps).db, agent, w, moment)
            <==> Run(cfg, s, steps).db.agents[agent].workspace == w && vital.status == AgentStatus.Ready
                 && vital.heard.Some? && moment < vital.heard.value + 45 * SECOND
  {
    AgentIsItsVital(cfg, s, steps, agent);
    hide Run, VitalAfter;
  }

  /** A workspace with a healthy agent is degraded all the same when an earlier agent of it has fallen silent. */
  lemma EarlierAgentDegrades()
    ensures var db := EMPTY_DB.(
              workspaces := map[0 := Workspace(1, None, None, "t", Desired.Running, Observed.Running, 0, None)],
              agents := map[1 := Agent(0, 5, AgentStatus.Ready, None, None, Some(0)),
                            2 := Agent(0, 7, AgentStatus.Ready, None, None, Some(100 * SECOND))]);
            && A.Present(db, 2, 0, 101 * SECOND)
            && 0 in A.MarkStale(db, 60 * SECOND).workspaces
            && A.MarkStale(db, 60 * SECOND).workspaces[0].observed == Observed.Degraded
  {
    var db := EMPTY_DB.(
      workspaces := map[0 := Workspace(1, None, None, "t", Desired.Running, Observed.Running, 0, None)],
      agents := map[1 := Agent(0, 5, AgentStatus.Ready, None, None, Some(0)),
                    2 := Agent(0, 7, AgentStatus.Ready, None, None, Some(100 * SECOND))]);
    assert Unheard(db, 1, 60 * SECOND);
    StaleIsExact(db, 60 * SECOND);
  }
}
