/** Which agents exist, and when an agent counts as alive. */
module AgentRecords {
  import opened Tables
  import opened System
  import opened Counters
  import opened Leases
  import S = Scheduler
  import A = Agents

  predicate Launched(db: Db, b: BuildId) {
    b in db.builds && db.builds[b].transition == Start && db.builds[b].lease.Some?
  }

  predicate BelongsTo(db: Db, row: Agent) {
    Launched(db, row.build) && db.builds[row.build].workspace == row.workspace
  }

  /** A claim that still owes its enrollment finds no agent of its build. */
  predicate Unserved(db: Db, b: BuildId) {
    Launched(db, b) && forall a :: a in db.agents ==> db.agents[a].build != b
  }

  predicate Vouches(db: Db, row: Enrollment) {
    && row.agent in db.agents
    && db.agents[row.agent].workspace == row.workspace && db.agents[row.agent].build == row.build
  }

  ghost predicate AgentsInOrder(s: Sys) {
    && (forall b :: b in s.owed ==> Unserved(s.db, b))
    && (forall a :: a in s.db.agents ==> BelongsTo(s.db, s.db.agents[a]))
    && (forall a, c :: a in s.db.agents && c in s.db.agents && s.db.agents[a].build == s.db.agents[c].build ==> a == c)
    && (forall t :: t in s.db.enrollments ==> Vouches(s.db, s.db.enrollments[t]))
  }

  /** CreateEnrollment can only be refused for an identifier or token already in use. */
  lemma EnrollmentNeverClashes(s: Sys, b: BuildId, agent: AgentId, token: Secret)
    requires AgentsInOrder(s) && b in s.owed
    ensures b in s.db.builds
    ensures A.EnrollmentClashes(s.db, s.db.builds[b].workspace, b, agent, token)
         <==> agent in s.db.agents || token in s.db.enrollments
  {
    assert Unserved(s.db, b);
  }

  // ---- what a step does to the agents ------------------------------------------------------

  predicate TouchesAgents(step: Step) {
    step.Enroll? || step.Register? || step.Heartbeat? || step.MarkReady? || step.MarkStale?
  }

  lemma OthersKeepAgents(cfg: Config, s: Sys, step: Step)
    requires !TouchesAgents(step)
    ensures Apply(cfg, s, step).db.agents == s.db.agents && Apply(cfg, s, step).db.enrollments == s.db.enrollments
    ensures !step.Claim? ==> Apply(cfg, s, step).owed == s.owed
  {
    hide RunningOf, S.NextBuild;
  }

  predicate SameAgent(was: Agent, next: Agent) {
    next.workspace == was.workspace && next.build == was.build
  }

  /** The agents are the same agents, and nothing else that enrollment depends on has changed. */
  ghost predicate OnlyReports(db: Db, after: Db) {
    && after.agents.Keys == db.agents.Keys
    && after.enrollments == db.enrollments && after.builds == db.builds
    && forall a :: a in db.agents ==> SameAgent(db.agents[a], after.agents[a])
  }

  lemma RegisterOnlyReports(db: Db, token: Secret, publicKey: seq<bv8>, secret: Secret, now: Time)
    ensures OnlyReports(db, A.Register(db, token, publicKey, secret, now).Or(db))
  {}

  lemma HeartbeatOnlyReports(db: Db, agent: AgentId, now: Time)
    ensures OnlyReports(db, A.Heartbeat(db, agent, now).Or(db))
  {
    hide A.Report;
  }

  lemma MarkReadyOnlyReports(db: Db, agent: AgentId, now: Time)
    ensures OnlyReports(db, A.MarkReady(db, agent, now).Or(db))
  {
    hide A.Report;
  }

  lemma MarkStaleOnlyReports(db: Db, deadline: Time)
    ensures OnlyReports(db, A.MarkStale(db, deadline))
  {
    hide A.SilentWorkspaces;
  }

  lemma NothingOnlyReports(db: Db)
    ensures OnlyReports(db, db)
  {}

  lemma ReportsKeepAgents(cfg: Config, s: Sys, step: Step)
    requires TouchesAgents(step) && !step.Enroll?
    ensures OnlyReports(s.db, Apply(cfg, s, step).db) && Apply(cfg, s, step).owed == s.owed
  {
    hide OnlyReports;
    match step
    case Register(token, publicKey, secret, now) => RegisterOnlyReports(s.db, token, publicKey, secret, now);
    case Heartbeat(agent, now) => HeartbeatOnlyReports(s.db, agent, now);
    case MarkReady(agent, asked, now) =>
      NothingOnlyReports(s.db);
      MarkReadyOnlyReports(s.db, agent, asked);
    case MarkStale(deadline, now) => MarkStaleOnlyReports(s.db, deadline);
  }

  lemma StillLaunched(cfg: Config, s: Sys, step: Step, b: BuildId)
    requires Launched(s.db, b) && LeasedOnceStarted(s.db.builds[b])
    ensures Launched(Next(cfg, s, step).db, b)
    ensures Next(cfg, s, step).db.builds[b].workspace == s.db.builds[b].workspace
  {
    hide Next;
    NextRowIs(cfg, s, step, b);
    StepAdvances(cfg, s, step, b);
    hide NextRow;
  }

  ghost predicate AllLeasedOnceStarted(db: Db) {
    forall b :: b in db.builds ==> LeasedOnceStarted(db.builds[b])
  }

  lemma RenamedAgentsInOrder(cfg: Config, s: Sys, step: Step)
    requires AgentsInOrder(s) && AllLeasedOnceStarted(s.db)
    requires var after := Next(cfg, s, step);
             && after.db.agents.Keys == s.db.agents.Keys && after.db.enrollments == s.db.enrollments
             && after.owed <= s.owed
             && forall a :: a in s.db.agents ==> SameAgent(s.db.agents[a], after.db.agents[a])
    ensures AgentsInOrder(Next(cfg, s, step))
  {
    hide Next;
    var after := Next(cfg, s, step);
    forall b | b in after.owed ensures Unserved(after.db, b) {
      assert Unserved(s.db, b);
      StillLaunched(cfg, s, step, b);
    }
    forall a | a in after.db.agents ensures BelongsTo(after.db, after.db.agents[a]) {
      assert BelongsTo(s.db, s.db.agents[a]);
      StillLaunched(cfg, s, step, s.db.agents[a].build);
    }
    forall t | t in after.db.enrollments ensures Vouches(after.db, after.db.enrollments[t]) {
      assert Vouches(s.db, s.db.enrollments[t]);
    }
  }

  lemma EnrollInOrder(cfg: Config, s: Sys, step: Step)
    requires AgentsInOrder(s) && step.Enroll?
    ensures AgentsInOrder(Apply(cfg, s, step))
  {
    if step.b in s.owed && step.b in s.db.builds {
      assert Unserved(s.db, step.b);
      var after := Apply(cfg, s, step);
      forall b | b in after.owed ensures Unserved(after.db, b) {
        assert Unserved(s.db, b);
      }
      forall a | a in after.db.agents ensures BelongsTo(after.db, after.db.agents[a]) {
        assert a in s.db.agents ==> BelongsTo(s.db, s.db.agents[a]);
      }
      forall t | t in after.db.enrollments ensures Vouches(after.db, after.db.enrollments[t]) {
        assert t in s.db.enrollments ==> Vouches(s.db, s.db.enrollments[t]);
      }
    }
  }

  lemma ClaimInOrder(cfg: Config, s: Sys, step: Step)
    requires AgentsInOrder(s) && AllLeasedOnceStarted(s.db) && step.Claim?
    ensures AgentsInOrder(Next(cfg, s, step))
  {
    hide RunningOf, S.NextBuild;
    var after := Next(cfg, s, step);
    forall b | b in after.owed ensures Unserved(after.db, b) {
      if b in s.owed {
        assert Unserved(s.db, b);
        StillLaunched(cfg, s, step, b);
      } else {
        forall a | a in s.db.agents ensures s.db.agents[a].build != b {
          assert BelongsTo(s.db, s.db.agents[a]) && LeasedOnceStarted(s.db.builds[b]);
        }
      }
    }
    forall a | a in after.db.agents ensures BelongsTo(after.db, after.db.agents[a]) {
      assert BelongsTo(s.db, s.db.agents[a]);
      StillLaunched(cfg, s, step, s.db.agents[a].build);
    }
    forall t | t in after.db.enrollments ensures Vouches(after.db, after.db.enrollments[t]) {
      assert Vouches(s.db, s.db.enrollments[t]);
    }
  }

  lemma StepKeepsAgentsInOrder(cfg: Config, s: Sys, step: Step)
    requires AgentsInOrder(s) && AllLeasedOnceStarted(s.db)
    ensures AgentsInOrder(Next(cfg, s, step))
  {
    hide Apply, AgentsInOrder;
    if !Happens(s, step) {
    } else if step.Claim? {
      ClaimInOrder(cfg, s, step);
    } else {
      var present := s.(clock := step.now);
      assert AgentsInOrder(present) by { AgentsIgnoreTime(s, step.now); }
      if step.Enroll? {
        EnrollInOrder(cfg, present, step);
      } else {
        if TouchesAgents(step) {
          ReportsKeepAgents(cfg, present, step);
        } else {
          OthersKeepAgents(cfg, present, step);
        }
        RenamedAgentsInOrder(cfg, s, step);
      }
    }
  }

  lemma AgentsIgnoreTime(s: Sys, now: Time)
    requires AgentsInOrder(s)
    ensures AgentsInOrder(s.(clock := now))
  {}

  // ---- ready means it said so since it last registered ------------------------------------------

  predicate Alive(db: Db, agent: AgentId) {
    agent in db.agents && (db.agents[agent].status == AgentStatus.Ready || db.agents[agent].status == AgentStatus.Degraded)
  }

  predicate Registers(s: Sys, step: Step, agent: AgentId) {
    && Happens(s, step) && step.Register?
    && A.Register(s.db, step.token, step.publicKey, step.secret, step.now).Committed?
    && A.Register(s.db, step.token, step.publicKey, step.secret, step.now).value == agent
  }

  predicate ReportsReady(s: Sys, step: Step, agent: AgentId) {
    Happens(s, step) && step.MarkReady? && step.asked <= step.now && step.agent == agent && agent in s.db.agents
  }

  /** The agent reported a healthy workbench after its last registration. */
  predicate ReadySinceRegistering(cfg: Config, s: Sys, steps: seq<Step>, agent: AgentId) {
    if steps == [] then false
    else
      var n := |steps| - 1;
      var before := Run(cfg, s, steps[..n]);
      if Registers(before, steps[n], agent) then false
      else ReportsReady(before, steps[n], agent) || ReadySinceRegistering(cfg, s, steps[..n], agent)
  }

  predicate Undrained(db: Db, agent: AgentId) {
    agent in db.agents ==> db.agents[agent].status != AgentStatus.Drained
  }

  lemma StepKeepsAlive(cfg: Config, s: Sys, step: Step, agent: AgentId)
    requires Undrained(s.db, agent)
    ensures Undrained(Next(cfg, s, step).db, agent)
    ensures Alive(Next(cfg, s, step).db, agent) <==>
              !Registers(s, step, agent) && (ReportsReady(s, step, agent) || Alive(s.db, agent))
  {
    if Happens(s, step) && !TouchesAgents(step) {
      OthersKeepAgents(cfg, s.(clock := step.now), step);
      hide Apply;
    }
  }

  /** Heartbeats alone never make an agent alive: exactly a ready report since registering does. */
  lemma {:induction false} AliveMeansReported(cfg: Config, steps: seq<Step>, agent: AgentId)
    ensures Undrained(Run(cfg, INIT, steps).db, agent)
    ensures Alive(Run(cfg, INIT, steps).db, agent) <==> ReadySinceRegistering(cfg, INIT, steps, agent)
  {
    if steps != [] {
      hide Next, Registers, Alive, Undrained;
      var n := |steps| - 1;
      AliveMeansReported(cfg, steps[..n], agent);
      StepKeepsAlive(cfg, Run(cfg, INIT, steps[..n]), steps[n], agent);
    } else {
      assert Run(cfg, INIT, steps) == INIT;
    }
  }
}
