/** What each transaction of internal/server/agenthub/agenthub.go does to the tables.
    The raw SQL here sees soft-deleted workspaces. */
module Agents {
  import opened Wrappers
  import opened Tables

  predicate EnrollmentClashes(db: Db, w: WorkspaceId, b: BuildId, agent: AgentId, token: Secret) {
    || agent in db.agents
    || token in db.enrollments
    || exists a :: a in db.agents && db.agents[a].workspace == w && db.agents[a].build == b
  }

  function CreateEnrollment(db: Db, w: WorkspaceId, b: BuildId, agent: AgentId, token: Secret, expiresAt: Time): Txn<AgentId> {
    if EnrollmentClashes(db, w, b, agent, token) then RolledBack(DuplicatedKey)
    else
      Committed(db.(agents := db.agents[agent := Agent(w, b, AgentStatus.Starting, None, None, None)],
                    enrollments := db.enrollments[token := Enrollment(w, b, agent, expiresAt)]), agent)
  }

  function Register(db: Db, token: Secret, publicKey: seq<bv8>, secret: Secret, now: Time): Txn<AgentId> {
    if |publicKey| != 32 then RolledBack(InvalidPublicKey)
    else if token !in db.enrollments || db.enrollments[token].expiresAt <= now then RolledBack(InvalidEnrollment)
    else
      var agent := db.enrollments[token].agent;
      Committed(
        if agent in db.agents then
          db.(agents := db.agents[agent := db.agents[agent].(status := AgentStatus.Starting,
                                                             session := Some(Session(secret, publicKey, now)),
                                                             sessionExpires := Some(now + SESSION_TIME),
                                                             lastHeartbeat := Some(now))])
        else db, agent)
  }

  /** UPDATE workspaces SET observed_state = to WHERE id = w AND desired_state = 'running' AND observed_state IN from. */
  function Report(workspaces: map<WorkspaceId, Workspace>, w: WorkspaceId, from: set<Observed>, to: Observed): map<WorkspaceId, Workspace> {
    if w in workspaces && workspaces[w].desired == Desired.Running && workspaces[w].observed in from
    then workspaces[w := workspaces[w].(observed := to)]
    else workspaces
  }

  function Seen(row: Agent, status: AgentStatus, now: Time): Agent {
    row.(status := status, lastHeartbeat := Some(now), sessionExpires := Some(now + SESSION_TIME))
  }

  function Heartbeat(db: Db, agent: AgentId, now: Time): Txn<()> {
    if agent !in db.agents then RolledBack(AgentGone)
    else
      var row := db.agents[agent];
      if row.status == AgentStatus.Starting then
        Committed(db.(agents := db.agents[agent := Seen(row, row.status, now)]), ())
      else
        Committed(db.(agents := db.agents[agent := Seen(row, AgentStatus.Ready, now)],
                      workspaces := Report(db.workspaces, row.workspace, {Observed.Degraded}, Observed.Running)), ())
  }

  /** The clock is read before the transaction begins. */
  function MarkReady(db: Db, agent: AgentId, asked: Time): Txn<()> {
    if agent !in db.agents then RolledBack(AgentGone)
    else
      var row := db.agents[agent];
      Committed(db.(agents := db.agents[agent := Seen(row, AgentStatus.Ready, asked)],
                    workspaces := Report(db.workspaces, row.workspace, {Observed.Starting, Observed.Degraded}, Observed.Running)), ())
  }

  predicate Silent(row: Agent, deadline: Time) {
    row.status == AgentStatus.Ready && row.lastHeartbeat.Some? && row.lastHeartbeat.value < deadline
  }

  function SilentWorkspaces(db: Db, deadline: Time): set<WorkspaceId> {
    set a | a in db.agents && Silent(db.agents[a], deadline) :: db.agents[a].workspace
  }

  function Degrade(row: Workspace): Workspace {
    if row.desired == Desired.Running && row.observed == Observed.Running then row.(observed := Observed.Degraded) else row
  }

  function MarkStale(db: Db, deadline: Time): Db {
    db.(agents := map a | a in db.agents ::
          if Silent(db.agents[a], deadline) then db.agents[a].(status := AgentStatus.Degraded) else db.agents[a],
        workspaces := map w | w in db.workspaces ::
          if w in SilentWorkspaces(db, deadline) then Degrade(db.workspaces[w]) else db.workspaces[w])
  }

  /** An agent requests may be routed to. */
  predicate Present(db: Db, agent: AgentId, w: WorkspaceId, now: Time) {
    && agent in db.agents
    && db.agents[agent].workspace == w
    && db.agents[agent].status == AgentStatus.Ready
    && db.agents[agent].lastHeartbeat.Some?
    && db.agents[agent].lastHeartbeat.value + PRESENCE_TIME > now
  }
}
