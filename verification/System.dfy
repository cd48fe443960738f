/** The control plane as one state machine.  Every transaction is one atomic step; what a
    request does outside a transaction is a step of its own, so that requests interleave. */
module System {
  import opened Wrappers
  import opened Tables
  import W = Workspaces
  import S = Scheduler
  import A = Agents

  // A logs request between its statements: admitted by the lease check, then holding the number it read.
  datatype Writer = Admitted(build: BuildId) | Holding(build: BuildId, n: nat)

  datatype Sys = Sys(
    db: Db,
    clock: Time,
    owed: set<BuildId>,                            // claim requests that have yet to create their enrollment
    writers: map<RequestId, Writer>,               // logs requests under way
    history: map<WorkspaceId, seq<BuildId>>)       // auxiliary: each workspace's builds, oldest first

  const INIT: Sys := Sys(EMPTY_DB, 0, {}, map[], map[])

  datatype Step =
    | Create(request: W.Request, w: WorkspaceId, b: BuildId, now: Time)
    | CreateKeyed(request: W.Request, key: string, hash: Secret, w: WorkspaceId, b: BuildId, now: Time)
    | Transit(owner: OwnerId, w: WorkspaceId, transition: Transition, b: BuildId, now: Time)
    | Touch(owner: OwnerId, w: WorkspaceId, now: Time)
    | Enlist(worker: WorkerId, labels: seq<string>, capacity: int, now: Time)
    | Claim(worker: WorkerId, labels: seq<string>, capacity: int, secret: Secret, asked: Time, now: Time)
    | Enroll(b: BuildId, agent: AgentId, token: Secret, expiresAt: Time, now: Time)
    | Expire(now: Time)
    | Renew(b: BuildId, worker: WorkerId, secret: Secret, asked: Time, extended: Time, now: Time)
    | Complete(b: BuildId, worker: WorkerId, secret: Secret, error: string, now: Time)
    | LogCheck(id: RequestId, b: BuildId, worker: WorkerId, secret: Secret, asked: Time, now: Time)
    | LogRead(id: RequestId, now: Time)
    | LogInsert(id: RequestId, row: LogRow, now: Time)
    | Register(token: Secret, publicKey: seq<bv8>, secret: Secret, now: Time)
    | Heartbeat(agent: AgentId, now: Time)
    | MarkReady(agent: AgentId, asked: Time, now: Time)
    | MarkStale(deadline: Time, now: Time)

  /** Steps that insert a build. */
  predicate Adds(step: Step) {
    step.Create? || step.CreateKeyed? || step.Transit?
  }

  /** Steps that change a build. */
  predicate Schedules(step: Step) {
    step.Claim? || step.Expire? || step.Renew? || step.Complete?
  }

  /** What the handler checks before it lets a claim reach the tables. */
  predicate Admissible(s: Sys, step: Step)
    requires step.Claim?
  {
    step.worker in s.db.provisioners && 1 <= step.capacity <= 100 && step.asked <= step.now
  }

  function Past(history: map<WorkspaceId, seq<BuildId>>, w: WorkspaceId): seq<BuildId> {
    if w in history then history[w] else []
  }

  function Born(s: Sys, txn: Txn<W.Created>): Sys {
    if txn.RolledBack? then s
    else s.(db := txn.db,
            history := if txn.value.isNew then s.history[txn.value.workspace := [txn.value.build]] else s.history)
  }

  /** The build a claim obtains, if any. */
  function Obtains(cfg: Config, s: Sys, step: Step): (r: Option<BuildId>)
    requires step.Claim?
    ensures r.Some? ==> S.Eligible(cfg, s.db, step.labels, r.value)
  {
    if Admissible(s, step) then S.Choose(cfg, s.db, step.worker, step.labels, step.capacity) else None
  }

  function ClaimStep(cfg: Config, s: Sys, step: Step): Sys
    requires step.Claim?
  {
    match Obtains(cfg, s, step)
    case None => s
    case Some(b) =>
      s.(db := S.LeaseOut(s.db, b, step.worker, step.secret, step.asked + LEASE_TIME, step.now),
         owed := if s.db.builds[b].transition == Start then s.owed + {b} else s.owed)
  }

  function Apply(cfg: Config, s: Sys, step: Step): Sys {
    match step
    case Create(request, w, b, now) =>
      Born(s, W.Create(cfg, s.db, request, w, b, now))
    case CreateKeyed(request, key, hash, w, b, now) =>
      if key == "" then s else Born(s, W.CreateKeyed(cfg, s.db, request, key, hash, w, b, now))
    case Transit(owner, w, transition, b, now) =>
      var txn := W.Transit(cfg, s.db, owner, w, transition, b, now);
      if txn.RolledBack? then s else s.(db := txn.db, history := s.history[w := Past(s.history, w) + [b]])
    case Touch(owner, w, now) =>
      s.(db := W.Touch(s.db, owner, w, now).Or(s.db))
    case Enlist(worker, labels, capacity, now) =>
      if 1 <= capacity <= 100 then s.(db := S.Enlist(s.db, worker, labels, capacity, now)) else s
    case Claim(_, _, _, _, _, _) =>
      ClaimStep(cfg, s, step)
    case Enroll(b, agent, token, expiresAt, _) =>
      if b in s.owed && b in s.db.builds then
        s.(owed := s.owed - {b},
           db := A.CreateEnrollment(s.db, s.db.builds[b].workspace, b, agent, token, expiresAt).Or(s.db))
      else s
    case Expire(now) =>
      s.(db := S.Expire(s.db, now))
    case Renew(b, worker, secret, asked, extended, now) =>
      if asked <= extended <= now then s.(db := S.Renew(s.db, b, worker, secret, asked, extended).Or(s.db)) else s
    case Complete(b, worker, secret, error, now) =>
      s.(db := S.Complete(s.db, b, worker, secret, error, now).Or(s.db))
    case LogCheck(id, b, worker, secret, asked, now) =>
      if id !in s.writers && asked <= now && S.Holds(s.db, b, worker, secret, asked)
      then s.(writers := s.writers[id := Admitted(b)]) else s
    case LogRead(id, _) =>
      if id in s.writers && s.writers[id].Admitted?
      then s.(writers := s.writers[id := Holding(s.writers[id].build, S.NextLog(s.db, s.writers[id].build))]) else s
    case LogInsert(id, row, _) =>
      if id in s.writers && s.writers[id].Holding?
      then s.(writers := s.writers - {id},
              db := S.InsertLog(s.db, s.writers[id].build, s.writers[id].n, row).Or(s.db)) else s
    case Register(token, publicKey, secret, now) =>
      s.(db := A.Register(s.db, token, publicKey, secret, now).Or(s.db))
    case Heartbeat(agent, now) =>
      s.(db := A.Heartbeat(s.db, agent, now).Or(s.db))
    case MarkReady(agent, asked, now) =>
      if asked <= now then s.(db := A.MarkReady(s.db, agent, asked).Or(s.db)) else s
    case MarkStale(deadline, now) =>
      s.(db := A.MarkStale(s.db, deadline))
  }

  /** Clocks never run backwards: a step dated before the present does not happen. */
  function Next(cfg: Config, s: Sys, step: Step): Sys {
    if step.now < s.clock then s else Apply(cfg, s.(clock := step.now), step)
  }

  function Run(cfg: Config, s: Sys, steps: seq<Step>): Sys {
    if steps == [] then s else Next(cfg, Run(cfg, s, steps[..|steps| - 1]), steps[|steps| - 1])
  }

  ghost predicate Reachable(cfg: Config, s: Sys) {
    exists steps :: s == Run(cfg, INIT, steps)
  }

  lemma {:induction false} RunAppend(cfg: Config, s: Sys, first: seq<Step>, second: seq<Step>)
    ensures Run(cfg, s, first + second) == Run(cfg, Run(cfg, s, first), second)
  {
    if second == [] {
      assert first + second == first;
    } else {
      var n := |second| - 1;
      assert (first + second)[..|first + second| - 1] == first + second[..n];
      RunAppend(cfg, s, first, second[..n]);
    }
  }
}
