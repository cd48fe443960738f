/** What each transaction or statement of internal/server/router.go does to the tables. */
module Scheduler {
  import opened Wrappers
  import opened Tables

  predicate Covers(have: seq<string>, required: seq<string>) {
    forall l :: l in required ==> l in have
  }

  predicate Eligible(cfg: Config, db: Db, labels: seq<string>, b: BuildId) {
    && b in db.builds
    && db.builds[b].status == BuildStatus.Queued
    && Covers(labels, cfg.Required(db.builds[b].template))
  }

  /** The queue's order: creation time, then identifier. */
  predicate Precedes(db: Db, a: BuildId, b: BuildId) {
    && a in db.builds && b in db.builds
    && (db.builds[a].createdAt < db.builds[b].createdAt || (db.builds[a].createdAt == db.builds[b].createdAt && a < b))
  }

  /** The queued build a worker with these labels is offered. */
  function NextBuild(cfg: Config, db: Db, labels: seq<string>): Option<BuildId> {
    First(map b | b in db.builds && Eligible(cfg, db, labels, b) :: db.builds[b].createdAt)
  }

  /** The upsert that registers a worker. */
  function Enlist(db: Db, worker: WorkerId, labels: seq<string>, capacity: int, now: Time): Db {
    var active := if worker in db.provisioners then db.provisioners[worker].activeBuilds else 0;
    db.(provisioners := db.provisioners[worker := Provisioner(labels, capacity, active, now)])
  }

  function Leased(row: Build, worker: WorkerId, secret: Secret, until: Time, now: Time): Build {
    row.(status := BuildStatus.Running, lease := Some(Lease(worker, secret, until, now)))
  }

  function Charge(provisioners: map<WorkerId, Provisioner>, worker: WorkerId, now: Time): map<WorkerId, Provisioner> {
    if worker in provisioners then
      provisioners[worker := provisioners[worker].(activeBuilds := provisioners[worker].activeBuilds + 1, lastSeen := now)]
    else
      provisioners
  }

  /** The build claimMatchingBuild hands to the worker, if any. */
  function Choose(cfg: Config, db: Db, worker: WorkerId, labels: seq<string>, capacity: int): (r: Option<BuildId>)
    ensures r.Some? ==> Eligible(cfg, db, labels, r.value)
  {
    if |RunningOf(db, worker)| >= capacity then None else NextBuild(cfg, db, labels)
  }

  function LeaseOut(db: Db, b: BuildId, worker: WorkerId, secret: Secret, until: Time, now: Time): Db
    requires b in db.builds
  {
    db.(builds := db.builds[b := Leased(db.builds[b], worker, secret, until, now)],
        provisioners := Charge(db.provisioners, worker, now))
  }

  /** claimMatchingBuild; until was computed before the transaction began. */
  function Claim(cfg: Config, db: Db, worker: WorkerId, labels: seq<string>, capacity: int,
                 secret: Secret, until: Time, now: Time): Db
  {
    match Choose(cfg, db, worker, labels, capacity)
    case None => db
    case Some(b) => LeaseOut(db, b, worker, secret, until, now)
  }

  /** n rounds of CASE WHEN active_builds > 0 THEN active_builds - 1 ELSE 0 END. */
  function Discharge(active: int, n: nat): int {
    if n == 0 then active else if active > n then active - n else 0
  }

  function Released(row: Provisioner, n: nat): Provisioner {
    row.(activeBuilds := Discharge(row.activeBuilds, n))
  }

  function Closed(row: Build, status: BuildStatus, error: Option<string>, now: Time): Build {
    row.(status := status, error := error, completedAt := Some(now))
  }

  const EXPIRED: string := "provisioner lease expired; infrastructure reconciliation is required before retry"

  function Overdue(db: Db, now: Time): set<BuildId> {
    set b | b in db.builds && db.builds[b].status == BuildStatus.Running
            && db.builds[b].lease.Some? && db.builds[b].lease.value.expiresAt <= now
  }

  function OverdueOf(db: Db, worker: WorkerId, now: Time): set<BuildId> {
    set b | b in Overdue(db, now) && db.builds[b].lease.value.worker == worker
  }

  function WithoutBuilds(db: Db, expired: set<BuildId>): map<WorkerId, Provisioner> {
    map p | p in db.provisioners :: Released(db.provisioners[p], |expired * RunningOf(db, p)|)
  }

  /** expireLeases closes the given builds as failed. */
  function Fail(db: Db, expired: set<BuildId>, now: Time): Db {
    Db(map w | w in db.workspaces ::
         if db.workspaces[w].deletedAt.None? && exists b :: b in expired && b in BuildsOf(db, w)
         then db.workspaces[w].(observed := Observed.Failed) else db.workspaces[w],
       map b | b in db.builds ::
         if b in expired then Closed(db.builds[b], BuildStatus.Failed, Some(EXPIRED), now) else db.builds[b],
       WithoutBuilds(db, expired),
       db.agents, db.enrollments, db.keys, db.logs)
  }

  function Expire(db: Db, now: Time): Db {
    Fail(db, Overdue(db, now), now)
  }

  /** The condition every lease action queries with. */
  predicate Holds(db: Db, b: BuildId, worker: WorkerId, secret: Secret, now: Time) {
    && b in db.builds
    && db.builds[b].lease.Some?
    && db.builds[b].lease.value.worker == worker
    && db.builds[b].lease.value.secret == secret
    && db.builds[b].lease.value.expiresAt > now
  }

  /** The renew action with its two clock readings; it does not look at the build's status. */
  function Renew(db: Db, b: BuildId, worker: WorkerId, secret: Secret, asked: Time, extended: Time): Txn<()> {
    if !Holds(db, b, worker, secret, asked) then RolledBack(LeaseExpired)
    else
      var row := db.builds[b];
      Committed(db.(builds := db.builds[b := row.(lease := Some(row.lease.value.(expiresAt := extended + LEASE_TIME)))]), ())
  }

  function Outcome(transition: Transition, succeeded: bool): Observed {
    if !succeeded then Observed.Failed
    else
      match transition
      case Start => Observed.Running
      case Stop => Observed.Stopped
      case Delete => Observed.Deleted
  }

  function Concluded(row: Workspace, transition: Transition, succeeded: bool, now: Time): Workspace {
    if row.deletedAt.Some? then row
    else
      row.(observed := Outcome(transition, succeeded),
           deletedAt := if succeeded && transition == Delete then Some(now) else None)
  }

  /** completeBuild; an empty error reports success. */
  function Complete(db: Db, b: BuildId, worker: WorkerId, secret: Secret, error: string, now: Time): Txn<()> {
    if !Holds(db, b, worker, secret, now) || db.builds[b].status != BuildStatus.Running then RolledBack(LeaseExpired)
    else
      var row := db.builds[b];
      var succeeded := error == "";
      var closed := Closed(row, if succeeded then BuildStatus.Succeeded else BuildStatus.Failed,
                           if succeeded then None else Some(error), now);
      Committed(db.(builds := db.builds[b := closed],
                    workspaces := if row.workspace in db.workspaces
                                  then db.workspaces[row.workspace := Concluded(db.workspaces[row.workspace], row.transition, succeeded, now)]
                                  else db.workspaces,
                    provisioners := if worker in db.provisioners
                                    then db.provisioners[worker := Released(db.provisioners[worker], 1)]
                                    else db.provisioners), ())
  }

  function LogNumbers(db: Db, b: BuildId): set<nat> {
    set e | e in db.logs && e.0 == b :: e.1
  }

  function NextLog(db: Db, b: BuildId): nat {
    MaxOrZero(LogNumbers(db, b)) + 1
  }

  /** The insert of the logs action; the primary key rejects a taken number. */
  function InsertLog(db: Db, b: BuildId, n: nat, row: LogRow): Txn<()> {
    if (b, n) in db.logs || b !in db.builds then RolledBack(DuplicatedKey)
    else Committed(db.(logs := db.logs[(b, n) := row]), ())
  }
}
