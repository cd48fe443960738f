/** What a whole claim request answers and leaves in the tables. */
module ClaimFacts {
  import opened Wrappers
  import opened Tables
  import opened System
  import opened Lifecycle
  import opened Leases
  import opened AgentRecords
  import opened Reachable
  import opened RouterService
  import opened Handlers
  import S = Scheduler
  import A = Agents

  // What a claim request brings along; agent and token are what its enrollment would draw.
  datatype Claimant = Claimant(worker: WorkerId, labels: seq<string>, requested: int, secret: Secret,
                               agent: AgentId, token: Secret, ends: Time, times: ClaimTimes)
  {
    /** No capacity given means one. */
    function Capacity(): int {
      if requested == 0 then 1 else requested
    }
  }

  function Answer(cfg: Config, db: Db, c: Claimant): (Db, ClaimReply) {
    Claimed(cfg, db, c.worker, c.labels, c.requested, c.secret, c.agent, c.token, c.ends, c.times)
  }

  // ---- builds before the request -------------------------------------------------------------------

  /** A running build whose lease has ended. */
  predicate RunOut(row: Build, moment: Time) {
    row.status == BuildStatus.Running && row.lease.Some? && row.lease.value.expiresAt <= moment
  }

  /** A queued build whose template requires only labels the worker holds. */
  predicate Claimable(cfg: Config, db: Db, labels: seq<string>, b: BuildId) {
    && b in db.builds && db.builds[b].status == BuildStatus.Queued
    && forall l :: l in cfg.Required(db.builds[b].template) ==> l in labels
  }

  /** The claimable build created first; among those of one instant the smallest identifier. */
  ghost predicate FirstInLine(cfg: Config, db: Db, labels: seq<string>, b: BuildId) {
    && Claimable(cfg, db, labels, b)
    && forall c :: Claimable(cfg, db, labels, c) && c != b ==>
         db.builds[b].createdAt < db.builds[c].createdAt || (db.builds[b].createdAt == db.builds[c].createdAt && b < c)
  }

  /** The builds the worker runs under leases that have not ended. */
  function StillRunning(db: Db, worker: WorkerId, moment: Time): set<BuildId> {
    set b | b in db.builds && db.builds[b].status == BuildStatus.Running && db.builds[b].lease.Some?
            && db.builds[b].lease.value.worker == worker && moment < db.builds[b].lease.value.expiresAt
  }

  predicate FailedAt(row: Build, moment: Time) {
    row.status == BuildStatus.Failed && row.completedAt == Some(moment) && row.error == Some(S.EXPIRED)
  }

  /** Builds that ran out are failed, and no other build outside the given ones changes. */
  predicate OnlyExpires(db: Db, after: Db, except: set<BuildId>, moment: Time) {
    && after.builds.Keys == db.builds.Keys
    && forall b :: b in db.builds && b !in except ==>
         if RunOut(db.builds[b], moment) then FailedAt(after.builds[b], moment) else after.builds[b] == db.builds[b]
  }

  // ---- the request's results -----------------------------------------------------------------------

  predicate Enlisted(after: Db, c: Claimant, seen: Time) {
    && c.worker in after.provisioners
    && after.provisioners[c.worker].labels == c.labels && after.provisioners[c.worker].capacity == c.Capacity()
    && after.provisioners[c.worker].lastSeen == seen
  }

  /** The first build in line is leased to the worker for two minutes from the reading. */
  ghost predicate LeasesOut(cfg: Config, db: Db, after: Db, c: Claimant, b: BuildId, until: Time) {
    && |StillRunning(db, c.worker, c.times.expiry)| < c.Capacity()
    && FirstInLine(cfg, db, c.labels, b)
    && until == c.times.asked + 2 * 60 * SECOND
    && OnlyExpires(db, after, {b}, c.times.expiry)
    && after.builds[b] == db.builds[b].(status := BuildStatus.Running, lease := Some(Lease(c.worker, c.secret, until, c.times.claim)))
    && Enlisted(after, c, c.times.claim)
  }

  predicate SameAgents(db: Db, after: Db) {
    after.agents == db.agents && after.enrollments == db.enrollments
  }

  predicate Enrolls(db: Db, after: Db, c: Claimant, b: BuildId)
    requires b in db.builds
  {
    var w := db.builds[b].workspace;
    && after.agents == db.agents[c.agent := Agent(w, b, AgentStatus.Starting, None, None, None)]
    && after.enrollments == db.enrollments[c.token := Enrollment(w, b, c.agent, c.ends)]
  }

  predicate InUse(db: Db, c: Claimant, b: BuildId)
    requires b in db.builds
  {
    || c.agent in db.agents || c.token in db.enrollments
    || exists a :: a in db.agents && db.agents[a].build == b && db.agents[a].workspace == db.builds[b].workspace
  }

  ghost predicate Serves(cfg: Config, db: Db, c: Claimant, after: Db, reply: ClaimReply) {
    match reply
    case BadCapacity => !(1 <= c.Capacity() <= 100) && after == db
    case Nothing =>
      && 1 <= c.Capacity() <= 100
      && (|StillRunning(db, c.worker, c.times.expiry)| >= c.Capacity() || forall b :: !Claimable(cfg, db, c.labels, b))
      && OnlyExpires(db, after, {}, c.times.expiry) && Enlisted(after, c, c.times.upsert) && SameAgents(db, after)
    case LeaseOnly(b, until) =>
      && 1 <= c.Capacity() <= 100 && LeasesOut(cfg, db, after, c, b, until)
      && db.builds[b].transition != Start && SameAgents(db, after)
    case LeaseWithAgent(b, until, agent) =>
      && 1 <= c.Capacity() <= 100 && LeasesOut(cfg, db, after, c, b, until)
      && db.builds[b].transition == Start && agent == c.agent && !InUse(db, c, b) && Enrolls(db, after, c, b)
    case EnrollmentFailed(b) =>
      && 1 <= c.Capacity() <= 100 && LeasesOut(cfg, db, after, c, b, c.times.asked + 2 * 60 * SECOND)
      && db.builds[b].transition == Start && InUse(db, c, b) && SameAgents(db, after)
  }

  // ---- the proof -------------------------------------------------------------------------------------

  lemma ExpiryFirst(db: Db, c: Claimant)
    ensures var enlisted := S.Enlist(S.Expire(db, c.times.expiry), c.worker, c.labels, c.Capacity(), c.times.upsert);
            && OnlyExpires(db, enlisted, {}, c.times.expiry) && Enlisted(enlisted, c, c.times.upsert) && SameAgents(db, enlisted)
            && RunningOf(enlisted, c.worker) == StillRunning(db, c.worker, c.times.expiry)
  {
    hide S.WithoutBuilds;
  }

  lemma SameLine(cfg: Config, db: Db, enlisted: Db, labels: seq<string>, moment: Time, b: BuildId)
    requires OnlyExpires(db, enlisted, {}, moment)
    ensures Claimable(cfg, enlisted, labels, b) <==> Claimable(cfg, db, labels, b)
    ensures Claimable(cfg, db, labels, b) ==> enlisted.builds[b] == db.builds[b]
    ensures Claimable(cfg, db, labels, b) <==> S.Eligible(cfg, enlisted, labels, b)
  {}

  lemma ChosenIsFirst(cfg: Config, db: Db, enlisted: Db, c: Claimant)
    requires OnlyExpires(db, enlisted, {}, c.times.expiry)
    ensures var chosen := S.NextBuild(cfg, enlisted, c.labels);
            if chosen.Some? then FirstInLine(cfg, db, c.labels, chosen.value) else forall b :: !Claimable(cfg, db, c.labels, b)
  {
    var rank := map b | b in enlisted.builds && S.Eligible(cfg, enlisted, c.labels, b) :: enlisted.builds[b].createdAt;
    var chosen := S.NextBuild(cfg, enlisted, c.labels);
    assert chosen == First(rank);
    hide S.Eligible, Claimable, OnlyExpires;
    forall b ensures b in rank <==> Claimable(cfg, db, c.labels, b) {
      SameLine(cfg, db, enlisted, c.labels, c.times.expiry, b);
    }
    forall b | Claimable(cfg, db, c.labels, b) ensures b in enlisted.builds && b in db.builds && enlisted.builds[b] == db.builds[b] {
      SameLine(cfg, db, enlisted, c.labels, c.times.expiry, b);
      assert b in rank;
      InBoth(cfg, db, c.labels, b);
    }
  }

  lemma LineIsThere(cfg: Config, db: Db, enlisted: Db, c: Claimant, b: BuildId)
    requires OnlyExpires(db, enlisted, {}, c.times.expiry) && FirstInLine(cfg, db, c.labels, b)
    ensures b in db.builds && b in enlisted.builds && enlisted.builds[b] == db.builds[b]
  {}

  lemma InBoth(cfg: Config, db: Db, labels: seq<string>, b: BuildId)
    requires Claimable(cfg, db, labels, b)
    ensures b in db.builds
  {}

  lemma LeaseGiven(cfg: Config, db: Db, enlisted: Db, c: Claimant, b: BuildId)
    requires OnlyExpires(db, enlisted, {}, c.times.expiry) && Enlisted(enlisted, c, c.times.upsert)
    requires FirstInLine(cfg, db, c.labels, b) && |StillRunning(db, c.worker, c.times.expiry)| < c.Capacity()
    requires b in enlisted.builds && enlisted.builds[b] == db.builds[b]
    ensures LeasesOut(cfg, db, S.LeaseOut(enlisted, b, c.worker, c.secret, c.times.asked + LEASE_TIME, c.times.claim), c, b,
                   c.times.asked + 2 * 60 * SECOND)
    ensures SameAgents(enlisted, S.LeaseOut(enlisted, b, c.worker, c.secret, c.times.asked + LEASE_TIME, c.times.claim))
  {
    hide FirstInLine, StillRunning;
  }

  /** Every claim request is served as described, whatever is in the tables. */
  lemma ClaimIsServed(cfg: Config, db: Db, c: Claimant)
    ensures Serves(cfg, db, c, Answer(cfg, db, c).0, Answer(cfg, db, c).1)
  {
    hide S.Enlist, S.Expire, RunningOf, StillRunning, S.NextBuild, S.LeaseOut, A.CreateEnrollment;
    hide LeasesOut, OnlyExpires, Enlisted, Enrolls, InUse, FirstInLine, Claimable, SameAgents;
    if 1 <= c.Capacity() <= 100 {
      var enlisted := S.Enlist(S.Expire(db, c.times.expiry), c.worker, c.labels, c.Capacity(), c.times.upsert);
      ExpiryFirst(db, c);
      ChosenIsFirst(cfg, db, enlisted, c);
      var chosen := S.NextBuild(cfg, enlisted, c.labels);
      if |RunningOf(enlisted, c.worker)| < c.Capacity() && chosen.Some? {
        LineIsThere(cfg, db, enlisted, c, chosen.value);
        LeaseGiven(cfg, db, enlisted, c, chosen.value);
        EnrollmentFollows(cfg, db, enlisted, c, chosen.value);
      }
    }
  }

  lemma EnrollmentFollows(cfg: Config, db: Db, enlisted: Db, c: Claimant, b: BuildId)
    requires SameAgents(db, enlisted) && b in db.builds && b in enlisted.builds && enlisted.builds[b] == db.builds[b]
    requires LeasesOut(cfg, db, S.LeaseOut(enlisted, b, c.worker, c.secret, c.times.asked + LEASE_TIME, c.times.claim), c, b,
                    c.times.asked + 2 * 60 * SECOND)
    ensures var leased := S.LeaseOut(enlisted, b, c.worker, c.secret, c.times.asked + LEASE_TIME, c.times.claim);
            var txn := A.CreateEnrollment(leased, db.builds[b].workspace, b, c.agent, c.token, c.ends);
            && (txn.Committed? <==> !InUse(db, c, b))
            && LeasesOut(cfg, db, txn.Or(leased), c, b, c.times.asked + 2 * 60 * SECOND)
            && SameAgents(db, leased)
            && (txn.Committed? ==> Enrolls(db, txn.db, c, b))
  {
    hide FirstInLine, StillRunning, Claimable;
  }

  lemma ClaimableIsUnserved(cfg: Config, s: Sys, labels: seq<string>, b: BuildId)
    requires AgentsInOrder(s) && AllLeasedOnceStarted(s.db) && Claimable(cfg, s.db, labels, b)
    ensures forall a :: a in s.db.agents ==> s.db.agents[a].build != b
  {
    forall a | a in s.db.agents ensures s.db.agents[a].build != b {
      assert BelongsTo(s.db, s.db.agents[a]) && LeasedOnceStarted(s.db.builds[b]);
    }
  }

  lemma ReachableUnserved(cfg: Config, db: Db, now: Time, labels: seq<string>, b: BuildId)
    requires ReachableDb(cfg, db, now) && Claimable(cfg, db, labels, b)
    ensures forall a :: a in db.agents ==> db.agents[a].build != b
  {
    hide Inv, Claimable;
    var s :| System.Reachable(cfg, s) && s.db == db;
    ReachableInv(cfg, s);
    InvParts(cfg, s);
    hide Consistent, AgentsInOrder, System.Reachable;
    ConsistentStarts(s.db, s.history);
    ClaimableIsUnserved(cfg, s, labels, b);
  }

  lemma InvParts(cfg: Config, s: Sys)
    requires Inv(cfg, s)
    ensures Consistent(s.db, s.history) && AgentsInOrder(s)
  {
    hide Consistent, AgentsInOrder;
  }

  lemma FailureHasCause(cfg: Config, db: Db, c: Claimant, after: Db, reply: ClaimReply)
    requires Serves(cfg, db, c, after, reply) && reply.EnrollmentFailed?
    ensures Claimable(cfg, db, c.labels, reply.build) && reply.build in db.builds && InUse(db, c, reply.build)
  {}

  /** In reachable tables an enrollment only fails for an agent identifier or token already in use, so a leased start
      build comes with its agent. */
  lemma UnusedIdentifiersEnroll(cfg: Config, db: Db, c: Claimant, now: Time)
    requires ReachableDb(cfg, db, now) && c.agent !in db.agents && c.token !in db.enrollments
    ensures !Answer(cfg, db, c).1.EnrollmentFailed?
  {
    hide ReachableDb, Answer, Serves, Claimable;
    ClaimIsServed(cfg, db, c);
    if Answer(cfg, db, c).1.EnrollmentFailed? {
      FailureHasCause(cfg, db, c, Answer(cfg, db, c).0, Answer(cfg, db, c).1);
      ReachableUnserved(cfg, db, now, c.labels, Answer(cfg, db, c).1.build);
    }
  }
}
