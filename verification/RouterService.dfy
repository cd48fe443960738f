/** The provisioner endpoints of internal/server/router.go, statement by statement, against their specification. */
module RouterService {
  import opened Wrappers
  import opened Tables
  import opened Database
  import S = Scheduler
  import A = Agents
  import opened Hubs

  // ---- facts about the specification the loops need ---------------------------------------

  /** One iteration of expireLeases. */
  function FailOne(db: Db, b: BuildId, now: Time): Db
    requires b in db.builds && db.builds[b].lease.Some?
  {
    var row := db.builds[b];
    var worker := row.lease.value.worker;
    db.(builds := db.builds[b := S.Closed(row, BuildStatus.Failed, Some(S.EXPIRED), now)],
        workspaces := if row.workspace in db.workspaces && db.workspaces[row.workspace].deletedAt.None?
                      then db.workspaces[row.workspace := db.workspaces[row.workspace].(observed := Observed.Failed)]
                      else db.workspaces,
        provisioners := if worker in db.provisioners
                        then db.provisioners[worker := S.Released(db.provisioners[worker], 1)]
                        else db.provisioners)
  }

  lemma DischargeOnce(active: int, n: nat)
    ensures S.Discharge(S.Discharge(active, n), 1) == S.Discharge(active, n + 1)
  {}

  lemma FailWorkers(db: Db, done: set<BuildId>, b: BuildId, now: Time, p: WorkerId)
    requires done <= S.Overdue(db, now) && b in S.Overdue(db, now) && b !in done && p in db.provisioners
    ensures S.Released(db.provisioners[p], |(done + {b}) * RunningOf(db, p)|)
         == var before := S.Released(db.provisioners[p], |done * RunningOf(db, p)|);
            if p == db.builds[b].lease.value.worker then S.Released(before, 1) else before
  {
    if p == db.builds[b].lease.value.worker {
      assert (done + {b}) * RunningOf(db, p) == done * RunningOf(db, p) + {b};
      DischargeOnce(db.provisioners[p].activeBuilds, |done * RunningOf(db, p)|);
    } else {
      assert (done + {b}) * RunningOf(db, p) == done * RunningOf(db, p);
    }
  }

  lemma FailWorkspaces(db: Db, done: set<BuildId>, b: BuildId, now: Time)
    requires b in db.builds && db.builds[b].lease.Some? && b !in done
    ensures S.Fail(db, done + {b}, now).workspaces == FailOne(S.Fail(db, done, now), b, now).workspaces
  {
    hide RunningOf, S.WithoutBuilds, S.Closed;
    var after, one := S.Fail(db, done + {b}, now), FailOne(S.Fail(db, done, now), b, now);
    forall w | w in db.workspaces ensures after.workspaces[w] == one.workspaces[w] {
      assert b in BuildsOf(db, w) <==> db.builds[b].workspace == w;
      assert (exists c :: c in done + {b} && c in BuildsOf(db, w))
             <==> b in BuildsOf(db, w) || exists c :: c in done && c in BuildsOf(db, w);
    }
  }

  lemma FailProvisioners(db: Db, done: set<BuildId>, b: BuildId, now: Time)
    requires done <= S.Overdue(db, now) && b in S.Overdue(db, now) && b !in done
    ensures S.WithoutBuilds(db, done + {b})
         == var before := S.WithoutBuilds(db, done);
            var worker := db.builds[b].lease.value.worker;
            if worker in before then before[worker := S.Released(before[worker], 1)] else before
  {
    hide RunningOf, S.Released;
    forall p | p in db.provisioners
      ensures S.Released(db.provisioners[p], |(done + {b}) * RunningOf(db, p)|)
           == var before := S.Released(db.provisioners[p], |done * RunningOf(db, p)|);
              if p == db.builds[b].lease.value.worker then S.Released(before, 1) else before
    {
      FailWorkers(db, done, b, now, p);
    }
  }

  lemma FailStep(db: Db, done: set<BuildId>, b: BuildId, now: Time)
    requires done <= S.Overdue(db, now) && b in S.Overdue(db, now) && b !in done
    ensures b in S.Fail(db, done, now).builds && S.Fail(db, done, now).builds[b] == db.builds[b]
    ensures db.builds[b].status == BuildStatus.Running && db.builds[b].lease.Some?
    ensures S.Fail(db, done + {b}, now) == FailOne(S.Fail(db, done, now), b, now)
  {
    hide RunningOf, BuildsOf, S.WithoutBuilds;
    FailWorkspaces(db, done, b, now);
    FailProvisioners(db, done, b, now);
    assert S.Fail(db, done + {b}, now).builds == FailOne(S.Fail(db, done, now), b, now).builds;
  }

  lemma FailNone(db: Db, now: Time)
    ensures S.Fail(db, {}, now) == db
  {
    var after := S.Fail(db, {}, now);
    assert after.workspaces == db.workspaces && after.builds == db.builds;
    forall p | p in db.provisioners ensures after.provisioners[p] == db.provisioners[p] {
      assert {} * RunningOf(db, p) == {};
    }
    assert after.provisioners == db.provisioners;
  }

  /** The queued builds in queue order. */
  ghost predicate InQueueOrder(db: Db, candidates: seq<BuildId>) {
    && (forall b :: b in candidates <==> b in db.builds && db.builds[b].status == BuildStatus.Queued)
    && (forall i, j :: 0 <= i < j < |candidates| ==> S.Precedes(db, candidates[i], candidates[j]))
  }

  lemma FirstSuitableIsNext(cfg: Config, db: Db, labels: seq<string>, candidates: seq<BuildId>, i: nat)
    requires InQueueOrder(db, candidates) && i <= |candidates|
    requires forall j :: 0 <= j < i ==> !S.Eligible(cfg, db, labels, candidates[j])
    requires i < |candidates| ==> S.Eligible(cfg, db, labels, candidates[i])
    ensures S.NextBuild(cfg, db, labels) == if i < |candidates| then Some(candidates[i]) else None
  {
    var rank := map b | b in db.builds && S.Eligible(cfg, db, labels, b) :: db.builds[b].createdAt;
    assert S.NextBuild(cfg, db, labels) == First(rank);
    if i < |candidates| {
      assert candidates[i] in rank;
      var lead := First(rank).value;
      var k :| 0 <= k < |candidates| && candidates[k] == lead;
      assert k >= i;
    } else {
      forall b ensures !S.Eligible(cfg, db, labels, b) {
        if b in candidates {
          var k :| 0 <= k < |candidates| && candidates[k] == b;
        }
      }
      assert rank == map[];
    }
  }

  // ---- the endpoints -------------------------------------------------------------------------

  datatype ClaimReply =
    | BadCapacity
    | Nothing
    | LeaseOnly(build: BuildId, expiresAt: Time)
    | LeaseWithAgent(build: BuildId, expiresAt: Time, agent: AgentId)
    | EnrollmentFailed(build: BuildId)

  // The clock readings of a claim request: in expireLeases, at the upsert, for the lease, in the claim's transaction.
  datatype ClaimTimes = ClaimTimes(expiry: Time, upsert: Time, asked: Time, claim: Time)

  /** The tables and the reply of an undisturbed claim request. */
  function Claimed(cfg: Config, db: Db, worker: WorkerId, labels: seq<string>, requested: int, secret: Secret,
                   agent: AgentId, token: Secret, enrollmentEnds: Time, times: ClaimTimes): (Db, ClaimReply)
  {
    var capacity := if requested == 0 then 1 else requested;
    if capacity < 1 || capacity > 100 then (db, BadCapacity)
    else
      var enlisted := S.Enlist(S.Expire(db, times.expiry), worker, labels, capacity, times.upsert);
      var until := times.asked + LEASE_TIME;
      match S.Choose(cfg, enlisted, worker, labels, capacity)
      case None => (enlisted, Nothing)
      case Some(b) =>
        var leased := S.LeaseOut(enlisted, b, worker, secret, until, times.claim);
        if enlisted.builds[b].transition != Start then (leased, LeaseOnly(b, until))
        else
          var txn := A.CreateEnrollment(leased, enlisted.builds[b].workspace, b, agent, token, enrollmentEnds);
          (txn.Or(leased), if txn.Committed? then LeaseWithAgent(b, until, agent) else EnrollmentFailed(b))
  }

  class Router {
    const store: Store
    const cfg: Config
    const hub: Hub

    constructor (store: Store, cfg: Config, hub: Hub)
      requires hub.store == store
      ensures this.store == store && this.cfg == cfg && this.hub == hub
    {
      this.store, this.cfg, this.hub := store, cfg, hub;
    }

    static method LabelsContain(have: seq<string>, required: seq<string>) returns (r: bool)
      ensures r <==> S.Covers(have, required)
    {
      var known := {};
      for i := 0 to |have|
        invariant forall l :: l in known <==> l in have[..i]
      {
        known := known + {have[i]};
      }
      assert have[..|have|] == have;
      for i := 0 to |required|
        invariant S.Covers(have, required[..i])
      {
        assert required[i] in required;
        if required[i] !in known {
          return false;
        }
      }
      assert required[..|required|] == required;
      return true;
    }

    method ExpireLeases(now: Time)
      modifies store
      ensures store.View() == S.Expire(old(store.View()), now)
    {
      hide S.Fail, FailOne, RunningOf;
      ghost var began := store.View();
      var expired := S.Overdue(store.View(), now);
      ghost var done: set<BuildId> := {};
      FailNone(began, now);
      while expired != {}
        invariant expired !! done && done + expired == S.Overdue(began, now)
        invariant store.View() == S.Fail(began, done, now)
        decreases expired
      {
        var id :| id in expired;
        expired := expired - {id};
        FailStep(began, done, id, now);
        var build := store.builds[id];
        FailBuild(id, build, now);
        done := done + {id};
        assert done + expired == S.Overdue(began, now);
      }
      assert done == S.Overdue(began, now);
    }

    /** The body of the loop, for a build read before the loop began. */
    method FailBuild(id: BuildId, build: Build, now: Time)
      requires id in store.builds && store.builds[id] == build && build.status == BuildStatus.Running && build.lease.Some?
      modifies store
      ensures store.View() == FailOne(old(store.View()), id, now)
    {
      store.builds := store.builds[id := S.Closed(build, BuildStatus.Failed, Some(S.EXPIRED), now)];
      if build.workspace in store.workspaces && store.workspaces[build.workspace].deletedAt.None? {
        store.workspaces := store.workspaces[build.workspace := store.workspaces[build.workspace].(observed := Observed.Failed)];
      }
      ReleaseWorker(build.lease.value.worker);
    }

    /** UPDATE provisioners SET active_builds = CASE WHEN active_builds > 0 THEN active_builds - 1 ELSE 0 END. */
    method ReleaseWorker(worker: WorkerId)
      modifies store`provisioners
      ensures store.provisioners == if worker in old(store.provisioners)
                                    then old(store.provisioners)[worker := S.Released(old(store.provisioners)[worker], 1)]
                                    else old(store.provisioners)
    {
      if worker in store.provisioners {
        var row := store.provisioners[worker];
        store.provisioners := store.provisioners[worker := row.(activeBuilds := if row.activeBuilds > 0 then row.activeBuilds - 1 else 0)];
      }
    }

    /** SELECT ... WHERE status = 'queued' ORDER BY created_at, id. */
    method Queue() returns (candidates: seq<BuildId>)
      ensures InQueueOrder(store.View(), candidates)
    {
      var left := set b | b in store.builds && store.builds[b].status == BuildStatus.Queued;
      ghost var all := left;
      candidates := [];
      while left != {}
        invariant left <= all
        invariant forall b :: b in candidates <==> b in all && b !in left
        invariant forall i, b :: 0 <= i < |candidates| && b in left ==> S.Precedes(store.View(), candidates[i], b)
        invariant forall i, j :: 0 <= i < j < |candidates| ==> S.Precedes(store.View(), candidates[i], candidates[j])
        decreases left
      {
        var rank := map b | b in left :: store.builds[b].createdAt;
        assert forall b :: b in left ==> b in rank;
        var next := First(rank).value;
        candidates := candidates + [next];
        left := left - {next};
      }
    }

    method ClaimMatchingBuild(worker: WorkerId, labels: seq<string>, capacity: int, secret: Secret, until: Time, now: Time)
      returns (claimed: Option<BuildId>)
      modifies store
      ensures claimed == S.Choose(cfg, old(store.View()), worker, labels, capacity)
      ensures store.View() == S.Claim(cfg, old(store.View()), worker, labels, capacity, secret, until, now)
    {
      ghost var began := store.View();
      var active := |RunningOf(store.View(), worker)|;
      if active >= capacity {
        return None;
      }
      var candidates := Queue();
      for i := 0 to |candidates|
        invariant store.View() == began
        invariant forall j :: 0 <= j < i ==> !S.Eligible(cfg, began, labels, candidates[j])
      {
        var b := candidates[i];
        var row := store.builds[b];
        var suits := LabelsContain(labels, cfg.Required(row.template));
        if !suits {
          continue;
        }
        FirstSuitableIsNext(cfg, began, labels, candidates, i);
        store.builds := store.builds[b := S.Leased(row, worker, secret, until, now)];
        if worker in store.provisioners {
          var p := store.provisioners[worker];
          store.provisioners := store.provisioners[worker := p.(activeBuilds := p.activeBuilds + 1, lastSeen := now)];
        }
        return Some(b);
      }
      FirstSuitableIsNext(cfg, began, labels, candidates, |candidates|);
      return None;
    }

    method Enlist(worker: WorkerId, labels: seq<string>, capacity: int, now: Time)
      modifies store`provisioners
      ensures store.View() == S.Enlist(old(store.View()), worker, labels, capacity, now)
    {
      if worker in store.provisioners {
        store.provisioners := store.provisioners[worker := store.provisioners[worker].(labels := labels, capacity := capacity, lastSeen := now)];
      } else {
        store.provisioners := store.provisioners[worker := Provisioner(labels, capacity, 0, now)];
      }
    }

    /** The claim handler, when no other request runs between its statements. */
    method Claim(worker: WorkerId, labels: seq<string>, requested: int, secret: Secret, agent: AgentId, token: Secret,
                 enrollmentEnds: Time, times: ClaimTimes)
      returns (reply: ClaimReply)
      requires hub.store == store
      modifies store
      ensures (store.View(), reply) == Claimed(cfg, old(store.View()), worker, labels, requested, secret, agent, token, enrollmentEnds, times)
    {
      hide S.Expire, S.Enlist, S.Choose, A.CreateEnrollment;
      var capacity := if requested == 0 then 1 else requested;
      if capacity < 1 || capacity > 100 {
        return BadCapacity;
      }
      ExpireLeases(times.expiry);
      Enlist(worker, labels, capacity, times.upsert);
      var until := times.asked + LEASE_TIME;
      var claimed := ClaimMatchingBuild(worker, labels, capacity, secret, until, times.claim);
      if claimed.None? {
        return Nothing;
      }
      var b := claimed.value;
      if store.builds[b].transition == Start {
        var enrollment := hub.CreateEnrollment(store.builds[b].workspace, b, agent, token, enrollmentEnds);
        if enrollment.Err? {
          return EnrollmentFailed(b);
        }
        return LeaseWithAgent(b, until, agent);
      }
      return LeaseOnly(b, until);
    }

    /** The clock is read once for the test and again for the new expiry. */
    method Renew(b: BuildId, worker: WorkerId, secret: Secret, asked: Time, extended: Time) returns (r: Answer<()>)
      modifies store`builds
      ensures var txn := S.Renew(old(store.View()), b, worker, secret, asked, extended);
              r == Reply(txn) && store.View() == txn.Or(old(store.View()))
    {
      if !S.Holds(store.View(), b, worker, secret, asked) {
        return Err(LeaseExpired);
      }
      var row := store.builds[b];
      store.builds := store.builds[b := row.(lease := Some(row.lease.value.(expiresAt := extended + LEASE_TIME)))];
      return Ok(());
    }

    method CompleteBuild(b: BuildId, worker: WorkerId, secret: Secret, error: string, now: Time) returns (r: Answer<()>)
      modifies store
      ensures var txn := S.Complete(old(store.View()), b, worker, secret, error, now);
              r == Reply(txn) && store.View() == txn.Or(old(store.View()))
    {
      if !S.Holds(store.View(), b, worker, secret, now) || store.builds[b].status != BuildStatus.Running {
        return Err(LeaseExpired);
      }
      var build := store.builds[b];
      var status := if error == "" then BuildStatus.Succeeded else BuildStatus.Failed;
      store.builds := store.builds[b := S.Closed(build, status, if error == "" then None else Some(error), now)];
      var observed := Observed.Failed;
      if status == BuildStatus.Succeeded {
        match build.transition
        case Start => observed := Observed.Running;
        case Stop => observed := Observed.Stopped;
        case Delete => observed := Observed.Deleted;
      }
      var w := build.workspace;
      if w in store.workspaces && store.workspaces[w].deletedAt.None? {
        var updated := store.workspaces[w].(observed := observed);
        if status == BuildStatus.Succeeded && build.transition == Delete {
          updated := updated.(deletedAt := Some(now));
        }
        store.workspaces := store.workspaces[w := updated];
      }
      ReleaseWorker(worker);
      return Ok(());
    }

    /** The logs action, when no other request runs between its statements. */
    method AppendLog(b: BuildId, worker: WorkerId, secret: Secret, row: LogRow, asked: Time) returns (r: Answer<()>)
      modifies store`logs
      ensures var began := old(store.View());
              if S.Holds(began, b, worker, secret, asked)
              then r == Reply(S.InsertLog(began, b, S.NextLog(began, b), row))
                   && store.View() == S.InsertLog(began, b, S.NextLog(began, b), row).Or(began)
              else r == Err(LeaseExpired) && store.View() == began
    {
      if !S.Holds(store.View(), b, worker, secret, asked) {
        return Err(LeaseExpired);
      }
      var n := S.NextLog(store.View(), b);
      if (b, n) in store.logs || b !in store.builds {
        return Err(DuplicatedKey);
      }
      store.logs := store.logs[(b, n) := row];
      return Ok(());
    }
  }
}
