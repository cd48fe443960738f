/** The cached active_builds counter, claims against closures, and worker capacity. */
module Counters {
  import opened Tables
  import opened System
  import W = Workspaces
  import S = Scheduler
  import A = Agents

  /** The step is dated no earlier than the present, so it happens. */
  predicate Happens(s: Sys, step: Step) {
    step.now >= s.clock
  }

  /** The build a step leases out. */
  function Granted(cfg: Config, s: Sys, step: Step): set<BuildId> {
    if Happens(s, step) && step.Claim? && Obtains(cfg, s, step).Some? then {Obtains(cfg, s, step).value} else {}
  }

  /** The builds a step closes because their worker reported back. */
  function Reports(s: Sys, step: Step): set<BuildId> {
    if Happens(s, step) && step.Complete?
       && S.Complete(s.db, step.b, step.worker, step.secret, step.error, step.now).Committed? then {step.b} else {}
  }

  /** The builds a step closes because their lease ran out. */
  function Expiries(s: Sys, step: Step): set<BuildId> {
    if Happens(s, step) && step.Expire? then S.Overdue(s.db, step.now) else {}
  }

  function ClaimsBy(cfg: Config, s: Sys, step: Step, p: WorkerId): set<BuildId> {
    if step.Claim? && step.worker == p then Granted(cfg, s, step) else {}
  }

  // ---- which builds run for a worker after a step ------------------------------

  lemma InsertRuns(db: Db, b: BuildId, row: Build, p: WorkerId)
    requires b !in db.builds && row.status == BuildStatus.Queued
    ensures RunningOf(db.(builds := db.builds[b := row]), p) == RunningOf(db, p)
  {}

  /** Rows of the builds table decide what runs. */
  lemma SameBuildsRun(db: Db, after: Db, p: WorkerId)
    requires after.builds == db.builds
    ensures RunningOf(after, p) == RunningOf(db, p)
  {}

  lemma InsertBuildRuns(db: Db, b: BuildId, row: Build, p: WorkerId)
    requires row.status == BuildStatus.Queued
    ensures RunningOf(W.InsertBuild(db, b, row).Or(db), p) == RunningOf(db, p)
  {
    if W.InsertBuild(db, b, row).Committed? {
      InsertRuns(db, b, row, p);
    }
  }

  lemma CreateRuns(cfg: Config, db: Db, request: W.Request, w: WorkspaceId, b: BuildId, now: Time, p: WorkerId)
    ensures RunningOf(W.Create(cfg, db, request, w, b, now).Or(db), p) == RunningOf(db, p)
  {
    if W.Create(cfg, db, request, w, b, now).Committed? {
      InsertBuildRuns(db.(workspaces := db.workspaces[w := W.NewWorkspace(request, now)]), b,
                      W.QueuedBuild(w, 1, Start, request.template, now), p);
    }
  }

  lemma CreateKeyedRuns(cfg: Config, db: Db, request: W.Request, key: string, hash: Secret,
                        w: WorkspaceId, b: BuildId, now: Time, p: WorkerId)
    ensures RunningOf(W.CreateKeyed(cfg, db, request, key, hash, w, b, now).Or(db), p) == RunningOf(db, p)
  {
    CreateRuns(cfg, db, request, w, b, now, p);
    var plain := W.Create(cfg, db, request, w, b, now).Or(db);
    var keyed := W.CreateKeyed(cfg, db, request, key, hash, w, b, now).Or(db);
    if keyed != db {
      SameBuildsRun(plain, keyed, p);
    }
  }

  lemma TransitRuns(cfg: Config, db: Db, owner: OwnerId, w: WorkspaceId, transition: Transition,
                    b: BuildId, now: Time, p: WorkerId)
    ensures RunningOf(W.Transit(cfg, db, owner, w, transition, b, now).Or(db), p) == RunningOf(db, p)
  {
    var after := W.Transit(cfg, db, owner, w, transition, b, now).Or(db);
    if W.Transit(cfg, db, owner, w, transition, b, now).Committed? {
      assert after.builds == db.builds[b := after.builds[b]];
      InsertRuns(db, b, after.builds[b], p);
      SameBuildsRun(db.(builds := after.builds), after, p);
    }
  }

  lemma LeaseOutRuns(db: Db, b: BuildId, worker: WorkerId, secret: Secret, until: Time, now: Time, p: WorkerId)
    requires b in db.builds && db.builds[b].status == BuildStatus.Queued
    ensures RunningOf(S.LeaseOut(db, b, worker, secret, until, now), p)
         == RunningOf(db, p) + if p == worker then {b} else {}
  {}

  lemma RenewRuns(db: Db, b: BuildId, worker: WorkerId, secret: Secret, asked: Time, extended: Time, p: WorkerId)
    ensures RunningOf(S.Renew(db, b, worker, secret, asked, extended).Or(db), p) == RunningOf(db, p)
  {}

  lemma ExpireRuns(db: Db, now: Time, p: WorkerId)
    ensures RunningOf(S.Expire(db, now), p) == RunningOf(db, p) - S.Overdue(db, now)
  {}

  lemma CompleteRuns(db: Db, b: BuildId, worker: WorkerId, secret: Secret, error: string, now: Time, p: WorkerId)
    ensures RunningOf(S.Complete(db, b, worker, secret, error, now).Or(db), p)
         == RunningOf(db, p) - if S.Complete(db, b, worker, secret, error, now).Committed? then {b} else {}
  {}

  lemma OthersKeepBuilds(cfg: Config, s: Sys, step: Step)
    requires !Adds(step) && !Schedules(step)
    ensures Apply(cfg, s, step).db.builds == s.db.builds
  {
    hide A.EnrollmentClashes, A.SilentWorkspaces, S.Holds, S.NextLog;
  }

  lemma ApplyRuns(cfg: Config, s: Sys, step: Step, p: WorkerId)
    requires Happens(s, step) && s.clock == step.now
    ensures RunningOf(Apply(cfg, s, step).db, p)
         == RunningOf(s.db, p) - Reports(s, step) - Expiries(s, step) + ClaimsBy(cfg, s, step, p)
  {
    hide RunningOf, W.Create, W.CreateKeyed, W.Transit, S.Expire, S.Renew, S.Complete, S.LeaseOut;
    match step
    case Create(request, w, b, now) => CreateRuns(cfg, s.db, request, w, b, now, p);
    case CreateKeyed(request, key, hash, w, b, now) => CreateKeyedRuns(cfg, s.db, request, key, hash, w, b, now, p);
    case Transit(owner, w, transition, b, now) => TransitRuns(cfg, s.db, owner, w, transition, b, now, p);
    case Claim(worker, labels, capacity, secret, asked, now) =>
      var b := Obtains(cfg, s, step);
      if b.Some? {
        LeaseOutRuns(s.db, b.value, worker, secret, asked + LEASE_TIME, now, p);
      }
    case Expire(now) => ExpireRuns(s.db, now, p);
    case Renew(b, worker, secret, asked, extended, now) => RenewRuns(s.db, b, worker, secret, asked, extended, p);
    case Complete(b, worker, secret, error, now) => CompleteRuns(s.db, b, worker, secret, error, now, p);
    case _ =>
      OthersKeepBuilds(cfg, s, step);
      SameBuildsRun(s.db, Apply(cfg, s, step).db, p);
  }

  lemma NextRuns(cfg: Config, s: Sys, step: Step, p: WorkerId)
    ensures RunningOf(Next(cfg, s, step).db, p)
         == RunningOf(s.db, p) - Reports(s, step) - Expiries(s, step) + ClaimsBy(cfg, s, step, p)
  {
    hide RunningOf, S.Expire, S.Complete;
    if Happens(s, step) {
      ApplyRuns(cfg, s.(clock := step.now), step, p);
    }
  }

  // ---- the cached counter is the count -----------------------------------------

  /** What the provisioners table says about a worker; an unregistered worker has nothing running. */
  function Cached(db: Db, p: WorkerId): int {
    if p in db.provisioners then db.provisioners[p].activeBuilds else 0
  }

  predicate CountedFor(db: Db, p: WorkerId) {
    Cached(db, p) == |RunningOf(db, p)|
  }

  ghost predicate Counted(db: Db) {
    forall p :: CountedFor(db, p)
  }

  /** The saturating subtraction never saturates: a closing build is among those counted. */
  lemma CompleteNeverSaturates(db: Db, b: BuildId, worker: WorkerId, secret: Secret, error: string, now: Time)
    requires CountedFor(db, worker)
    requires S.Complete(db, b, worker, secret, error, now).Committed?
    ensures worker in db.provisioners && db.provisioners[worker].activeBuilds > 0
  {
    assert b in RunningOf(db, worker);
  }

  lemma ExpireNeverSaturates(db: Db, p: WorkerId, now: Time)
    requires CountedFor(db, p)
    ensures p in db.provisioners ==> db.provisioners[p].activeBuilds >= |S.OverdueOf(db, p, now)|
    ensures |S.OverdueOf(db, p, now)| > 0 ==> p in db.provisioners
  {
    SubsetSize(S.OverdueOf(db, p, now), RunningOf(db, p));
  }

  lemma SubsetSize<T>(small: set<T>, big: set<T>)
    requires small <= big
    ensures |small| <= |big| && |big - small| == |big| - |small|
  {
    assert big == small + (big - small);
  }

  lemma CompleteCounts(db: Db, b: BuildId, worker: WorkerId, secret: Secret, error: string, now: Time, p: WorkerId)
    requires Counted(db)
    ensures CountedFor(S.Complete(db, b, worker, secret, error, now).Or(db), p)
  {
    assert CountedFor(db, p);
    if S.Complete(db, b, worker, secret, error, now).Committed? {
      assert CountedFor(db, worker);
      CompleteRuns(db, b, worker, secret, error, now, p);
      CompleteNeverSaturates(db, b, worker, secret, error, now);
      assert b in RunningOf(db, p) <==> p == worker;
    }
  }

  lemma ExpireCounts(db: Db, now: Time, p: WorkerId)
    requires Counted(db)
    ensures CountedFor(S.Expire(db, now), p)
  {
    assert CountedFor(db, p);
    var gone := S.OverdueOf(db, p, now);
    assert S.Overdue(db, now) * RunningOf(db, p) == gone;
    ExpireRuns(db, now, p);
    ExpireNeverSaturates(db, p, now);
    assert RunningOf(db, p) - S.Overdue(db, now) == RunningOf(db, p) - gone;
    SubsetSize(gone, RunningOf(db, p));
  }

  lemma LeaseOutCounts(db: Db, b: BuildId, worker: WorkerId, secret: Secret, until: Time, now: Time, p: WorkerId)
    requires Counted(db) && worker in db.provisioners
    requires b in db.builds && db.builds[b].status == BuildStatus.Queued
    ensures CountedFor(S.LeaseOut(db, b, worker, secret, until, now), p)
  {
    assert CountedFor(db, p);
    LeaseOutRuns(db, b, worker, secret, until, now, p);
    assert b !in RunningOf(db, p);
  }

  lemma RestKeepsCache(cfg: Config, s: Sys, step: Step, p: WorkerId)
    requires !step.Claim? && !step.Expire? && !step.Complete?
    ensures Cached(Apply(cfg, s, step).db, p) == Cached(s.db, p)
  {
    hide W.CheckCreateQuota, W.CheckStartQuota, W.BuildClashes, W.NextSequence, W.FirstBuild, W.HasActiveBuild, W.Visible;
    hide A.EnrollmentClashes, A.SilentWorkspaces, S.Holds, S.NextLog;
  }

  /** Every other step leaves both the counters and the running builds alone. */
  lemma RestCounts(cfg: Config, s: Sys, step: Step, p: WorkerId)
    requires Counted(s.db) && Happens(s, step)
    requires !step.Claim? && !step.Expire? && !step.Complete?
    ensures CountedFor(Next(cfg, s, step).db, p)
  {
    hide RunningOf, Apply, Cached;
    assert CountedFor(s.db, p);
    NextRuns(cfg, s, step, p);
    RestKeepsCache(cfg, s.(clock := step.now), step, p);
  }

  lemma StepKeepsCounted(cfg: Config, s: Sys, step: Step)
    requires Counted(s.db)
    ensures Counted(Next(cfg, s, step).db)
  {
    hide RunningOf, CountedFor;
    forall p ensures CountedFor(Next(cfg, s, step).db, p) {
      if !Happens(s, step) {
        assert CountedFor(s.db, p);
      } else if step.Claim? {
        var present := s.(clock := step.now);
        var b := Obtains(cfg, present, step);
        assert CountedFor(s.db, p);
        if b.Some? {
          LeaseOutCounts(s.db, b.value, step.worker, step.secret, step.asked + LEASE_TIME, step.now, p);
        }
      } else if step.Expire? {
        ExpireCounts(s.db, step.now, p);
      } else if step.Complete? {
        CompleteCounts(s.db, step.b, step.worker, step.secret, step.error, step.now, p);
      } else {
        RestCounts(cfg, s, step, p);
      }
    }
  }

  // ---- over whole runs -------------------------------------------------------------

  function ReportsBy(s: Sys, step: Step, p: WorkerId): set<BuildId> {
    Reports(s, step) * RunningOf(s.db, p)
  }

  function ExpiriesOf(s: Sys, step: Step, p: WorkerId): set<BuildId> {
    Expiries(s, step) * RunningOf(s.db, p)
  }

  function ClaimCount(cfg: Config, s: Sys, steps: seq<Step>, p: WorkerId): nat {
    if steps == [] then 0
    else
      var n := |steps| - 1;
      ClaimCount(cfg, s, steps[..n], p) + |ClaimsBy(cfg, Run(cfg, s, steps[..n]), steps[n], p)|
  }

  function ReportCount(cfg: Config, s: Sys, steps: seq<Step>, p: WorkerId): nat {
    if steps == [] then 0
    else
      var n := |steps| - 1;
      ReportCount(cfg, s, steps[..n], p) + |ReportsBy(Run(cfg, s, steps[..n]), steps[n], p)|
  }

  function ExpiryCount(cfg: Config, s: Sys, steps: seq<Step>, p: WorkerId): nat {
    if steps == [] then 0
    else
      var n := |steps| - 1;
      ExpiryCount(cfg, s, steps[..n], p) + |ExpiriesOf(Run(cfg, s, steps[..n]), steps[n], p)|
  }

  lemma SetBalance(running: set<BuildId>, reports: set<BuildId>, expiries: set<BuildId>, claims: set<BuildId>)
    requires reports == {} || expiries == {}
    requires claims !! running && (claims == {} || (reports == {} && expiries == {}))
    ensures |running - reports - expiries + claims| + |reports * running| + |expiries * running| == |running| + |claims|
  {
    var gone := (reports + expiries) * running;
    assert running - reports - expiries == running - gone;
    assert gone == if reports == {} then expiries * running else reports * running;
    assert reports * running == {} || expiries * running == {};
    SubsetSize(gone, running);
  }

  lemma StepBalance(cfg: Config, s: Sys, step: Step, p: WorkerId)
    ensures |RunningOf(Next(cfg, s, step).db, p)| + |ReportsBy(s, step, p)| + |ExpiriesOf(s, step, p)|
         == |RunningOf(s.db, p)| + |ClaimsBy(cfg, s, step, p)|
  {
    hide Next, S.Complete, S.Overdue;
    NextRuns(cfg, s, step, p);
    assert ClaimsBy(cfg, s, step, p) !! RunningOf(s.db, p);
    SetBalance(RunningOf(s.db, p), Reports(s, step), Expiries(s, step), ClaimsBy(cfg, s, step, p));
  }

  /** Per worker: builds claimed = builds reported + leases expired + builds still running. */
  lemma {:induction false} Conservation(cfg: Config, s: Sys, steps: seq<Step>, p: WorkerId)
    ensures |RunningOf(s.db, p)| + ClaimCount(cfg, s, steps, p)
         == ReportCount(cfg, s, steps, p) + ExpiryCount(cfg, s, steps, p) + |RunningOf(Run(cfg, s, steps).db, p)|
  {
    if steps != [] {
      var n := |steps| - 1;
      Conservation(cfg, s, steps[..n], p);
      StepBalance(cfg, Run(cfg, s, steps[..n]), steps[n], p);
      hide Next, RunningOf;
    }
  }

  /** The largest capacity among the claims of p that the handler lets through. */
  function LargestCapacity(steps: seq<Step>, p: WorkerId): nat {
    if steps == [] then 0
    else
      var n := |steps| - 1;
      var before := LargestCapacity(steps[..n], p);
      if steps[n].Claim? && steps[n].worker == p && before < steps[n].capacity <= 100 then steps[n].capacity else before
  }

  /** Whatever else happens, a worker never runs more builds than the largest capacity it passed. */
  lemma {:induction false} WithinCapacity(cfg: Config, steps: seq<Step>, p: WorkerId)
    ensures |RunningOf(Run(cfg, INIT, steps).db, p)| <= LargestCapacity(steps, p) <= 100
  {
    if steps != [] {
      var n := |steps| - 1;
      var s := Run(cfg, INIT, steps[..n]);
      WithinCapacity(cfg, steps[..n], p);
      StepBalance(cfg, s, steps[n], p);
      if ClaimsBy(cfg, s, steps[n], p) != {} {
        assert |RunningOf(s.db, p)| < steps[n].capacity;
      }
      hide Next, RunningOf;
    }
  }
}
