/** Whole requests are runs of the state machine, so what holds of reachable states holds after every request. */
module Handlers {
  import opened Tables
  import opened System
  import opened WorkspaceService
  import opened RouterService
  import W = Workspaces
  import S = Scheduler
  import A = Agents

  /** Tables that some run up to this moment leads to. */
  ghost predicate ReachableDb(cfg: Config, db: Db, now: Time) {
    exists s :: System.Reachable(cfg, s) && s.db == db && s.clock <= now
  }

  lemma ReachesNext(cfg: Config, s: Sys, step: Step)
    requires System.Reachable(cfg, s)
    ensures System.Reachable(cfg, Next(cfg, s, step))
  {
    hide Next;
    var steps :| s == Run(cfg, INIT, steps);
    assert (steps + [step])[..|steps|] == steps;
    assert Next(cfg, s, step) == Run(cfg, INIT, steps + [step]);
  }

  lemma WaitStaysReachable(cfg: Config, db: Db, now: Time, later: Time)
    requires ReachableDb(cfg, db, now) && now <= later
    ensures ReachableDb(cfg, db, later)
  {}

  lemma CreateReaches(cfg: Config, db: Db, request: W.Request, draw: Draw)
    requires ReachableDb(cfg, db, draw.now)
    ensures ReachableDb(cfg, W.Create(cfg, db, request, draw.w, draw.b, draw.now).Or(db), draw.now)
  {
    hide W.Create;
    var s :| System.Reachable(cfg, s) && s.db == db && s.clock <= draw.now;
    ReachesNext(cfg, s, Create(request, draw.w, draw.b, draw.now));
  }

  lemma CreateKeyedReaches(cfg: Config, db: Db, request: W.Request, key: string, hash: Secret, draw: Draw)
    requires ReachableDb(cfg, db, draw.now) && key != ""
    ensures ReachableDb(cfg, W.CreateKeyed(cfg, db, request, key, hash, draw.w, draw.b, draw.now).Or(db), draw.now)
  {
    hide W.CreateKeyed;
    var s :| System.Reachable(cfg, s) && s.db == db && s.clock <= draw.now;
    ReachesNext(cfg, s, CreateKeyed(request, key, hash, draw.w, draw.b, draw.now));
  }

  lemma TransitReaches(cfg: Config, db: Db, owner: OwnerId, w: WorkspaceId, transition: Transition, b: BuildId, now: Time)
    requires ReachableDb(cfg, db, now)
    ensures ReachableDb(cfg, W.Transit(cfg, db, owner, w, transition, b, now).Or(db), now)
  {
    hide W.Transit;
    var s :| System.Reachable(cfg, s) && s.db == db && s.clock <= now;
    ReachesNext(cfg, s, Transit(owner, w, transition, b, now));
  }

  /** The attempts of one request run one after the other, up to its end. */
  predicate InTime(draws: seq<Draw>, begin: Time, end: Time) {
    begin <= end &&
    (draws == [] || (begin <= draws[0].now && InTime(draws[1..], draws[0].now, end)))
  }

  lemma {:induction false} CreationReaches(cfg: Config, db: Db, request: W.Request, draws: seq<Draw>, begin: Time, end: Time)
    requires ReachableDb(cfg, db, begin) && InTime(draws, begin, end)
    ensures ReachableDb(cfg, CreateSpec(cfg, db, request, draws).Or(db), end)
    ensures ReachableDb(cfg, CreateRetrying(cfg, db, request, draws).Or(db), end)
  {
    hide W.Create, ReachableDb;
    WaitStaysReachable(cfg, db, begin, end);
    if draws != [] {
      WaitStaysReachable(cfg, db, begin, draws[0].now);
      CreateReaches(cfg, db, request, draws[0]);
      EndIsLast(draws[1..], draws[0].now, end);
      WaitStaysReachable(cfg, W.Create(cfg, db, request, draws[0].w, draws[0].b, draws[0].now).Or(db), draws[0].now, end);
      CreationReaches(cfg, db, request, draws[1..], draws[0].now, end);
    }
  }

  lemma {:induction false} EndIsLast(draws: seq<Draw>, begin: Time, end: Time)
    requires InTime(draws, begin, end)
    ensures begin <= end
  {}

  /** A keyed creation request with all its attempts leads from reachable tables to reachable tables. */
  lemma {:induction false} IdempotentCreationReaches(cfg: Config, db: Db, request: W.Request, key: string, hash: Secret,
                                                    draws: seq<Draw>, begin: Time, end: Time)
    requires ReachableDb(cfg, db, begin) && InTime(draws, begin, end)
    ensures ReachableDb(cfg, CreateIdempotentSpec(cfg, db, request, key, hash, draws).Or(db), end)
    ensures key != "" ==> ReachableDb(cfg, KeyedRetrying(cfg, db, request, key, hash, draws).Or(db), end)
  {
    hide W.CreateKeyed, ReachableDb, CreateSpec;
    CreationReaches(cfg, db, request, draws, begin, end);
    WaitStaysReachable(cfg, db, begin, end);
    if key != "" && draws != [] {
      WaitStaysReachable(cfg, db, begin, draws[0].now);
      CreateKeyedReaches(cfg, db, request, key, hash, draws[0]);
      EndIsLast(draws[1..], draws[0].now, end);
      WaitStaysReachable(cfg, W.CreateKeyed(cfg, db, request, key, hash, draws[0].w, draws[0].b, draws[0].now).Or(db), draws[0].now, end);
      IdempotentCreationReaches(cfg, db, request, key, hash, draws[1..], draws[0].now, end);
    }
  }

  /** Stopping idle workspaces leads from reachable tables to reachable tables, even if it ends with an error. */
  lemma {:induction false} StopIdleReaches(cfg: Config, db: Db, owners: map<WorkspaceId, Workspace>, ids: seq<WorkspaceId>,
                                          draws: seq<Draw>, begin: Time, end: Time)
    requires ReachableDb(cfg, db, begin) && InTime(draws, begin, end) && |draws| >= |ids|
    requires forall i :: 0 <= i < |ids| ==> ids[i] in owners
    ensures ReachableDb(cfg, StopEach(cfg, db, owners, ids, draws).0, end)
    decreases |ids|
  {
    hide W.Transit, ReachableDb;
    WaitStaysReachable(cfg, db, begin, end);
    if ids != [] {
      var txn := W.Transit(cfg, db, owners[ids[0]].owner, ids[0], Stop, draws[0].b, draws[0].now);
      WaitStaysReachable(cfg, db, begin, draws[0].now);
      TransitReaches(cfg, db, owners[ids[0]].owner, ids[0], Stop, draws[0].b, draws[0].now);
      if !(txn.RolledBack? && txn.error != NotFound && txn.error != ActiveBuild) {
        StopIdleReaches(cfg, txn.Or(db), owners, ids[1..], draws[1..], draws[0].now, end);
      }
    }
  }

  lemma ClaimLeases(cfg: Config, s: Sys, worker: WorkerId, labels: seq<string>, capacity: int, secret: Secret, asked: Time, now: Time)
    requires worker in s.db.provisioners && 1 <= capacity <= 100 && s.clock <= now && asked <= now
    ensures var after := Next(cfg, s, Claim(worker, labels, capacity, secret, asked, now));
            && after.clock == now
            && if S.Choose(cfg, s.db, worker, labels, capacity).None? then after.db == s.db
               else
                 var b := S.Choose(cfg, s.db, worker, labels, capacity).value;
                 && after.db == S.LeaseOut(s.db, b, worker, secret, asked + LEASE_TIME, now)
                 && (s.db.builds[b].transition == Start ==> b in after.owed)
  {
    hide S.NextBuild, RunningOf;
  }

  lemma EnrollCreates(cfg: Config, s: Sys, b: BuildId, agent: AgentId, token: Secret, ends: Time, now: Time)
    requires b in s.owed && b in s.db.builds && s.clock <= now
    ensures Next(cfg, s, Enroll(b, agent, token, ends, now)).db
         == A.CreateEnrollment(s.db, s.db.builds[b].workspace, b, agent, token, ends).Or(s.db)
    ensures Next(cfg, s, Enroll(b, agent, token, ends, now)).clock == now
  {
    hide A.CreateEnrollment;
  }

  lemma EnlistStep(cfg: Config, s: Sys, worker: WorkerId, labels: seq<string>, capacity: int, expiry: Time, now: Time)
    requires 1 <= capacity <= 100 && s.clock <= expiry <= now
    ensures var after := Next(cfg, Next(cfg, s, Expire(expiry)), Enlist(worker, labels, capacity, now));
            after.db == S.Enlist(S.Expire(s.db, expiry), worker, labels, capacity, now) && after.clock == now
  {
    hide S.Expire;
  }

  lemma EnlistReaches(cfg: Config, db: Db, worker: WorkerId, labels: seq<string>, capacity: int, expiry: Time, now: Time)
    requires ReachableDb(cfg, db, expiry) && expiry <= now && 1 <= capacity <= 100
    ensures ReachableDb(cfg, S.Enlist(S.Expire(db, expiry), worker, labels, capacity, now), now)
    ensures worker in S.Enlist(S.Expire(db, expiry), worker, labels, capacity, now).provisioners
  {
    hide S.Expire, Next;
    var s :| System.Reachable(cfg, s) && s.db == db && s.clock <= expiry;
    EnlistStep(cfg, s, worker, labels, capacity, expiry, now);
    ReachesNext(cfg, s, Expire(expiry));
    ReachesNext(cfg, Next(cfg, s, Expire(expiry)), Enlist(worker, labels, capacity, now));
  }

  lemma LeaseKeepsWorkspace(db: Db, b: BuildId, worker: WorkerId, secret: Secret, until: Time, now: Time)
    requires b in db.builds
    ensures b in S.LeaseOut(db, b, worker, secret, until, now).builds
    ensures S.LeaseOut(db, b, worker, secret, until, now).builds[b].workspace == db.builds[b].workspace
  {}

  /** The lease of a start build is followed by its enrollment. */
  lemma LeaseReaches(cfg: Config, db: Db, worker: WorkerId, labels: seq<string>, capacity: int, secret: Secret,
                     agent: AgentId, token: Secret, ends: Time, asked: Time, now: Time)
    requires ReachableDb(cfg, db, now) && asked <= now && worker in db.provisioners && 1 <= capacity <= 100
    requires S.Choose(cfg, db, worker, labels, capacity).Some?
    ensures var b := S.Choose(cfg, db, worker, labels, capacity).value;
            var leased := S.LeaseOut(db, b, worker, secret, asked + LEASE_TIME, now);
            if db.builds[b].transition == Start
            then ReachableDb(cfg, A.CreateEnrollment(leased, db.builds[b].workspace, b, agent, token, ends).Or(leased), now)
            else ReachableDb(cfg, leased, now)
  {
    hide S.Choose, S.LeaseOut, A.CreateEnrollment, Next;
    var s :| System.Reachable(cfg, s) && s.db == db && s.clock <= now;
    var b := S.Choose(cfg, db, worker, labels, capacity).value;
    var claim := Claim(worker, labels, capacity, secret, asked, now);
    ClaimLeases(cfg, s, worker, labels, capacity, secret, asked, now);
    ReachesNext(cfg, s, claim);
    if db.builds[b].transition == Start {
      var leased := Next(cfg, s, claim);
      LeaseKeepsWorkspace(db, b, worker, secret, asked + LEASE_TIME, now);
      EnrollCreates(cfg, leased, b, agent, token, ends, now);
      ReachesNext(cfg, leased, Enroll(b, agent, token, ends, now));
    }
  }

  /** A claim request, from expiring leases to enrolling the agent, leads from reachable tables to reachable tables. */
  lemma ClaimReaches(cfg: Config, db: Db, worker: WorkerId, labels: seq<string>, requested: int, secret: Secret,
                     agent: AgentId, token: Secret, ends: Time, times: ClaimTimes)
    requires ReachableDb(cfg, db, times.expiry) && times.expiry <= times.upsert <= times.asked <= times.claim
    ensures ReachableDb(cfg, Claimed(cfg, db, worker, labels, requested, secret, agent, token, ends, times).0, times.claim)
  {
    hide ReachableDb, S.Expire, S.Enlist, S.Choose, S.LeaseOut, A.CreateEnrollment;
    var capacity := if requested == 0 then 1 else requested;
    WaitStaysReachable(cfg, db, times.expiry, times.claim);
    if 1 <= capacity <= 100 {
      var enlisted := S.Enlist(S.Expire(db, times.expiry), worker, labels, capacity, times.upsert);
      EnlistReaches(cfg, db, worker, labels, capacity, times.expiry, times.upsert);
      WaitStaysReachable(cfg, enlisted, times.upsert, times.claim);
      if S.Choose(cfg, enlisted, worker, labels, capacity).Some? {
        LeaseReaches(cfg, enlisted, worker, labels, capacity, secret, agent, token, ends, times.asked, times.claim);
      }
    }
  }

  lemma LogSteps(cfg: Config, s: Sys, id: RequestId, b: BuildId, worker: WorkerId, secret: Secret, row: LogRow, asked: Time, now: Time)
    requires s.clock <= now && asked <= now && id !in s.writers && S.Holds(s.db, b, worker, secret, asked)
    ensures var last := Next(cfg, Next(cfg, Next(cfg, s, LogCheck(id, b, worker, secret, asked, now)), LogRead(id, now)), LogInsert(id, row, now));
            last.db == S.InsertLog(s.db, b, S.NextLog(s.db, b), row).Or(s.db) && last.clock == now
  {
    hide S.Holds, S.NextLog, S.InsertLog;
    var admitted := Next(cfg, s, LogCheck(id, b, worker, secret, asked, now));
    assert admitted == s.(clock := now, writers := s.writers[id := Admitted(b)]);
    var holding := Next(cfg, admitted, LogRead(id, now));
    assert holding.db == s.db && holding.writers[id] == Holding(b, S.NextLog(s.db, b)) && holding.clock == now;
  }

  /** A logs request leads from reachable tables to reachable tables. */
  lemma LogReaches(cfg: Config, db: Db, b: BuildId, worker: WorkerId, secret: Secret, row: LogRow, asked: Time, now: Time)
    requires ReachableDb(cfg, db, now) && asked <= now && S.Holds(db, b, worker, secret, asked)
    ensures ReachableDb(cfg, S.InsertLog(db, b, S.NextLog(db, b), row).Or(db), now)
  {
    hide S.Holds, S.NextLog, S.InsertLog, Next;
    var s :| System.Reachable(cfg, s) && s.db == db && s.clock <= now;
    var id: RequestId := MaxOrZero(s.writers.Keys) + 1;
    assert id !in s.writers;
    LogSteps(cfg, s, id, b, worker, secret, row, asked, now);
    var check, read := LogCheck(id, b, worker, secret, asked, now), LogRead(id, now);
    ReachesNext(cfg, s, check);
    ReachesNext(cfg, Next(cfg, s, check), read);
    ReachesNext(cfg, Next(cfg, Next(cfg, s, check), read), LogInsert(id, row, now));
  }
}
