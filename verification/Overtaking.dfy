/** Which build a claim takes, and how often a waiting build can be passed over. */
module Overtaking {
  import opened Wrappers
  import opened Tables
  import opened System
  import opened Counters
  import opened Leases
  import W = Workspaces
  import S = Scheduler

  predicate Waiting(db: Db, b: BuildId) {
    b in db.builds && db.builds[b].status == BuildStatus.Queued
  }

  predicate Suits(cfg: Config, db: Db, labels: seq<string>, b: BuildId)
    requires b in db.builds
  {
    S.Covers(labels, cfg.Required(db.builds[b].template))
  }

  predicate Takeable(cfg: Config, db: Db, labels: seq<string>, b: BuildId) {
    Waiting(db, b) && Suits(cfg, db, labels, b)
  }

  /** A claim takes the first waiting build its worker suits, and nothing exactly when it is full or suits none. */
  lemma ClaimIsExact(cfg: Config, db: Db, worker: WorkerId, labels: seq<string>, capacity: int, b: BuildId)
    ensures S.Choose(cfg, db, worker, labels, capacity) == Some(b) <==>
              && |RunningOf(db, worker)| < capacity
              && Takeable(cfg, db, labels, b)
              && (forall c :: Takeable(cfg, db, labels, c) && c != b ==> S.Precedes(db, b, c))
    ensures S.Choose(cfg, db, worker, labels, capacity) == None <==>
              |RunningOf(db, worker)| >= capacity || forall c :: !Takeable(cfg, db, labels, c)
  {
    hide RunningOf;
    var rank := map c | c in db.builds && S.Eligible(cfg, db, labels, c) :: db.builds[c].createdAt;
    assert forall c :: Takeable(cfg, db, labels, c) <==> c in rank;
    if S.NextBuild(cfg, db, labels).Some? {
      var first := S.NextBuild(cfg, db, labels).value;
      assert Leads(rank, first);
      assert forall c :: Takeable(cfg, db, labels, c) && c != first ==> S.Precedes(db, first, c);
    } else {
      assert rank == map[];
    }
  }

  // ---- bounded overtaking ------------------------------------------------------------------

  /** The waiting builds before b that a worker with no labels outside the pool could take. */
  function Ahead(cfg: Config, db: Db, b: BuildId, pool: seq<string>): set<BuildId>
    requires b in db.builds
  {
    set c | c in db.builds && Takeable(cfg, db, pool, c) && S.Precedes(db, c, b)
  }

  /** A worker from the pool that could have taken the waiting build b takes another one. */
  predicate Passes(cfg: Config, s: Sys, step: Step, b: BuildId, pool: seq<string>) {
    && Waiting(s.db, b)
    && step.Claim? && Suits(cfg, s.db, step.labels, b) && S.Covers(pool, step.labels)
    && Granted(cfg, s, step) != {} && b !in Granted(cfg, s, step)
  }

  /** What a covering worker claims while b waits comes before b in the queue. */
  lemma CoveringWorkerTakesEarlier(cfg: Config, s: Sys, step: Step, b: BuildId, c: BuildId)
    requires Waiting(s.db, b) && step.Claim? && Suits(cfg, s.db, step.labels, b)
    requires c in Granted(cfg, s, step) && c != b
    ensures Takeable(cfg, s.db, step.labels, c) && S.Precedes(s.db, c, b)
  {
    ClaimIsExact(cfg, s.db, step.worker, step.labels, step.capacity, c);
    assert Takeable(cfg, s.db, step.labels, b);
  }

  // ---- what an insertion does to the queue -------------------------------------------------------

  /** The transaction of a step that inserts a build commits. */
  predicate Commits(cfg: Config, s: Sys, step: Step) {
    && Happens(s, step)
    && match step
       case Create(request, w, b, now) => W.Create(cfg, s.db, request, w, b, now).Committed?
       case CreateKeyed(request, key, hash, w, b, now) =>
         var txn := W.CreateKeyed(cfg, s.db, request, key, hash, w, b, now);
         key != "" && txn.Committed? && txn.value.isNew
       case Transit(owner, w, transition, b, now) => W.Transit(cfg, s.db, owner, w, transition, b, now).Committed?
       case _ => false
  }

  /** The template of the build a step inserts. */
  function InsertedTemplate(s: Sys, step: Step): string
    requires Adds(step)
  {
    if !step.Transit? then step.request.template
    else if step.w in s.db.workspaces then s.db.workspaces[step.w].template
    else ""
  }

  /** The step inserts a build at the very instant b was created, with a smaller identifier, that the pool can take. */
  predicate TiesAhead(cfg: Config, s: Sys, step: Step, b: BuildId, pool: seq<string>) {
    && b in s.db.builds && Adds(step) && Commits(cfg, s, step)
    && step.now == s.db.builds[b].createdAt && step.b < b
    && S.Covers(pool, cfg.Required(InsertedTemplate(s, step)))
  }

  predicate InsertsQueued(s: Sys, next: Db, step: Step)
    requires Adds(step)
  {
    && step.b !in s.db.builds && next.builds.Keys == s.db.builds.Keys + {step.b}
    && next.builds[step.b].status == BuildStatus.Queued && next.builds[step.b].createdAt == step.now
    && next.builds[step.b].template == InsertedTemplate(s, step)
  }

  lemma CreateInserts(cfg: Config, s: Sys, step: Step)
    requires step.Create? && Happens(s, step)
    ensures if Commits(cfg, s, step) then InsertsQueued(s, Next(cfg, s, step).db, step) else Next(cfg, s, step).db == s.db
  {
    hide W.CheckCreateQuota;
  }

  lemma CreateKeyedInserts(cfg: Config, s: Sys, step: Step)
    requires step.CreateKeyed? && Happens(s, step)
    ensures if Commits(cfg, s, step) then InsertsQueued(s, Next(cfg, s, step).db, step) else Next(cfg, s, step).db == s.db
  {
    hide W.CheckCreateQuota, W.FirstBuild;
  }

  lemma TransitInserts(cfg: Config, s: Sys, step: Step)
    requires step.Transit? && Happens(s, step)
    ensures if Commits(cfg, s, step) then InsertsQueued(s, Next(cfg, s, step).db, step) else Next(cfg, s, step).db == s.db
  {
    hide W.CheckStartQuota, W.NextSequence, W.HasActiveBuild;
  }

  /** A step that adds builds inserts its one queued build, or leaves the tables alone. */
  lemma InsertsOrNot(cfg: Config, s: Sys, step: Step)
    requires Adds(step)
    ensures if Commits(cfg, s, step) then InsertsQueued(s, Next(cfg, s, step).db, step)
            else Next(cfg, s, step).db.builds == s.db.builds
  {
    hide InsertsQueued;
    if Happens(s, step) {
      match step
      case Create(_, _, _, _) => CreateInserts(cfg, s, step);
      case CreateKeyed(_, _, _, _, _, _) => CreateKeyedInserts(cfg, s, step);
      case Transit(_, _, _, _, _) => TransitInserts(cfg, s, step);
    }
  }

  lemma AheadOnlyShrinks(cfg: Config, s: Sys, step: Step, b: BuildId, pool: seq<string>, c: BuildId)
    requires b in s.db.builds && b in Next(cfg, s, step).db.builds && s.db.builds[b].createdAt <= s.clock
    requires c in Ahead(cfg, Next(cfg, s, step).db, b, pool)
    ensures c in Ahead(cfg, s.db, b, pool) || (TiesAhead(cfg, s, step, b, pool) && c == step.b)
    ensures c !in Granted(cfg, s, step)
  {
    hide Next, RunningOf, S.NextBuild, Commits;
    NextRowIs(cfg, s, step, b);
    if c in s.db.builds {
      NextRowIs(cfg, s, step, c);
    } else {
      NewBuildsAreQueued(cfg, s, step, c);
      InsertsOrNot(cfg, s, step);
      StandsStill(cfg, s, step);
    }
  }

  /** The queue ahead of b gains exactly the build of a step that ties ahead of it, and nothing from any other step. */
  lemma AheadGrowsExactlyOnTies(cfg: Config, s: Sys, step: Step, b: BuildId, pool: seq<string>)
    requires b in s.db.builds && s.db.builds[b].createdAt <= s.clock
    ensures b in Next(cfg, s, step).db.builds
    ensures Ahead(cfg, Next(cfg, s, step).db, b, pool) - Ahead(cfg, s.db, b, pool)
         == if TiesAhead(cfg, s, step, b, pool) then {step.b} else {}
  {
    hide Next, RunningOf, S.NextBuild, Commits;
    var after := Next(cfg, s, step).db;
    NextRowIs(cfg, s, step, b);
    KeepsAge(cfg, s, step, b);
    hide NextRow;
    forall c | c in Ahead(cfg, after, b, pool) && c !in Ahead(cfg, s.db, b, pool)
      ensures TiesAhead(cfg, s, step, b, pool) && c == step.b
    {
      AheadOnlyShrinks(cfg, s, step, b, pool, c);
    }
    if TiesAhead(cfg, s, step, b, pool) {
      InsertsOrNot(cfg, s, step);
    }
  }

  lemma StandsStill(cfg: Config, s: Sys, step: Step)
    ensures !Happens(s, step) ==> Next(cfg, s, step) == s
  {}

  function TieOf(cfg: Config, s: Sys, step: Step, b: BuildId, pool: seq<string>): set<BuildId> {
    if TiesAhead(cfg, s, step, b, pool) then {step.b} else {}
  }

  lemma StepShrinks(cfg: Config, s: Sys, step: Step, b: BuildId, pool: seq<string>)
    requires Waiting(s.db, b) && s.db.builds[b].createdAt <= s.clock
    ensures b in Next(cfg, s, step).db.builds
    ensures Ahead(cfg, Next(cfg, s, step).db, b, pool)
         <= Ahead(cfg, s.db, b, pool) - Granted(cfg, s, step) + TieOf(cfg, s, step, b, pool)
    ensures Passes(cfg, s, step, b, pool) ==> exists c :: c in Ahead(cfg, s.db, b, pool) && c in Granted(cfg, s, step)
  {
    hide Next, Ahead, TiesAhead;
    NextRowIs(cfg, s, step, b);
    forall c | c in Ahead(cfg, Next(cfg, s, step).db, b, pool)
      ensures c in Ahead(cfg, s.db, b, pool) - Granted(cfg, s, step) + TieOf(cfg, s, step, b, pool)
    {
      AheadOnlyShrinks(cfg, s, step, b, pool, c);
    }
    if Passes(cfg, s, step, b, pool) {
      PassedByEarlier(cfg, s, step, b, pool);
    }
  }

  lemma PassedByEarlier(cfg: Config, s: Sys, step: Step, b: BuildId, pool: seq<string>)
    requires Passes(cfg, s, step, b, pool)
    ensures exists c :: c in Ahead(cfg, s.db, b, pool) && c in Granted(cfg, s, step)
  {
    hide RunningOf, S.NextBuild;
    var c := Obtains(cfg, s, step).value;
    CoveringWorkerTakesEarlier(cfg, s, step, b, c);
    assert Takeable(cfg, s.db, pool, c);
  }

  /** A worker that could take some build ahead of b, and claims anything, claims a build ahead of b. */
  lemma AheadIsServed(cfg: Config, s: Sys, step: Step, b: BuildId, pool: seq<string>, c: BuildId)
    requires b in s.db.builds && c in Ahead(cfg, s.db, b, pool)
    requires step.Claim? && Suits(cfg, s.db, step.labels, c) && S.Covers(pool, step.labels) && Granted(cfg, s, step) != {}
    ensures exists d :: d in Ahead(cfg, s.db, b, pool) && d in Granted(cfg, s, step)
  {
    hide RunningOf, S.NextBuild;
    var d := Obtains(cfg, s, step).value;
    ClaimIsExact(cfg, s.db, step.worker, step.labels, step.capacity, d);
    assert Takeable(cfg, s.db, step.labels, c) && Takeable(cfg, s.db, pool, d);
    assert d in Granted(cfg, s, step);
  }

  function PassCount(cfg: Config, s: Sys, steps: seq<Step>, b: BuildId, pool: seq<string>): nat {
    if steps == [] then 0
    else
      var n := |steps| - 1;
      PassCount(cfg, s, steps[..n], b, pool) + if Passes(cfg, Run(cfg, s, steps[..n]), steps[n], b, pool) then 1 else 0
  }

  /** How many steps of the run tie ahead of b. */
  function TieCount(cfg: Config, s: Sys, steps: seq<Step>, b: BuildId, pool: seq<string>): nat {
    if steps == [] then 0
    else
      var n := |steps| - 1;
      TieCount(cfg, s, steps[..n], b, pool) + |TieOf(cfg, Run(cfg, s, steps[..n]), steps[n], b, pool)|
  }

  function Remaining(cfg: Config, db: Db, b: BuildId, pool: seq<string>): nat {
    if Waiting(db, b) then |Ahead(cfg, db, b, pool)| else 0
  }

  lemma SizesLeft(before: set<BuildId>, after: set<BuildId>, granted: set<BuildId>, tie: set<BuildId>)
    requires after <= before - granted + tie
    ensures |after| + (if exists c :: c in before && c in granted then 1 else 0) <= |before| + |tie|
  {
    SubsetSize(after, before - granted + tie);
    if c :| c in before && c in granted {
      SubsetSize(before - granted + {c}, before);
    } else {
      SubsetSize(before - granted, before);
    }
  }

  lemma StepUsesUp(cfg: Config, s: Sys, step: Step, b: BuildId, pool: seq<string>)
    requires b in s.db.builds && s.db.builds[b].createdAt <= s.clock
    ensures (if Passes(cfg, s, step, b, pool) then 1 else 0) + Remaining(cfg, Next(cfg, s, step).db, b, pool)
         <= Remaining(cfg, s.db, b, pool) + |TieOf(cfg, s, step, b, pool)|
  {
    hide Next, Ahead, NextRow, RunningOf, TieOf;
    if Waiting(s.db, b) {
      StepShrinks(cfg, s, step, b, pool);
      hide Passes, Granted;
      SizesLeft(Ahead(cfg, s.db, b, pool), Ahead(cfg, Next(cfg, s, step).db, b, pool), Granted(cfg, s, step), TieOf(cfg, s, step, b, pool));
    } else {
      NextRowIs(cfg, s, step, b);
      StaysClaimed(cfg, s, step, b);
    }
  }

  lemma StaysClaimed(cfg: Config, s: Sys, step: Step, b: BuildId)
    requires b in s.db.builds && s.db.builds[b].status != BuildStatus.Queued
    ensures NextRow(cfg, s, step, b).status != BuildStatus.Queued
  {
    hide RunningOf, S.NextBuild;
  }

  /** However long it waits, b is passed over at most once for every build ahead of it at the start and every later tie. */
  lemma {:induction false} BoundedOvertaking(cfg: Config, s: Sys, steps: seq<Step>, b: BuildId, pool: seq<string>)
    requires b in s.db.builds && s.db.builds[b].createdAt <= s.clock
    ensures PassCount(cfg, s, steps, b, pool) + Remaining(cfg, Run(cfg, s, steps).db, b, pool)
         <= Remaining(cfg, s.db, b, pool) + TieCount(cfg, s, steps, b, pool)
    ensures b in Run(cfg, s, steps).db.builds && Run(cfg, s, steps).db.builds[b].createdAt == s.db.builds[b].createdAt
    ensures s.clock <= Run(cfg, s, steps).clock
  {
    if steps != [] {
      hide Next, Remaining, Passes, TieOf;
      var n := |steps| - 1;
      var before := Run(cfg, s, steps[..n]);
      BoundedOvertaking(cfg, s, steps[..n], b, pool);
      StepUsesUp(cfg, before, steps[n], b, pool);
      NextRowIs(cfg, before, steps[n], b);
      KeepsAge(cfg, before, steps[n], b);
      NextClock(cfg, before, steps[n]);
      hide NextRow;
    }
  }

  /** Nothing ties with b if every later build is created later. */
  lemma {:induction false} LaterBuildsNeverTie(cfg: Config, s: Sys, steps: seq<Step>, b: BuildId, pool: seq<string>)
    requires b in s.db.builds && s.db.builds[b].createdAt <= s.clock
    requires forall i :: 0 <= i < |steps| && Adds(steps[i]) ==> steps[i].now != s.db.builds[b].createdAt
    ensures TieCount(cfg, s, steps, b, pool) == 0
  {
    if steps != [] {
      hide Next, Remaining, Passes, Commits;
      var n := |steps| - 1;
      LaterBuildsNeverTie(cfg, s, steps[..n], b, pool);
      BoundedOvertaking(cfg, s, steps[..n], b, pool);
    }
  }

  // Two creations at one instant, the second with the smaller identifier, and then a claim.
  const FREE: Config := Config(map[], map[])
  const FIRST: Step := Create(W.Request(1, "", "t", None), 0, 5, 0)
  const SECOND: Step := Create(W.Request(1, "", "t", None), 1, 3, 0)
  const LATE: seq<Step> := [SECOND, Enlist(9, [], 1, 0), Claim(9, [], 1, 0, 0, 0)]

  function Row(w: WorkspaceId): Build {
    W.QueuedBuild(w, 1, Start, "t", 0)
  }

  function Place(): Workspace {
    W.NewWorkspace(W.Request(1, "", "t", None), 0)
  }

  function OneQueued(): Db {
    EMPTY_DB.(workspaces := map[0 := Place()], builds := map[5 := Row(0)])
  }

  function TwoQueued(): Db {
    EMPTY_DB.(workspaces := map[0 := Place(), 1 := Place()], builds := map[5 := Row(0), 3 := Row(1)])
  }

  lemma FirstCreated()
    ensures Next(FREE, INIT, FIRST) == INIT.(db := OneQueued(), history := map[0 := [5]])
    ensures Run(FREE, INIT, [FIRST]) == Next(FREE, INIT, FIRST)
  {
    assert [FIRST][..0] == [];
  }

  lemma SecondCreated(s: Sys)
    requires s.db == OneQueued() && s.clock == 0
    ensures TiesAhead(FREE, s, SECOND, 5, [])
    ensures Next(FREE, s, SECOND).db == TwoQueued() && Next(FREE, s, SECOND).clock == 0
  {
    assert s.db.workspaces[1 := Place()] == TwoQueued().workspaces;
    assert s.db.builds[3 := Row(1)] == TwoQueued().builds;
  }

  lemma WorkerEnlisted(s: Sys)
    requires s.db == TwoQueued() && s.clock == 0
    ensures Next(FREE, s, LATE[1]).db == TwoQueued().(provisioners := map[9 := Provisioner([], 1, 0, 0)])
    ensures Next(FREE, s, LATE[1]).clock == 0
  {}

  lemma SecondClaimed(s: Sys)
    requires s.db == TwoQueued().(provisioners := map[9 := Provisioner([], 1, 0, 0)]) && s.clock == 0
    ensures Passes(FREE, s, LATE[2], 5, [])
  {
    assert RunningOf(s.db, 9) == {};
    assert Takeable(FREE, s.db, [], 3) && Takeable(FREE, s.db, [], 5);
    ClaimIsExact(FREE, s.db, 9, [], 1, 3);
  }

  lemma AheadOfFirst()
    ensures Ahead(FREE, OneQueued(), 5, []) == {} && Ahead(FREE, TwoQueued(), 5, []) == {3}
  {}

  /** A tie makes the queue ahead grow, and then the waiting build is passed over though nothing was ahead of it. */
  lemma TieOvertakes()
    ensures var s := Run(FREE, INIT, [FIRST]);
            && Waiting(s.db, 5) && Ahead(FREE, s.db, 5, []) == {}
            && 5 in Next(FREE, s, SECOND).db.builds && Ahead(FREE, Next(FREE, s, SECOND).db, 5, []) == {3}
            && PassCount(FREE, s, LATE, 5, []) == 1 && TieCount(FREE, s, LATE, 5, []) == 1
  {
    FirstCreated();
    AheadOfFirst();
    var s := Run(FREE, INIT, [FIRST]);
    hide Next, Ahead, Run, PassCount, TieCount, Granted, S.Covers;
    SecondCreated(s);
    WorkerEnlisted(Next(FREE, s, SECOND));
    SecondClaimed(Next(FREE, Next(FREE, s, SECOND), LATE[1]));
    CountThree(FREE, s, LATE[0], LATE[1], LATE[2], 5, []);
  }

  lemma {:induction false} CountThree(cfg: Config, s: Sys, x: Step, y: Step, z: Step, b: BuildId, pool: seq<string>)
    ensures var s1 := Next(cfg, s, x);
            var s2 := Next(cfg, s1, y);
            && PassCount(cfg, s, [x, y, z], b, pool)
               == (if Passes(cfg, s, x, b, pool) then 1 else 0) + (if Passes(cfg, s1, y, b, pool) then 1 else 0)
                  + (if Passes(cfg, s2, z, b, pool) then 1 else 0)
            && TieCount(cfg, s, [x, y, z], b, pool)
               == |TieOf(cfg, s, x, b, pool)| + |TieOf(cfg, s1, y, b, pool)| + |TieOf(cfg, s2, z, b, pool)|
  {
    hide Next, Passes, TieOf;
    assert [x, y, z][..2] == [x, y] && [x, y][..1] == [x] && [x][..0] == [];
    assert Run(cfg, s, []) == s && Run(cfg, s, [x]) == Next(cfg, s, x);
    assert Run(cfg, s, [x, y]) == Next(cfg, Run(cfg, s, [x]), y);
    assert PassCount(cfg, s, [], b, pool) == 0 && TieCount(cfg, s, [], b, pool) == 0;
    assert PassCount(cfg, s, [x, y], b, pool) == PassCount(cfg, s, [x], b, pool) + if Passes(cfg, Run(cfg, s, [x]), y, b, pool) then 1 else 0;
    assert TieCount(cfg, s, [x, y], b, pool) == TieCount(cfg, s, [x], b, pool) + |TieOf(cfg, Run(cfg, s, [x]), y, b, pool)|;
  }

  lemma KeepsAge(cfg: Config, s: Sys, step: Step, b: BuildId)
    requires b in s.db.builds
    ensures NextRow(cfg, s, step, b).createdAt == s.db.builds[b].createdAt
  {
    hide RunningOf, S.NextBuild;
  }
}
