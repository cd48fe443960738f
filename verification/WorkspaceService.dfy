/** internal/server/workspace/service.go, statement by statement, against its specification. */
module WorkspaceService {
  import opened Wrappers
  import opened Tables
  import opened Database
  import opened Text
  import W = Workspaces

  // One attempt's random name and build identifier, and the clock when it ran.
  datatype Draw = Draw(w: WorkspaceId, b: BuildId, now: Time)

  const ATTEMPTS: nat := 20
  const MAX_NAME: nat := 120
  const MAX_KEY: nat := 200

  /** The first attempt that is not refused for a taken identifier decides. */
  function CreateRetrying(cfg: Config, db: Db, request: W.Request, draws: seq<Draw>): Txn<W.Created> {
    if draws == [] then RolledBack(NamesExhausted)
    else
      var txn := W.Create(cfg, db, request, draws[0].w, draws[0].b, draws[0].now);
      if txn == RolledBack(DuplicatedKey) then CreateRetrying(cfg, db, request, draws[1..]) else txn
  }

  function KeyedRetrying(cfg: Config, db: Db, request: W.Request, key: string, hash: Secret, draws: seq<Draw>): Txn<W.Created> {
    if draws == [] then RolledBack(RetryLimit)
    else
      var txn := W.CreateKeyed(cfg, db, request, key, hash, draws[0].w, draws[0].b, draws[0].now);
      if txn == RolledBack(DuplicatedKey) then KeyedRetrying(cfg, db, request, key, hash, draws[1..]) else txn
  }

  function CreateSpec(cfg: Config, db: Db, request: W.Request, draws: seq<Draw>): Txn<W.Created> {
    if ByteLength(request.name) > MAX_NAME then RolledBack(NameTooLong) else CreateRetrying(cfg, db, request, draws)
  }

  function CreateIdempotentSpec(cfg: Config, db: Db, request: W.Request, key: string, hash: Secret, draws: seq<Draw>): Txn<W.Created> {
    if key == "" then CreateSpec(cfg, db, request, draws)
    else if ByteLength(key) > MAX_KEY then RolledBack(KeyTooLong)
    else KeyedRetrying(cfg, db, request, key, hash, draws)
  }

  // ---- stopping idle workspaces --------------------------------------------------

  const IDLE_LIMIT: nat := 100

  predicate IdleRow(row: Workspace, before: Time) {
    && row.desired == Desired.Running
    && (row.observed == Observed.Running || row.observed == Observed.Degraded)
    && row.deletedAt.None?
    && row.lastAccess < before
  }

  /** The idle workspaces, longest untouched first, at most a hundred of them. */
  ghost predicate IdleList(db: Db, before: Time, ids: seq<WorkspaceId>) {
    && |ids| <= IDLE_LIMIT
    && (forall i :: 0 <= i < |ids| ==> ids[i] in db.workspaces && IdleRow(db.workspaces[ids[i]], before))
    && (forall i, j :: 0 <= i < j < |ids| ==>
          ids[i] != ids[j] && db.workspaces[ids[i]].lastAccess <= db.workspaces[ids[j]].lastAccess)
    && (forall w :: w in db.workspaces && IdleRow(db.workspaces[w], before) && w !in ids ==>
          |ids| == IDLE_LIMIT && forall i :: 0 <= i < |ids| ==> db.workspaces[ids[i]].lastAccess <= db.workspaces[w].lastAccess)
  }

  /** One stop after the other, each its own transaction; only an unexpected error ends the loop. */
  function StopEach(cfg: Config, db: Db, owners: map<WorkspaceId, Workspace>, ids: seq<WorkspaceId>, draws: seq<Draw>): (Db, Option<Error>)
    requires |draws| >= |ids|
    requires forall i :: 0 <= i < |ids| ==> ids[i] in owners
    decreases |ids|
  {
    if ids == [] then (db, None)
    else
      var txn := W.Transit(cfg, db, owners[ids[0]].owner, ids[0], Stop, draws[0].b, draws[0].now);
      if txn.RolledBack? && txn.error != NotFound && txn.error != ActiveBuild then (db, Some(txn.error))
      else StopEach(cfg, txn.Or(db), owners, ids[1..], draws[1..])
  }

  // ---- usage ----------------------------------------------------------------------------

  datatype UsageRow = UsageRow(template: string, workspaces: nat, running: nat, limits: Limits)

  function UsageOf(cfg: Config, db: Db, owner: OwnerId, template: string): UsageRow {
    UsageRow(template, |W.Undeleted(db, owner, template)|, |W.WantedRunning(db, owner, template)|, cfg.Limit(template))
  }

  /** One row for every configured or used template, in strictly ascending order, with the exact counts. */
  ghost predicate UsageReport(cfg: Config, db: Db, owner: OwnerId, rows: seq<UsageRow>) {
    && (forall i :: 0 <= i < |rows| ==> rows[i] == UsageOf(cfg, db, owner, rows[i].template))
    && (forall i, j :: 0 <= i < j < |rows| ==> Less(rows[i].template, rows[j].template))
    && (forall t :: (exists i :: 0 <= i < |rows| && rows[i].template == t)
                    <==> t in cfg.limits || W.Undeleted(db, owner, t) != {})
  }

  class Service {
    const store: Store
    const cfg: Config

    constructor (store: Store, cfg: Config)
      ensures this.store == store && this.cfg == cfg
    {
      this.store, this.cfg := store, cfg;
    }

    method CheckCreateQuota(owner: OwnerId, template: string) returns (r: Option<Error>)
      ensures r == W.CheckCreateQuota(cfg, store.View(), owner, template)
    {
      var limit := cfg.Limit(template);
      var count := |W.Undeleted(store.View(), owner, template)|;
      if limit.maxWorkspaces > 0 && count >= limit.maxWorkspaces {
        return Some(WorkspaceQuota);
      }
      var running := |W.WantedRunning(store.View(), owner, template)|;
      if limit.maxRunning > 0 && running >= limit.maxRunning {
        return Some(RunningQuota);
      }
      return None;
    }

    method InsertBuild(b: BuildId, row: Build) returns (ok: bool)
      modifies store`builds
      ensures ok <==> !old(W.BuildClashes(store.View(), b, row))
      ensures store.builds == if ok then old(store.builds)[b := row] else old(store.builds)
    {
      ok := !W.BuildClashes(store.View(), b, row);
      if ok {
        store.builds := store.builds[b := row];
      }
    }

    /** Runs inside the caller's transaction; an error leaves the rollback to the caller. */
    method CreateInTx(request: W.Request, draw: Draw) returns (r: Answer<W.Created>)
      modifies store
      ensures var txn := W.CreateInTx(old(store.View()), request, draw.w, draw.b, draw.now);
              r == Reply(txn) && (txn.Committed? ==> store.View() == txn.db)
    {
      if W.BadRepository(request) {
        return Err(InvalidRepository);
      }
      if draw.w in store.workspaces {
        return Err(DuplicatedKey);
      }
      store.workspaces := store.workspaces[draw.w := W.NewWorkspace(request, draw.now)];
      var ok := InsertBuild(draw.b, W.QueuedBuild(draw.w, 1, Start, request.template, draw.now));
      if !ok {
        return Err(DuplicatedKey);
      }
      return Ok(W.Created(draw.w, draw.b, true));
    }

    /** One transaction of create. */
    method Attempt(request: W.Request, draw: Draw) returns (r: Answer<W.Created>)
      modifies store
      ensures var txn := W.Create(cfg, old(store.View()), request, draw.w, draw.b, draw.now);
              r == Reply(txn) && store.View() == txn.Or(old(store.View()))
    {
      var began := store.View();
      var quota := CheckCreateQuota(request.owner, request.template);
      if quota.Some? {
        return Err(quota.value);
      }
      r := CreateInTx(request, draw);
      if r.Err? {
        store.Rollback(began);
      }
    }

    /** draws holds what each of the twenty attempts would draw. */
    method Create(request: W.Request, draws: seq<Draw>) returns (r: Answer<W.Created>)
      requires |draws| == ATTEMPTS
      modifies store
      ensures var txn := CreateSpec(cfg, old(store.View()), request, draws);
              r == Reply(txn) && store.View() == txn.Or(old(store.View()))
    {
      if ByteLength(request.name) > MAX_NAME {
        return Err(NameTooLong);
      }
      for i := 0 to ATTEMPTS
        invariant store.View() == old(store.View())
        invariant CreateRetrying(cfg, old(store.View()), request, draws)
               == CreateRetrying(cfg, old(store.View()), request, draws[i..])
      {
        r := Attempt(request, draws[i]);
        if r != Err(DuplicatedKey) {
          return;
        }
      }
      return Err(NamesExhausted);
    }

    /** One transaction of CreateRepositoryIdempotent. */
    method AttemptKeyed(request: W.Request, key: string, hash: Secret, draw: Draw) returns (r: Answer<W.Created>)
      modifies store
      ensures var txn := W.CreateKeyed(cfg, old(store.View()), request, key, hash, draw.w, draw.b, draw.now);
              r == Reply(txn) && store.View() == txn.Or(old(store.View()))
    {
      hide W.FirstBuild, W.NewWorkspace, W.QueuedBuild, W.BadRepository;
      var began := store.View();
      var id := (request.owner, key);
      if id in store.keys && store.keys[id].expiresAt <= draw.now {
        store.keys := store.keys - {id};
      }
      if id in store.keys && store.keys[id].expiresAt > draw.now {
        var existing := store.keys[id];
        if existing.hash != hash {
          return Err(KeyReused);
        }
        if !W.Visible(store.View(), existing.workspace, request.owner) {
          return Err(NotFound);
        }
        var build := W.FirstBuild(store.View(), existing.workspace);
        if build.None? {
          return Err(NotFound);
        }
        return Ok(W.Created(existing.workspace, build.value, false));
      }
      var quota := CheckCreateQuota(request.owner, request.template);
      if quota.Some? {
        store.Rollback(began);
        return Err(quota.value);
      }
      r := CreateInTx(request, draw);
      if r.Err? {
        store.Rollback(began);
      } else {
        store.keys := store.keys[id := KeyRow(hash, draw.w, draw.now + KEY_TIME)];
      }
    }

    method CreateRepositoryIdempotent(request: W.Request, key: string, hash: Secret, draws: seq<Draw>) returns (r: Answer<W.Created>)
      requires |draws| == ATTEMPTS
      modifies store
      ensures var txn := CreateIdempotentSpec(cfg, old(store.View()), request, key, hash, draws);
              r == Reply(txn) && store.View() == txn.Or(old(store.View()))
    {
      if key == "" {
        r := Create(request, draws);
        return;
      }
      if ByteLength(key) > MAX_KEY {
        return Err(KeyTooLong);
      }
      for i := 0 to ATTEMPTS
        invariant store.View() == old(store.View())
        invariant KeyedRetrying(cfg, old(store.View()), request, key, hash, draws)
               == KeyedRetrying(cfg, old(store.View()), request, key, hash, draws[i..])
      {
        r := AttemptKeyed(request, key, hash, draws[i]);
        if r != Err(DuplicatedKey) {
          return;
        }
      }
      return Err(RetryLimit);
    }

    method Transition(owner: OwnerId, w: WorkspaceId, transition: Transition, b: BuildId, now: Time) returns (r: Answer<BuildId>)
      modifies store
      ensures var txn := W.Transit(cfg, old(store.View()), owner, w, transition, b, now);
              r == Reply(txn) && store.View() == txn.Or(old(store.View()))
    {
      var began := store.View();
      if !W.Visible(began, w, owner) {
        return Err(NotFound);
      }
      var row := store.workspaces[w];
      if transition == Start {
        var limit := cfg.Limit(row.template);
        if limit.maxRunning != 0 && |W.WantedRunning(began, owner, row.template) - {w}| >= limit.maxRunning {
          return Err(RunningQuota);
        }
      }
      if W.HasActiveBuild(began, w) {
        return Err(ActiveBuild);
      }
      var updated := row.(desired := Desired.Running, observed := Observed.Starting);
      if transition == Stop {
        updated := row.(desired := Desired.Stopped, observed := Observed.Stopping);
      }
      if transition == Delete {
        updated := row.(desired := Desired.Deleted, observed := Observed.Deleting);
      }
      if transition == Start {
        updated := updated.(lastAccess := now);
      }
      store.workspaces := store.workspaces[w := updated];
      var ok := InsertBuild(b, W.QueuedBuild(w, W.NextSequence(began, w), transition, row.template, now));
      if !ok {
        store.Rollback(began);
        return Err(DuplicatedKey);
      }
      return Ok(b);
    }

    method Touch(owner: OwnerId, w: WorkspaceId, now: Time) returns (r: Answer<()>)
      modifies store`workspaces
      ensures var txn := W.Touch(old(store.View()), owner, w, now);
              r == Reply(txn) && store.View() == txn.Or(old(store.View()))
    {
      if !W.Visible(store.View(), w, owner) {
        return Err(NotFound);
      }
      store.workspaces := store.workspaces[w := store.workspaces[w].(lastAccess := now)];
      return Ok(());
    }

    /** SELECT ... ORDER BY last_access_at LIMIT 100. */
    method IdleCandidates(before: Time) returns (ids: seq<WorkspaceId>)
      ensures IdleList(store.View(), before, ids)
    {
      var left := set w | w in store.workspaces && IdleRow(store.workspaces[w], before);
      ghost var all := left;
      ids := [];
      while left != {} && |ids| < IDLE_LIMIT
        invariant left == set w | w in all && w !in ids
        invariant |ids| <= IDLE_LIMIT
        invariant forall i :: 0 <= i < |ids| ==> ids[i] in all
        invariant forall i, j :: 0 <= i < j < |ids| ==>
                    ids[i] != ids[j] && store.workspaces[ids[i]].lastAccess <= store.workspaces[ids[j]].lastAccess
        invariant forall i, w :: 0 <= i < |ids| && w in left ==> store.workspaces[ids[i]].lastAccess <= store.workspaces[w].lastAccess
        decreases left
      {
        var rank := map w | w in left :: store.workspaces[w].lastAccess;
        assert forall w :: w in left ==> w in rank;
        var next := First(rank).value;
        ids := ids + [next];
        left := left - {next};
      }
      assert forall w :: w in store.workspaces && IdleRow(store.workspaces[w], before) && w !in ids ==> w in left;
    }

    /** draws holds a build identifier and a clock reading for each candidate. */
    method StopIdle(before: Time, draws: seq<Draw>) returns (ids: seq<WorkspaceId>, error: Option<Error>)
      requires |draws| >= IDLE_LIMIT
      modifies store
      ensures IdleList(old(store.View()), before, ids)
      ensures (store.View(), error) == StopEach(cfg, old(store.View()), old(store.View()).workspaces, ids, draws)
    {
      ids := IdleCandidates(before);
      var owners := store.workspaces;
      for i := 0 to |ids|
        invariant StopEach(cfg, old(store.View()), owners, ids, draws)
               == StopEach(cfg, store.View(), owners, ids[i..], draws[i..])
      {
        var r := Transition(owners[ids[i]].owner, ids[i], Stop, draws[i].b, draws[i].now);
        if r.Err? && r.error != NotFound {
          if r.error == ActiveBuild {
            continue;
          }
          return ids, Some(r.error);
        }
      }
      return ids, None;
    }

    /** The configured templates, then the used ones that are not configured. */
    method Templates(owner: OwnerId) returns (names: seq<string>)
      ensures Distinct(names)
      ensures forall t :: t in names <==> t in cfg.limits || W.Undeleted(store.View(), owner, t) != {}
    {
      var used := set w | w in store.workspaces && store.workspaces[w].owner == owner && store.workspaces[w].deletedAt.None?
                      :: store.workspaces[w].template;
      names := [];
      var left := cfg.limits.Keys;
      while left != {}
        invariant left <= cfg.limits.Keys
        invariant forall t :: t in names <==> t in cfg.limits && t !in left
        invariant Distinct(names)
      {
        var t :| t in left;
        names, left := names + [t], left - {t};
      }
      left := used;
      while left != {}
        invariant left <= used
        invariant forall t :: t in names <==> t in cfg.limits || (t in used && t !in left)
        invariant Distinct(names)
      {
        var t :| t in left;
        if t !in cfg.limits {
          names := names + [t];
        }
        left := left - {t};
      }
      forall t ensures t in used <==> W.Undeleted(store.View(), owner, t) != {} {
        if t in used {
          var w :| w in store.workspaces && store.workspaces[w].owner == owner && store.workspaces[w].deletedAt.None? && store.workspaces[w].template == t;
          assert w in W.Undeleted(store.View(), owner, t);
        }
      }
    }

    method Usage(owner: OwnerId) returns (result: seq<UsageRow>)
      ensures UsageReport(cfg, store.View(), owner, result)
    {
      var names := Templates(owner);
      SortedStrictly(names);
      names := Sorted(names);
      result := [];
      for i := 0 to |names|
        invariant |result| == i
        invariant forall j :: 0 <= j < i ==> result[j] == UsageOf(cfg, store.View(), owner, names[j])
      {
        var row := UsageRow(names[i], |W.Undeleted(store.View(), owner, names[i])|,
                            |W.WantedRunning(store.View(), owner, names[i])|, cfg.Limit(names[i]));
        result := result + [row];
      }
      forall t ensures (exists i :: 0 <= i < |result| && result[i].template == t) <==> t in cfg.limits || W.Undeleted(store.View(), owner, t) != {} {
        if t in names {
          var i :| 0 <= i < |names| && names[i] == t;
          assert result[i].template == t;
        }
      }
    }
  }
}
