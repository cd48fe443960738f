/** What the service's loops achieve on consistent tables. */
module ServiceFacts {
  import opened Wrappers
  import opened Tables
  import opened System
  import opened Lifecycle
  import opened Idempotency
  import opened WorkspaceService
  import W = Workspaces

  /** A committed stop of w touches no other workspace. */
  lemma StopStaysLocal(cfg: Config, db: Db, owner: OwnerId, w: WorkspaceId, b: BuildId, now: Time)
    requires W.Transit(cfg, db, owner, w, Stop, b, now).Committed?
    ensures var after := W.Transit(cfg, db, owner, w, Stop, b, now).db;
            && w in after.workspaces && after.workspaces == db.workspaces[w := after.workspaces[w]]
            && after.builds.Keys == db.builds.Keys + {b}
            && forall v :: v != w ==> W.HasActiveBuild(after, v) == W.HasActiveBuild(db, v)
  {
    var after := W.Transit(cfg, db, owner, w, Stop, b, now).db;
    forall v | v != w ensures W.HasActiveBuild(after, v) == W.HasActiveBuild(db, v) {
      assert BuildsOf(after, v) == BuildsOf(db, v);
    }
  }

  /** Stopping w commits exactly when w has no active build, and then asks for it to be stopped. */
  lemma StopCommits(cfg: Config, db: Db, history: History, w: WorkspaceId, b: BuildId, now: Time)
    requires Consistent(db, history) && w in db.workspaces && db.workspaces[w].deletedAt.None? && b !in db.builds
    ensures var txn := W.Transit(cfg, db, db.workspaces[w].owner, w, Stop, b, now);
            && (W.HasActiveBuild(db, w) ==> txn == RolledBack(ActiveBuild))
            && (!W.HasActiveBuild(db, w) ==>
                  && txn.Committed? && w in txn.db.workspaces
                  && txn.db.workspaces[w] == Stopping(db.workspaces[w])
                  && W.HasActiveBuild(txn.db, w))
  {
    if !W.HasActiveBuild(db, w) {
      var row := W.QueuedBuild(w, W.NextSequence(db, w), Stop, db.workspaces[w].template, now);
      OnlyIdentifiersClash(db, history, w, b, row);
      var txn := W.Transit(cfg, db, db.workspaces[w].owner, w, Stop, b, now);
      assert W.InsertBuild(db.(workspaces := db.workspaces[w := Stopping(db.workspaces[w])]), b, row) == txn;
      assert b in BuildsOf(txn.db, w);
    }
  }

  function Stopping(row: Workspace): Workspace {
    row.(desired := Desired.Stopped, observed := Observed.Stopping)
  }

  /** Given fresh identifiers, every idle workspace without an active build is stopped, and nothing else changes. */
  lemma {:induction false} IdleWorkspacesStop(cfg: Config, db: Db, history: History, owners: map<WorkspaceId, Workspace>,
                                             ids: seq<WorkspaceId>, draws: seq<Draw>)
    requires Consistent(db, history) && |draws| >= |ids|
    requires forall i :: 0 <= i < |ids| ==>
               && ids[i] in owners && ids[i] in db.workspaces
               && owners[ids[i]].owner == db.workspaces[ids[i]].owner && db.workspaces[ids[i]].deletedAt.None?
               && draws[i].b !in db.builds
    requires forall i, j :: 0 <= i < j < |ids| ==> ids[i] != ids[j] && draws[i].b != draws[j].b
    ensures var (after, error) := StopEach(cfg, db, owners, ids, draws);
            && error == None
            && after.workspaces.Keys == db.workspaces.Keys
            && forall w :: w in db.workspaces ==>
                 after.workspaces[w] == if w in ids && !W.HasActiveBuild(db, w) then Stopping(db.workspaces[w]) else db.workspaces[w]
    decreases |ids|
  {
    hide Consistent, W.Transit, W.HasActiveBuild;
    if ids != [] {
      var w, draw := ids[0], draws[0];
      StopCommits(cfg, db, history, w, draw.b, draw.now);
      if W.HasActiveBuild(db, w) {
        IdleWorkspacesStop(cfg, db, history, owners, ids[1..], draws[1..]);
      } else {
        var next := W.Transit(cfg, db, owners[w].owner, w, Stop, draw.b, draw.now).db;
        TransitKeeps(cfg, db, history, owners[w].owner, w, Stop, draw.b, draw.now);
        StopStaysLocal(cfg, db, owners[w].owner, w, draw.b, draw.now);
        forall i | 0 <= i < |ids[1..]|
          ensures ids[1..][i] != w && ids[1..][i] in next.workspaces
          ensures next.workspaces[ids[1..][i]] == db.workspaces[ids[1..][i]] && draws[1..][i].b !in next.builds
        {
          assert ids[1..][i] == ids[i + 1] && draws[1..][i] == draws[i + 1];
        }
        IdleWorkspacesStop(cfg, next, history[w := history[w] + [draw.b]], owners, ids[1..], draws[1..]);
      }
    }
  }

  // ---- retries ----------------------------------------------------------------------------------

  predicate Taken(db: Db, draw: Draw) {
    draw.w in db.workspaces || draw.b in db.builds
  }

  /** An attempt is refused for a duplicate exactly when it drew something already in use. */
  lemma DuplicateMeansTaken(cfg: Config, db: Db, history: History, request: W.Request, draw: Draw)
    requires Consistent(db, history)
    requires W.CheckCreateQuota(cfg, db, request.owner, request.template).None? && !W.BadRepository(request)
    ensures W.Create(cfg, db, request, draw.w, draw.b, draw.now) == RolledBack(DuplicatedKey) <==> Taken(db, draw)
  {
    if draw.w !in db.workspaces {
      forall c | c in db.builds ensures db.builds[c].workspace != draw.w {
        assert Disciplined(db.builds[c], db.workspaces, history);
      }
    }
  }

  /** Creation gives up only when all twenty attempts drew something already in use. */
  lemma {:induction false} ExhaustedMeansTaken(cfg: Config, db: Db, history: History, request: W.Request, draws: seq<Draw>)
    requires Consistent(db, history)
    requires W.CheckCreateQuota(cfg, db, request.owner, request.template).None? && !W.BadRepository(request)
    ensures CreateRetrying(cfg, db, request, draws) == RolledBack(NamesExhausted)
            <==> forall i :: 0 <= i < |draws| ==> Taken(db, draws[i])
  {
    hide Consistent, W.CheckCreateQuota, Taken;
    if draws != [] {
      DuplicateMeansTaken(cfg, db, history, request, draws[0]);
      ExhaustedMeansTaken(cfg, db, history, request, draws[1..]);
      assert forall i :: 1 <= i < |draws| ==> draws[i] == draws[1..][i - 1];
      NeverExhausted(cfg, db, request, draws[0]);
      hide W.Create;
    }
  }

  lemma NeverExhausted(cfg: Config, db: Db, request: W.Request, draw: Draw)
    ensures W.Create(cfg, db, request, draw.w, draw.b, draw.now) != RolledBack(NamesExhausted)
  {}

  /** The first draw that is not in use makes the workspace. */
  lemma {:induction false} FirstFreeDrawCreates(cfg: Config, db: Db, history: History, request: W.Request, draws: seq<Draw>, i: nat)
    requires Consistent(db, history) && i < |draws|
    requires W.CheckCreateQuota(cfg, db, request.owner, request.template).None? && !W.BadRepository(request)
    requires !Taken(db, draws[i]) && forall j :: 0 <= j < i ==> Taken(db, draws[j])
    ensures CreateRetrying(cfg, db, request, draws) == W.Create(cfg, db, request, draws[i].w, draws[i].b, draws[i].now)
    ensures CreateRetrying(cfg, db, request, draws).Committed?
    decreases i
  {
    hide Consistent, W.CheckCreateQuota, Taken;
    DuplicateMeansTaken(cfg, db, history, request, draws[0]);
    if i > 0 {
      FirstFreeDrawCreates(cfg, db, history, request, draws[1..], i - 1);
    } else {
      FreeDrawCommits(cfg, db, request, draws[0]);
    }
    hide W.Create;
  }

  lemma FreeDrawCommits(cfg: Config, db: Db, request: W.Request, draw: Draw)
    requires W.CheckCreateQuota(cfg, db, request.owner, request.template).None? && !W.BadRepository(request)
    requires W.Create(cfg, db, request, draw.w, draw.b, draw.now) != RolledBack(DuplicatedKey)
    ensures W.Create(cfg, db, request, draw.w, draw.b, draw.now).Committed?
  {
    hide W.CheckCreateQuota;
  }

  /** No attempt finds a live key. */
  predicate Keyless(db: Db, owner: OwnerId, key: string, draws: seq<Draw>) {
    forall i :: 0 <= i < |draws| && (owner, key) in db.keys ==> db.keys[(owner, key)].expiresAt <= draws[i].now
  }

  /** Without a live key a keyed creation does in each attempt what a plain one does. */
  lemma {:induction false} KeyedTakesSameDraw(cfg: Config, db: Db, request: W.Request, key: string, hash: Secret, draws: seq<Draw>)
    requires Keyless(db, request.owner, key, draws)
    ensures var keyed, plain := KeyedRetrying(cfg, db, request, key, hash, draws), CreateRetrying(cfg, db, request, draws);
            && (keyed.Committed? <==> plain.Committed?)
            && (keyed.Committed? ==> keyed.value == plain.value && keyed.db == plain.db.(keys := keyed.db.keys))
  {
    if draws != [] {
      var draw := draws[0];
      var plain := W.Create(cfg, db, request, draw.w, draw.b, draw.now);
      UnknownKeyCreates(cfg, db, request, key, hash, draw.w, draw.b, draw.now);
      assert Keyless(db, request.owner, key, draws[1..]) by {
        assert forall i :: 0 <= i < |draws[1..]| ==> draws[1..][i] == draws[i + 1];
      }
      KeyedTakesSameDraw(cfg, db, request, key, hash, draws[1..]);
      hide W.Create, W.CreateKeyed;
    }
  }

  /** A live key decides at the first attempt. */
  lemma {:induction false} LiveKeyDecidesAtOnce(cfg: Config, db: Db, request: W.Request, key: string, hash: Secret, draws: seq<Draw>)
    requires draws != [] && (request.owner, key) in db.keys && draws[0].now < db.keys[(request.owner, key)].expiresAt
    ensures KeyedRetrying(cfg, db, request, key, hash, draws) == W.Replay(db, db.keys[(request.owner, key)], request.owner, hash)
  {
    hide W.FirstBuild;
  }
}
