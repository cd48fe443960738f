/** Per owner and template, the configured limits bound what exists and what is wanted running. */
module Quotas {
  import opened Tables
  import opened System
  import opened Lifecycle
  import opened Counters
  import W = Workspaces
  import S = Scheduler

  predicate WithinLimits(cfg: Config, db: Db, owner: OwnerId, template: string) {
    && (cfg.Limit(template).maxWorkspaces > 0 ==> |W.Undeleted(db, owner, template)| <= cfg.Limit(template).maxWorkspaces)
    && (cfg.Limit(template).maxRunning > 0 ==> |W.WantedRunning(db, owner, template)| <= cfg.Limit(template).maxRunning)
  }

  ghost predicate QuotasHold(cfg: Config, db: Db) {
    forall owner, template :: WithinLimits(cfg, db, owner, template)
  }

  // ---- steps that claim nothing new ------------------------------------------------

  predicate Slackens(was: Workspace, next: Workspace) {
    && next.owner == was.owner && next.template == was.template && next.desired == was.desired
    && (next.deletedAt.None? ==> was.deletedAt.None?)
  }

  ghost predicate AllSlacken(db: Db, after: Db) {
    && after.workspaces.Keys == db.workspaces.Keys
    && forall w :: w in db.workspaces ==> Slackens(db.workspaces[w], after.workspaces[w])
  }

  lemma SlackKeeps(cfg: Config, db: Db, after: Db, owner: OwnerId, template: string)
    requires WithinLimits(cfg, db, owner, template) && AllSlacken(db, after)
    ensures WithinLimits(cfg, after, owner, template)
  {
    SubsetSize(W.Undeleted(after, owner, template), W.Undeleted(db, owner, template));
    SubsetSize(W.WantedRunning(after, owner, template), W.WantedRunning(db, owner, template));
  }

  lemma CompleteSlackens(db: Db, b: BuildId, worker: WorkerId, secret: Secret, error: string, now: Time)
    ensures AllSlacken(db, S.Complete(db, b, worker, secret, error, now).Or(db))
  {}

  lemma ExpireSlackens(db: Db, now: Time)
    ensures AllSlacken(db, S.Expire(db, now))
  {}

  lemma ClaimSlackens(cfg: Config, s: Sys, step: Step)
    requires step.Claim?
    ensures AllSlacken(s.db, Apply(cfg, s, step).db)
  {
    hide S.Choose;
  }

  lemma RenewSlackens(cfg: Config, s: Sys, step: Step)
    requires step.Renew?
    ensures AllSlacken(s.db, Apply(cfg, s, step).db)
  {
    hide S.Holds;
  }

  lemma DriftSlackens(db: Db, after: Db)
    requires AllDrift(db, after)
    ensures AllSlacken(db, after)
  {
    forall w | w in db.workspaces ensures Slackens(db.workspaces[w], after.workspaces[w]) {
      assert Drifts(db.workspaces[w], after.workspaces[w]);
    }
  }

  lemma RestSlackens(cfg: Config, s: Sys, step: Step)
    requires !Adds(step)
    ensures AllSlacken(s.db, Apply(cfg, s, step).db)
  {
    hide AllSlacken, AllDrift, S.Complete, S.Expire;
    match step
    case Claim(_, _, _, _, _, _) => ClaimSlackens(cfg, s, step);
    case Renew(_, _, _, _, _, _) => RenewSlackens(cfg, s, step);
    case Complete(b, worker, secret, error, now) => CompleteSlackens(s.db, b, worker, secret, error, now);
    case Expire(now) => ExpireSlackens(s.db, now);
    case _ =>
      hide Apply;
      OtherStepsDrift(cfg, s, step);
      DriftSlackens(s.db, Apply(cfg, s, step).db);
  }

  // ---- steps that are checked ---------------------------------------------------------

  function Mine(row: Workspace, w: WorkspaceId, owner: OwnerId, template: string): set<WorkspaceId> {
    if row.owner == owner && row.template == template then {w} else {}
  }

  lemma InsertedWorkspace(db: Db, after: Db, w: WorkspaceId, row: Workspace, owner: OwnerId, template: string)
    requires w !in db.workspaces && after.workspaces == db.workspaces[w := row]
    requires row.deletedAt.None? && row.desired == Desired.Running
    ensures W.Undeleted(after, owner, template) == W.Undeleted(db, owner, template) + Mine(row, w, owner, template)
    ensures W.WantedRunning(after, owner, template) == W.WantedRunning(db, owner, template) + Mine(row, w, owner, template)
  {}

  lemma CreateStays(cfg: Config, db: Db, request: W.Request, w: WorkspaceId, b: BuildId, now: Time,
                    owner: OwnerId, template: string)
    requires WithinLimits(cfg, db, owner, template)
    ensures WithinLimits(cfg, W.Create(cfg, db, request, w, b, now).Or(db), owner, template)
  {
    hide W.Undeleted, W.WantedRunning;
    var txn := W.Create(cfg, db, request, w, b, now);
    if txn.Committed? {
      InsertedWorkspace(db, txn.db, w, W.NewWorkspace(request, now), owner, template);
    }
  }

  lemma UpdatedWorkspace(db: Db, after: Db, w: WorkspaceId, row: Workspace, owner: OwnerId, template: string)
    requires w in db.workspaces && after.workspaces == db.workspaces[w := row]
    requires row.owner == db.workspaces[w].owner && row.template == db.workspaces[w].template
    requires row.deletedAt.None? && db.workspaces[w].deletedAt.None?
    ensures W.Undeleted(after, owner, template) == W.Undeleted(db, owner, template)
    ensures W.WantedRunning(after, owner, template)
         == W.WantedRunning(db, owner, template) - {w} + if row.desired == Desired.Running then Mine(row, w, owner, template) else {}
  {}

  lemma TransitStays(cfg: Config, db: Db, caller: OwnerId, w: WorkspaceId, transition: Transition, b: BuildId, now: Time,
                     owner: OwnerId, template: string)
    requires WithinLimits(cfg, db, owner, template)
    ensures WithinLimits(cfg, W.Transit(cfg, db, caller, w, transition, b, now).Or(db), owner, template)
  {
    hide W.Undeleted, W.WantedRunning;
    var txn := W.Transit(cfg, db, caller, w, transition, b, now);
    if txn.Committed? {
      UpdatedWorkspace(db, txn.db, w, txn.db.workspaces[w], owner, template);
      SubsetSize(W.WantedRunning(db, owner, template) - {w}, W.WantedRunning(db, owner, template));
    }
  }

  lemma SameWorkspacesStay(cfg: Config, db: Db, after: Db, owner: OwnerId, template: string)
    requires WithinLimits(cfg, db, owner, template) && after.workspaces == db.workspaces
    ensures WithinLimits(cfg, after, owner, template)
  {
    assert W.Undeleted(after, owner, template) == W.Undeleted(db, owner, template);
    assert W.WantedRunning(after, owner, template) == W.WantedRunning(db, owner, template);
  }

  lemma CreateKeyedStays(cfg: Config, db: Db, request: W.Request, key: string, hash: Secret, w: WorkspaceId, b: BuildId,
                         now: Time, owner: OwnerId, template: string)
    requires WithinLimits(cfg, db, owner, template)
    ensures WithinLimits(cfg, W.CreateKeyed(cfg, db, request, key, hash, w, b, now).Or(db), owner, template)
  {
    hide WithinLimits;
    if !W.LiveKey(db, request.owner, key, now) {
      CreateStays(cfg, db, request, w, b, now, owner, template);
      SameWorkspacesStay(cfg, W.Create(cfg, db, request, w, b, now).Or(db),
                         W.CreateKeyed(cfg, db, request, key, hash, w, b, now).Or(db), owner, template);
    }
  }

  lemma StepKeepsQuotas(cfg: Config, s: Sys, step: Step)
    requires QuotasHold(cfg, s.db)
    ensures QuotasHold(cfg, Next(cfg, s, step).db)
  {
    hide WithinLimits, W.Create, W.CreateKeyed, W.Transit;
    forall owner, template ensures WithinLimits(cfg, Next(cfg, s, step).db, owner, template) {
      assert WithinLimits(cfg, s.db, owner, template);
      if Happens(s, step) {
        match step
        case Create(request, w, b, now) => CreateStays(cfg, s.db, request, w, b, now, owner, template);
        case CreateKeyed(request, key, hash, w, b, now) => CreateKeyedStays(cfg, s.db, request, key, hash, w, b, now, owner, template);
        case Transit(caller, w, transition, b, now) => TransitStays(cfg, s.db, caller, w, transition, b, now, owner, template);
        case _ =>
          RestSlackens(cfg, s.(clock := step.now), step);
          SlackKeeps(cfg, s.db, Next(cfg, s, step).db, owner, template);
      }
    }
  }
}
