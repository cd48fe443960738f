/** Builds and workspaces stay consistent: what the newest build says about its workspace. */
module Lifecycle {
  import opened Tables
  import opened System
  import W = Workspaces
  import S = Scheduler
  import A = Agents

  type History = map<WorkspaceId, seq<BuildId>>

  /** history lists exactly the builds of each workspace, in sequence order from 1. */
  ghost predicate Numbered(db: Db, history: History) {
    && history.Keys == db.workspaces.Keys
    && (forall w :: w in history ==> |history[w]| >= 1)
    && (forall w, i :: w in history && 0 <= i < |history[w]| ==> Placed(db, history[w][i], w, i + 1))
    && (forall b :: b in db.builds ==> InPlace(db.builds[b], b, history))
  }

  predicate Placed(db: Db, b: BuildId, w: WorkspaceId, n: nat) {
    b in db.builds && db.builds[b].workspace == w && db.builds[b].sequence == n
  }

  predicate InPlace(row: Build, b: BuildId, history: History) {
    && row.workspace in history
    && 1 <= row.sequence <= |history[row.workspace]|
    && history[row.workspace][row.sequence - 1] == b
  }

  function Newest(history: History, w: WorkspaceId): BuildId
    requires w in history && |history[w]| >= 1
  {
    history[w][|history[w]| - 1]
  }

  /** What a workspace row must say when b is its newest build. */
  predicate Settled(row: Workspace, b: Build) {
    && row.template == b.template
    && row.desired == W.Target(b.transition)
    && (row.deletedAt.Some? <==> b.transition == Delete && b.status == BuildStatus.Succeeded)
    && match b.status
       case Queued => Underway(row, b)
       case Running => Underway(row, b)
       case Failed => row.observed == Observed.Failed
       case Succeeded =>
         row.observed == S.Outcome(b.transition, true) || (b.transition == Start && row.observed == Observed.Degraded)
  }

  predicate Underway(row: Workspace, b: Build) {
    match b.transition
    case Stop => row.observed == Observed.Stopping
    case Delete => row.observed == Observed.Deleting
    case Start =>
      if b.sequence == 1 then row.observed == Observed.Pending
      else row.observed in {Observed.Starting, Observed.Running, Observed.Degraded}
  }

  /** Only a claim leases a build, and only the newest build of a workspace is active. */
  predicate Disciplined(row: Build, workspaces: map<WorkspaceId, Workspace>, history: History) {
    && row.workspace in history
    && row.workspace in workspaces
    && row.template == workspaces[row.workspace].template
    && (row.status == BuildStatus.Queued <==> row.lease.None?)
    && (Active(row) ==> row.sequence == |history[row.workspace]|)
  }

  ghost predicate AllDisciplined(db: Db, history: History) {
    forall b :: b in db.builds ==> Disciplined(db.builds[b], db.workspaces, history)
  }

  predicate SettledAt(db: Db, history: History, w: WorkspaceId) {
    && w in history && |history[w]| >= 1 && w in db.workspaces
    && Newest(history, w) in db.builds
    && Settled(db.workspaces[w], db.builds[Newest(history, w)])
  }

  ghost predicate AllSettled(db: Db, history: History) {
    forall w :: w in history ==> SettledAt(db, history, w)
  }

  ghost predicate Consistent(db: Db, history: History) {
    Numbered(db, history) && AllDisciplined(db, history) && AllSettled(db, history)
  }

  lemma NewestIsThere(db: Db, history: History, w: WorkspaceId)
    requires Numbered(db, history) && w in history
    ensures Newest(history, w) in db.builds
    ensures db.builds[Newest(history, w)].workspace == w
    ensures db.builds[Newest(history, w)].sequence == |history[w]|
  {
    assert Placed(db, history[w][|history[w]| - 1], w, |history[w]|);
  }

  lemma ActiveIsNewest(db: Db, history: History, b: BuildId)
    requires Consistent(db, history) && b in db.builds && Active(db.builds[b])
    ensures db.builds[b].workspace in history && Newest(history, db.builds[b].workspace) == b
  {
    assert Disciplined(db.builds[b], db.workspaces, history) && InPlace(db.builds[b], b, history);
  }

  // ---- changes that leave the numbering alone -------------------------------

  predicate SameBuild(was: Build, next: Build) {
    && next.workspace == was.workspace && next.sequence == was.sequence
    && next.transition == was.transition && next.template == was.template && next.createdAt == was.createdAt
  }

  predicate SameWorkspace(was: Workspace, next: Workspace) {
    && next.owner == was.owner && next.template == was.template
    && next.repository == was.repository && next.displayName == was.displayName
  }

  /** A build closed or leased, without a finished or queued one becoming active again. */
  predicate Proceeds(was: Build, next: Build) {
    && SameBuild(was, next)
    && (next.status == BuildStatus.Queued <==> next.lease.None?)
    && (Active(next) ==> Active(was))
  }

  /** No row comes or goes, and no row changes what it is about. */
  ghost predicate SameRows(db: Db, after: Db) {
    && after.workspaces.Keys == db.workspaces.Keys
    && after.builds.Keys == db.builds.Keys
    && (forall w :: w in db.workspaces ==> SameWorkspace(db.workspaces[w], after.workspaces[w]))
    && (forall b :: b in db.builds ==> Proceeds(db.builds[b], after.builds[b]))
  }

  lemma SameRowsKeepNumbers(db: Db, after: Db, history: History)
    requires Numbered(db, history) && SameRows(db, after)
    ensures Numbered(after, history)
  {
    forall w, i | w in history && 0 <= i < |history[w]| ensures Placed(after, history[w][i], w, i + 1) {
      assert Placed(db, history[w][i], w, i + 1);
    }
    forall b | b in after.builds ensures InPlace(after.builds[b], b, history) {
      assert InPlace(db.builds[b], b, history);
    }
  }

  lemma SameRowsKeepDiscipline(db: Db, after: Db, history: History)
    requires AllDisciplined(db, history) && SameRows(db, after)
    ensures AllDisciplined(after, history)
  {
    forall b | b in after.builds ensures Disciplined(after.builds[b], after.workspaces, history) {
      assert Disciplined(db.builds[b], db.workspaces, history) && Proceeds(db.builds[b], after.builds[b]);
      assert SameWorkspace(db.workspaces[db.builds[b].workspace], after.workspaces[db.builds[b].workspace]);
    }
  }

  lemma UntouchedProceed(db: Db, history: History, b: BuildId)
    requires AllDisciplined(db, history) && b in db.builds
    ensures Proceeds(db.builds[b], db.builds[b])
  {
    assert Disciplined(db.builds[b], db.workspaces, history);
  }

  /** One build proceeds, and its workspace says what it should if that build is its newest. */
  predicate Updates(db: Db, after: Db, history: History, b: BuildId, row: Build, workspace: Workspace) {
    && b in db.builds && after.builds == db.builds[b := row] && Proceeds(db.builds[b], row)
    && row.workspace in db.workspaces && after.workspaces == db.workspaces[row.workspace := workspace]
    && SameWorkspace(db.workspaces[row.workspace], workspace)
    && if row.workspace in history && |history[row.workspace]| >= 1 && Newest(history, row.workspace) == b
       then Settled(workspace, row) else workspace == db.workspaces[row.workspace]
  }

  lemma UpdateKeepsRows(db: Db, after: Db, history: History, b: BuildId, row: Build, workspace: Workspace)
    requires AllDisciplined(db, history) && Updates(db, after, history, b, row, workspace)
    ensures SameRows(db, after)
  {
    forall c | c in db.builds ensures Proceeds(db.builds[c], after.builds[c]) {
      UntouchedProceed(db, history, c);
    }
  }

  lemma UpdateSettles(db: Db, after: Db, history: History, b: BuildId, row: Build, workspace: Workspace, w: WorkspaceId)
    requires Consistent(db, history) && w in history && Updates(db, after, history, b, row, workspace)
    ensures SettledAt(after, history, w)
  {
    assert SettledAt(db, history, w);
    NewestIsThere(db, history, w);
  }

  lemma UpdateKeeps(db: Db, after: Db, history: History, b: BuildId, row: Build, workspace: Workspace)
    requires Consistent(db, history) && Updates(db, after, history, b, row, workspace)
    ensures Consistent(after, history)
  {
    UpdateKeepsRows(db, after, history, b, row, workspace);
    SameRowsKeepNumbers(db, after, history);
    SameRowsKeepDiscipline(db, after, history);
    forall w | w in history ensures SettledAt(after, history, w) {
      UpdateSettles(db, after, history, b, row, workspace, w);
    }
  }

  // ---- new rows --------------------------------------------------------------

  predicate Idle(db: Db, w: WorkspaceId) {
    forall b :: b in db.builds && db.builds[b].workspace == w ==> !Active(db.builds[b])
  }

  /** A queued build of w joins the end of its history. */
  ghost predicate Appends(db: Db, after: Db, history: History, w: WorkspaceId, b: BuildId, row: Build, workspace: Workspace) {
    && b !in db.builds && after.builds == db.builds[b := row]
    && after.workspaces == db.workspaces[w := workspace]
    && (w in db.workspaces ==> workspace.template == db.workspaces[w].template)
    && Idle(db, w)
    && row.workspace == w && row.sequence == |Past(history, w)| + 1
    && row.status == BuildStatus.Queued && row.lease.None?
    && Settled(workspace, row)
  }

  lemma AppendKeepsNumbers(db: Db, after: Db, history: History, w: WorkspaceId, b: BuildId, row: Build, workspace: Workspace)
    requires Numbered(db, history)
    requires Appends(db, after, history, w, b, row, workspace)
    ensures Numbered(after, history[w := Past(history, w) + [b]])
  {
    var later := history[w := Past(history, w) + [b]];
    forall v, i | v in later && 0 <= i < |later[v]| ensures Placed(after, later[v][i], v, i + 1) {
      if v != w || i < |Past(history, w)| {
        assert Placed(db, history[v][i], v, i + 1);
      }
    }
    forall c | c in after.builds ensures InPlace(after.builds[c], c, later) {
      if c != b {
        assert InPlace(db.builds[c], c, history);
      }
    }
  }

  lemma AppendKeepsDiscipline(db: Db, after: Db, history: History, w: WorkspaceId, b: BuildId, row: Build, workspace: Workspace)
    requires AllDisciplined(db, history)
    requires Appends(db, after, history, w, b, row, workspace)
    ensures AllDisciplined(after, history[w := Past(history, w) + [b]])
  {
    var later := history[w := Past(history, w) + [b]];
    forall c | c in after.builds ensures Disciplined(after.builds[c], after.workspaces, later) {
      if c != b {
        assert Disciplined(db.builds[c], db.workspaces, history);
      }
    }
  }

  lemma AppendKeeps(db: Db, after: Db, history: History, w: WorkspaceId, b: BuildId, row: Build, workspace: Workspace)
    requires Consistent(db, history)
    requires Appends(db, after, history, w, b, row, workspace)
    ensures Consistent(after, history[w := Past(history, w) + [b]])
  {
    var later := history[w := Past(history, w) + [b]];
    AppendKeepsNumbers(db, after, history, w, b, row, workspace);
    AppendKeepsDiscipline(db, after, history, w, b, row, workspace);
    hide Numbered, AllDisciplined, SettledAt, Appends;
    forall v | v in later ensures SettledAt(after, later, v) {
      AppendSettles(db, after, history, w, b, row, workspace, v);
    }
  }

  lemma AppendSettles(db: Db, after: Db, history: History, w: WorkspaceId, b: BuildId, row: Build, workspace: Workspace, v: WorkspaceId)
    requires Consistent(db, history) && Appends(db, after, history, w, b, row, workspace)
    requires v in history || v == w
    ensures SettledAt(after, history[w := Past(history, w) + [b]], v)
  {
    if v != w {
      assert SettledAt(db, history, v);
      NewestIsThere(db, history, v);
    }
    hide Numbered, AllDisciplined, AllSettled, Settled;
  }

  lemma CreateInTxKeeps(db: Db, history: History, request: W.Request, w: WorkspaceId, b: BuildId, now: Time)
    requires Consistent(db, history)
    requires W.CreateInTx(db, request, w, b, now).Committed?
    ensures w !in history && b !in db.builds
    ensures Consistent(W.CreateInTx(db, request, w, b, now).db, history[w := [b]])
  {
    var after := W.CreateInTx(db, request, w, b, now).db;
    assert Idle(db, w) by {
      forall c | c in db.builds ensures db.builds[c].workspace != w {
        assert Disciplined(db.builds[c], db.workspaces, history);
      }
    }
    assert Past(history, w) + [b] == [b];
    AppendKeeps(db, after, history, w, b, W.QueuedBuild(w, 1, Start, request.template, now), W.NewWorkspace(request, now));
  }

  lemma NextSequenceIs(db: Db, history: History, w: WorkspaceId)
    requires Numbered(db, history) && w in history
    ensures W.NextSequence(db, w) == |history[w]| + 1
  {
    var numbers := W.Sequences(db, w);
    NewestIsThere(db, history, w);
    assert Newest(history, w) in BuildsOf(db, w);
    assert |history[w]| in numbers;
    forall n | n in numbers ensures n <= |history[w]| {
      var b :| b in BuildsOf(db, w) && db.builds[b].sequence == n;
      assert InPlace(db.builds[b], b, history);
    }
  }

  /** With no active build of its workspace and the next number, only a taken identifier can be refused. */
  lemma OnlyIdentifiersClash(db: Db, history: History, w: WorkspaceId, b: BuildId, row: Build)
    requires Numbered(db, history) && w in history && row.workspace == w
    requires !W.HasActiveBuild(db, w) && row.sequence == W.NextSequence(db, w)
    ensures W.BuildClashes(db, b, row) <==> b in db.builds
  {
    NextSequenceIs(db, history, w);
    forall c | c in db.builds && db.builds[c].workspace == w
      ensures db.builds[c].sequence != row.sequence && !Active(db.builds[c])
    {
      assert InPlace(db.builds[c], c, history);
      assert c in BuildsOf(db, w);
    }
  }

  lemma TransitKeeps(cfg: Config, db: Db, history: History, owner: OwnerId, w: WorkspaceId,
                     transition: Transition, b: BuildId, now: Time)
    requires Consistent(db, history)
    requires W.Transit(cfg, db, owner, w, transition, b, now).Committed?
    ensures w in history && b !in db.builds
    ensures Consistent(W.Transit(cfg, db, owner, w, transition, b, now).db, history[w := history[w] + [b]])
  {
    var after := W.Transit(cfg, db, owner, w, transition, b, now).db;
    NextSequenceIs(db, history, w);
    assert Idle(db, w) by {
      forall c | c in db.builds && db.builds[c].workspace == w ensures !Active(db.builds[c]) {
        assert c in BuildsOf(db, w);
      }
    }
    assert SettledAt(db, history, w);
    AppendKeeps(db, after, history, w, b, after.builds[b], after.workspaces[w]);
  }

  // ---- the scheduler ------------------------------------------------------------

  lemma LeaseOutKeeps(db: Db, history: History, b: BuildId, worker: WorkerId, secret: Secret, until: Time, now: Time)
    requires Consistent(db, history) && b in db.builds && db.builds[b].status == BuildStatus.Queued
    ensures Consistent(S.LeaseOut(db, b, worker, secret, until, now), history)
  {
    var after := S.LeaseOut(db, b, worker, secret, until, now);
    var row := db.builds[b];
    ActiveIsNewest(db, history, b);
    assert SettledAt(db, history, row.workspace);
    UpdateKeeps(db, after, history, b, S.Leased(row, worker, secret, until, now), db.workspaces[row.workspace]);
  }

  lemma RenewKeeps(db: Db, history: History, b: BuildId, worker: WorkerId, secret: Secret, asked: Time, extended: Time)
    requires Consistent(db, history)
    ensures Consistent(S.Renew(db, b, worker, secret, asked, extended).Or(db), history)
  {
    var after := S.Renew(db, b, worker, secret, asked, extended).Or(db);
    if S.Renew(db, b, worker, secret, asked, extended).Committed? {
      var row := db.builds[b];
      assert Disciplined(row, db.workspaces, history);
      assert SettledAt(db, history, row.workspace);
      UpdateKeeps(db, after, history, b, after.builds[b], db.workspaces[row.workspace]);
    }
  }

  lemma CompleteKeeps(db: Db, history: History, b: BuildId, worker: WorkerId, secret: Secret, error: string, now: Time)
    requires Consistent(db, history)
    ensures Consistent(S.Complete(db, b, worker, secret, error, now).Or(db), history)
  {
    var after := S.Complete(db, b, worker, secret, error, now).Or(db);
    if S.Complete(db, b, worker, secret, error, now).Committed? {
      var row := db.builds[b];
      ActiveIsNewest(db, history, b);
      assert Disciplined(row, db.workspaces, history);
      assert SettledAt(db, history, row.workspace);
      UpdateKeeps(db, after, history, b, after.builds[b], after.workspaces[row.workspace]);
    }
  }

  lemma ExpireSettles(db: Db, history: History, w: WorkspaceId, now: Time)
    requires Consistent(db, history) && w in history
    ensures SettledAt(S.Expire(db, now), history, w)
  {
    var overdue := S.Overdue(db, now);
    var newest := Newest(history, w);
    assert SettledAt(db, history, w);
    NewestIsThere(db, history, w);
    assert newest in overdue ==> newest in BuildsOf(db, w);
    forall b | b in overdue && b in BuildsOf(db, w) ensures b == newest {
      ActiveIsNewest(db, history, b);
    }
  }

  lemma ExpireProceeds(db: Db, history: History, now: Time, b: BuildId)
    requires AllDisciplined(db, history) && b in db.builds
    ensures b in S.Expire(db, now).builds && Proceeds(db.builds[b], S.Expire(db, now).builds[b])
  {
    hide RunningOf, BuildsOf;
    assert Disciplined(db.builds[b], db.workspaces, history);
  }

  lemma ExpireKeepsRows(db: Db, history: History, now: Time)
    requires AllDisciplined(db, history)
    ensures SameRows(db, S.Expire(db, now))
  {
    hide Proceeds, RunningOf, BuildsOf, S.Overdue, AllDisciplined;
    forall b | b in db.builds ensures Proceeds(db.builds[b], S.Expire(db, now).builds[b]) {
      ExpireProceeds(db, history, now, b);
    }
  }

  lemma ExpireKeeps(db: Db, history: History, now: Time)
    requires Consistent(db, history)
    ensures Consistent(S.Expire(db, now), history)
  {
    hide S.Expire, SettledAt, SameRows, Numbered, AllDisciplined;
    var after := S.Expire(db, now);
    ExpireKeepsRows(db, history, now);
    SameRowsKeepNumbers(db, after, history);
    SameRowsKeepDiscipline(db, after, history);
    forall w | w in history ensures SettledAt(after, history, w) {
      ExpireSettles(db, history, w, now);
    }
  }

  // ---- the agents -------------------------------------------------------------------

  /** How agent reports may move a workspace: towards running, or from running to degraded. */
  predicate Drifts(was: Workspace, next: Workspace) {
    || next == was.(lastAccess := next.lastAccess)
    || (was.desired == Desired.Running && was.observed in {Observed.Starting, Observed.Degraded} && next == was.(observed := Observed.Running))
    || (was.desired == Desired.Running && was.observed == Observed.Running && next == was.(observed := Observed.Degraded))
  }

  ghost predicate AllDrift(db: Db, after: Db) {
    && after.builds == db.builds
    && after.workspaces.Keys == db.workspaces.Keys
    && forall w :: w in db.workspaces ==> Drifts(db.workspaces[w], after.workspaces[w])
  }

  lemma DriftSettles(was: Workspace, next: Workspace, b: Build)
    requires Settled(was, b) && Drifts(was, next)
    ensures Settled(next, b)
  {}

  lemma DriftKeeps(db: Db, after: Db, history: History)
    requires Consistent(db, history) && AllDrift(db, after)
    ensures Consistent(after, history)
  {
    forall b | b in db.builds ensures Proceeds(db.builds[b], after.builds[b]) {
      UntouchedProceed(db, history, b);
    }
    SameRowsKeepNumbers(db, after, history);
    SameRowsKeepDiscipline(db, after, history);
    forall w | w in history ensures SettledAt(after, history, w) {
      assert SettledAt(db, history, w);
      DriftSettles(db.workspaces[w], after.workspaces[w], db.builds[Newest(history, w)]);
    }
  }

  // ---- every step -------------------------------------------------------------------

  lemma ReportDrifts(workspaces: map<WorkspaceId, Workspace>, v: WorkspaceId, from: set<Observed>, w: WorkspaceId)
    requires from <= {Observed.Starting, Observed.Degraded} && w in workspaces
    ensures w in A.Report(workspaces, v, from, Observed.Running)
    ensures Drifts(workspaces[w], A.Report(workspaces, v, from, Observed.Running)[w])
  {}

  lemma ReportKeepsKeys(workspaces: map<WorkspaceId, Workspace>, v: WorkspaceId, from: set<Observed>, to: Observed)
    ensures A.Report(workspaces, v, from, to).Keys == workspaces.Keys
  {}

  lemma HeartbeatDrifts(db: Db, agent: AgentId, now: Time)
    ensures AllDrift(db, A.Heartbeat(db, agent, now).Or(db))
  {
    hide A.Report;
    if agent in db.agents {
      ReportKeepsKeys(db.workspaces, db.agents[agent].workspace, {Observed.Degraded}, Observed.Running);
      hide Drifts;
      forall w | w in db.workspaces
        ensures Drifts(db.workspaces[w], A.Report(db.workspaces, db.agents[agent].workspace, {Observed.Degraded}, Observed.Running)[w])
      {
        ReportDrifts(db.workspaces, db.agents[agent].workspace, {Observed.Degraded}, w);
      }
    }
  }

  lemma MarkReadyDrifts(db: Db, agent: AgentId, now: Time)
    ensures AllDrift(db, A.MarkReady(db, agent, now).Or(db))
  {
    if agent in db.agents {
      forall w | w in db.workspaces
        ensures Drifts(db.workspaces[w], A.Report(db.workspaces, db.agents[agent].workspace, {Observed.Starting, Observed.Degraded}, Observed.Running)[w])
      {
        ReportDrifts(db.workspaces, db.agents[agent].workspace, {Observed.Starting, Observed.Degraded}, w);
      }
    }
  }

  lemma MarkStaleDrifts(db: Db, deadline: Time)
    ensures AllDrift(db, A.MarkStale(db, deadline))
  {}

  lemma CreateStepKeeps(cfg: Config, s: Sys, step: Step)
    requires Consistent(s.db, s.history) && step.Create?
    ensures Consistent(Apply(cfg, s, step).db, Apply(cfg, s, step).history)
  {
    hide Consistent, W.CheckCreateQuota, W.BuildClashes;
    if W.Create(cfg, s.db, step.request, step.w, step.b, step.now).Committed? {
      CreateInTxKeeps(s.db, s.history, step.request, step.w, step.b, step.now);
    }
  }

  lemma CreateKeyedStepKeeps(cfg: Config, s: Sys, step: Step)
    requires Consistent(s.db, s.history) && step.CreateKeyed?
    ensures Consistent(Apply(cfg, s, step).db, Apply(cfg, s, step).history)
  {
    hide Consistent, W.CheckCreateQuota, W.BuildClashes, W.FirstBuild, W.Visible;
    var txn := W.CreateKeyed(cfg, s.db, step.request, step.key, step.hash, step.w, step.b, step.now);
    if !W.LiveKey(s.db, step.request.owner, step.key, step.now) && txn.Committed? {
      CreateInTxKeeps(s.db, s.history, step.request, step.w, step.b, step.now);
      DriftKeeps(W.CreateInTx(s.db, step.request, step.w, step.b, step.now).db, txn.db, s.history[step.w := [step.b]]);
    }
  }

  lemma TransitStepKeeps(cfg: Config, s: Sys, step: Step)
    requires Consistent(s.db, s.history) && step.Transit?
    ensures Consistent(Apply(cfg, s, step).db, Apply(cfg, s, step).history)
  {
    hide Consistent, W.Transit;
    if W.Transit(cfg, s.db, step.owner, step.w, step.transition, step.b, step.now).Committed? {
      TransitKeeps(cfg, s.db, s.history, step.owner, step.w, step.transition, step.b, step.now);
    }
  }

  lemma ClaimStepKeeps(cfg: Config, s: Sys, step: Step)
    requires Consistent(s.db, s.history) && step.Claim?
    ensures Consistent(ClaimStep(cfg, s, step).db, s.history) && ClaimStep(cfg, s, step).history == s.history
  {
    var b := Obtains(cfg, s, step);
    if b.Some? {
      LeaseOutKeeps(s.db, s.history, b.value, step.worker, step.secret, step.asked + LEASE_TIME, step.now);
    }
  }

  lemma ExpireStepKeeps(cfg: Config, s: Sys, step: Step)
    requires Consistent(s.db, s.history) && step.Expire?
    ensures Consistent(Apply(cfg, s, step).db, Apply(cfg, s, step).history)
  {
    hide Consistent, S.Expire;
    ExpireKeeps(s.db, s.history, step.now);
  }

  lemma RenewStepKeeps(cfg: Config, s: Sys, step: Step)
    requires Consistent(s.db, s.history) && step.Renew?
    ensures Consistent(Apply(cfg, s, step).db, Apply(cfg, s, step).history)
  {
    hide Consistent, S.Renew;
    RenewKeeps(s.db, s.history, step.b, step.worker, step.secret, step.asked, step.extended);
  }

  lemma CompleteStepKeeps(cfg: Config, s: Sys, step: Step)
    requires Consistent(s.db, s.history) && step.Complete?
    ensures Consistent(Apply(cfg, s, step).db, Apply(cfg, s, step).history)
  {
    hide Consistent, S.Complete;
    CompleteKeeps(s.db, s.history, step.b, step.worker, step.secret, step.error, step.now);
  }

  lemma OtherStepsDrift(cfg: Config, s: Sys, step: Step)
    requires !Adds(step) && !Schedules(step)
    ensures AllDrift(s.db, Apply(cfg, s, step).db) && Apply(cfg, s, step).history == s.history
  {
    hide A.Heartbeat, A.MarkReady, A.MarkStale, A.EnrollmentClashes, S.Holds, S.NextLog;
    match step
    case Heartbeat(agent, now) => HeartbeatDrifts(s.db, agent, now);
    case MarkReady(agent, asked, now) => MarkReadyDrifts(s.db, agent, asked);
    case MarkStale(deadline, now) => MarkStaleDrifts(s.db, deadline);
    case _ =>
  }

  lemma StepKeepsConsistent(cfg: Config, s: Sys, step: Step)
    requires Consistent(s.db, s.history)
    ensures Consistent(Next(cfg, s, step).db, Next(cfg, s, step).history)
  {
    if step.now >= s.clock {
      var present := s.(clock := step.now);
      if step.Create? {
        CreateStepKeeps(cfg, present, step);
      } else if step.CreateKeyed? {
        CreateKeyedStepKeeps(cfg, present, step);
      } else if step.Transit? {
        TransitStepKeeps(cfg, present, step);
      } else if step.Claim? {
        ClaimStepKeeps(cfg, present, step);
        assert Next(cfg, s, step) == ClaimStep(cfg, present, step);
      } else if step.Expire? {
        ExpireStepKeeps(cfg, present, step);
      } else if step.Renew? {
        RenewStepKeeps(cfg, present, step);
      } else if step.Complete? {
        CompleteStepKeeps(cfg, present, step);
      } else {
        OtherStepsDrift(cfg, present, step);
        DriftKeeps(s.db, Apply(cfg, present, step).db, s.history);
      }
    }
  }
}
