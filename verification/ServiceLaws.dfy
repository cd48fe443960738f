/** Exactly when the workspace operations succeed, and exactly what they write. */
module ServiceLaws {
  import opened Wrappers
  import opened Text
  import opened Tables
  import opened System
  import opened Lifecycle
  import opened WorkspaceService
  import opened ServiceFacts
  import W = Workspaces
  import S = Scheduler
  import A = Agents
  import Reachable

  // ---- quotas -----------------------------------------------------------------------------------

  /** What the quotas count: workspaces that are not deleted, and those of them wanted running. */
  function Kept(db: Db, owner: OwnerId, template: string): set<WorkspaceId> {
    set w | w in db.workspaces && db.workspaces[w].owner == owner && db.workspaces[w].template == template
            && db.workspaces[w].deletedAt == None
  }

  function Wanted(db: Db, owner: OwnerId, template: string): set<WorkspaceId> {
    set w | w in Kept(db, owner, template) && db.workspaces[w].desired == Desired.Running
  }

  predicate Allows(limit: int, count: nat) {
    limit <= 0 || count <= limit
  }

  /** A creation is refused exactly when the workspace it would insert exceeds a limit, the number of workspaces first. */
  lemma CreateQuotaIsExact(cfg: Config, db: Db, owner: OwnerId, template: string, w: WorkspaceId, row: Workspace)
    requires w !in db.workspaces && row.owner == owner && row.template == template && row.deletedAt == None
    requires row.desired == Desired.Running
    ensures var after := db.(workspaces := db.workspaces[w := row]);
            W.CheckCreateQuota(cfg, db, owner, template)
            == if !Allows(cfg.Limit(template).maxWorkspaces, |Kept(after, owner, template)|) then Some(WorkspaceQuota)
               else if !Allows(cfg.Limit(template).maxRunning, |Wanted(after, owner, template)|) then Some(RunningQuota)
               else None
  {
    var after := db.(workspaces := db.workspaces[w := row]);
    SameCounts(db, owner, template);
    KeptWith(db, w, row);
    hide Kept, Wanted, W.Undeleted, W.WantedRunning;
    AddOne(Kept(db, owner, template), w);
    AddOne(Wanted(db, owner, template), w);
  }

  lemma KeptWith(db: Db, w: WorkspaceId, row: Workspace)
    requires w !in db.workspaces && row.deletedAt == None && row.desired == Desired.Running
    ensures var after := db.(workspaces := db.workspaces[w := row]);
            && Kept(after, row.owner, row.template) == Kept(db, row.owner, row.template) + {w}
            && Wanted(after, row.owner, row.template) == Wanted(db, row.owner, row.template) + {w}
            && w !in Kept(db, row.owner, row.template)
  {}

  lemma SameCounts(db: Db, owner: OwnerId, template: string)
    ensures W.Undeleted(db, owner, template) == Kept(db, owner, template)
    ensures W.WantedRunning(db, owner, template) == Wanted(db, owner, template)
  {}

  lemma AddOne(s: set<WorkspaceId>, w: WorkspaceId)
    ensures |s + {w}| == if w in s then |s| else |s| + 1
  {
    if w in s {
      assert s + {w} == s;
    }
  }

  /** A start is refused exactly when wanting the workspace to run exceeds the limit; a negative limit refuses all. */
  lemma StartQuotaIsExact(cfg: Config, db: Db, w: WorkspaceId)
    requires w in db.workspaces && db.workspaces[w].deletedAt == None
    ensures var row := db.workspaces[w];
            var after := db.(workspaces := db.workspaces[w := row.(desired := Desired.Running)]);
            W.CheckStartQuota(cfg, db, row.owner, w, row.template)
            == if cfg.Limit(row.template).maxRunning >= 0
                  && Allows(cfg.Limit(row.template).maxRunning, |Wanted(after, row.owner, row.template)|)
               then None else Some(RunningQuota)
  {
    var row := db.workspaces[w];
    var after := db.(workspaces := db.workspaces[w := row.(desired := Desired.Running)]);
    SameCounts(db, row.owner, row.template);
    WantedWith(db, w);
    hide Kept, Wanted, W.Undeleted, W.WantedRunning;
    AddOne(Wanted(db, row.owner, row.template) - {w}, w);
  }

  lemma WantedWith(db: Db, w: WorkspaceId)
    requires w in db.workspaces && db.workspaces[w].deletedAt == None
    ensures var row := db.workspaces[w];
            Wanted(db.(workspaces := db.workspaces[w := row.(desired := Desired.Running)]), row.owner, row.template)
            == Wanted(db, row.owner, row.template) - {w} + {w}
  {}

  /** In every reachable state the limits hold. */
  lemma LimitsHold(cfg: Config, s: Sys, owner: OwnerId, template: string)
    requires System.Reachable(cfg, s)
    ensures Allows(cfg.Limit(template).maxWorkspaces, |Kept(s.db, owner, template)|)
    ensures Allows(cfg.Limit(template).maxRunning, |Wanted(s.db, owner, template)|)
  {
    Reachable.UsageWithinLimits(cfg, s, owner, template);
    SameCounts(s.db, owner, template);
    hide Kept, Wanted, W.Undeleted, W.WantedRunning;
  }

  /** A usage report has exactly one row for each configured or used template, in ascending order, with what the quotas
      count and what they allow. */
  lemma UsageIsExact(cfg: Config, db: Db, owner: OwnerId, rows: seq<UsageRow>)
    requires UsageReport(cfg, db, owner, rows)
    ensures forall i :: 0 <= i < |rows| ==>
              rows[i] == UsageRow(rows[i].template, |Kept(db, owner, rows[i].template)|, |Wanted(db, owner, rows[i].template)|,
                                  if rows[i].template in cfg.limits then cfg.limits[rows[i].template] else Limits(0, 0))
    ensures forall i, j :: 0 <= i < j < |rows| ==> Less(rows[i].template, rows[j].template)
    ensures forall t :: (exists i :: 0 <= i < |rows| && rows[i].template == t) <==> t in cfg.limits || Kept(db, owner, t) != {}
  {
    forall t ensures W.Undeleted(db, owner, t) == Kept(db, owner, t) && W.WantedRunning(db, owner, t) == Wanted(db, owner, t) {
      SameCounts(db, owner, t);
    }
    hide Kept, Wanted, W.Undeleted, W.WantedRunning;
  }

  // ---- creation and transition -------------------------------------------------------------------

  /** A creation that passes the quotas fails exactly for invalid repository metadata or a draw already in use; otherwise
      it inserts the requested workspace and its first build, and changes nothing else. */
  lemma CreationIsExact(cfg: Config, db: Db, history: History, request: W.Request, w: WorkspaceId, b: BuildId, now: Time)
    requires Consistent(db, history) && W.CheckCreateQuota(cfg, db, request.owner, request.template).None?
    ensures var txn := W.Create(cfg, db, request, w, b, now);
            if request.repository.Some? && (request.repository.value.id < 1 || request.repository.value.fullName == "")
            then txn == RolledBack(InvalidRepository)
            else if w in db.workspaces || b in db.builds then txn == RolledBack(DuplicatedKey)
            else
              && txn.Committed? && txn.value == W.Created(w, b, true)
              && txn.db == db.(workspaces := txn.db.workspaces, builds := txn.db.builds)
              && txn.db.workspaces == db.workspaces[w := Workspace(request.owner, if request.name == "" then None else Some(request.name),
                                                                   request.repository, request.template, Desired.Running,
                                                                   Observed.Pending, now, None)]
              && txn.db.builds == db.builds[b := Build(w, 1, Start, request.template, BuildStatus.Queued, None, now, None, None)]
  {
    if !W.BadRepository(request) {
      DuplicateMeansTaken(cfg, db, history, request, Draw(w, b, now));
    }
    hide Consistent, W.CheckCreateQuota;
  }

  predicate Underway(db: Db, w: WorkspaceId) {
    exists b :: b in db.builds && db.builds[b].workspace == w
                && (db.builds[b].status == BuildStatus.Queued || db.builds[b].status == BuildStatus.Running)
  }

  predicate MayUse(db: Db, owner: OwnerId, w: WorkspaceId) {
    w in db.workspaces && db.workspaces[w].owner == owner && db.workspaces[w].deletedAt == None
  }

  /** The row a committed transition leaves behind. */
  function Asked(row: Workspace, transition: Transition, now: Time): Workspace {
    match transition
    case Start => row.(desired := Desired.Running, observed := Observed.Starting, lastAccess := now)
    case Stop => row.(desired := Desired.Stopped, observed := Observed.Stopping)
    case Delete => row.(desired := Desired.Deleted, observed := Observed.Deleting)
  }

  /** A transition fails exactly for somebody else's, a missing or a deleted workspace, for a start beyond the quota, for a
      build under way, or for a drawn identifier in use, in this order; otherwise it queues the next build. */
  lemma TransitionIsExact(cfg: Config, db: Db, history: History, owner: OwnerId, w: WorkspaceId, transition: Transition,
                          b: BuildId, now: Time)
    requires Consistent(db, history)
    ensures var txn := W.Transit(cfg, db, owner, w, transition, b, now);
            if !MayUse(db, owner, w) then txn == RolledBack(NotFound)
            else
              var row := db.workspaces[w];
              if transition == Start && W.CheckStartQuota(cfg, db, owner, w, row.template).Some? then txn == RolledBack(RunningQuota)
              else if Underway(db, w) then txn == RolledBack(ActiveBuild)
              else if b in db.builds then txn == RolledBack(DuplicatedKey)
              else
                && txn.Committed? && txn.value == b
                && txn.db == db.(workspaces := txn.db.workspaces, builds := txn.db.builds)
                && txn.db.workspaces == db.workspaces[w := Asked(row, transition, now)]
                && txn.db.builds == db.builds[b := Build(w, |BuildsOf(db, w)| + 1, transition, row.template, BuildStatus.Queued,
                                                         None, now, None, None)]
  {
    UnderwayIsActive(db, w);
    hide Underway, Consistent, W.WantedRunning, W.NextSequence;
    if MayUse(db, owner, w) && !W.HasActiveBuild(db, w) {
      NextIsFree(db, history, w, b);
    }
    hide W.HasActiveBuild;
  }

  lemma UnderwayIsActive(db: Db, w: WorkspaceId)
    ensures Underway(db, w) <==> W.HasActiveBuild(db, w)
  {
    forall c ensures c in db.builds && db.builds[c].workspace == w <==> c in BuildsOf(db, w) {}
  }

  lemma NextIsFree(db: Db, history: History, w: WorkspaceId, b: BuildId)
    requires Consistent(db, history) && w in db.workspaces && !W.HasActiveBuild(db, w)
    ensures W.NextSequence(db, w) == |BuildsOf(db, w)| + 1
    ensures b !in db.builds ==> forall c :: c in db.builds && db.builds[c].workspace == w ==>
              db.builds[c].sequence != W.NextSequence(db, w) && !Active(db.builds[c])
  {
    NextSequenceIs(db, history, w);
    NumbersCount(db, history, w);
    var row := W.QueuedBuild(w, W.NextSequence(db, w), Stop, db.workspaces[w].template, 0);
    OnlyIdentifiersClash(db, history, w, b, row);
    hide Numbered, AllSettled, AllDisciplined, W.NextSequence, W.HasActiveBuild;
  }

  lemma NumbersCount(db: Db, history: History, w: WorkspaceId)
    requires Numbered(db, history) && w in history
    ensures |BuildsOf(db, w)| == |history[w]|
  {
    Reachable.HistoryLists(db, history, w);
  }

  // ---- when a workspace was last used ----------------------------------------------------------------

  /** The step is somebody's accepted touch or start of w. */
  predicate Uses(cfg: Config, s: Sys, step: Step, w: WorkspaceId) {
    && s.clock <= step.now
    && ((step.Touch? && step.w == w && MayUse(s.db, step.owner, w))
        || (step.Transit? && step.w == w && step.transition == Start
            && W.Transit(cfg, s.db, step.owner, w, Start, step.b, step.now).Committed?))
  }

  function LastUse(cfg: Config, s: Sys, steps: seq<Step>, w: WorkspaceId, before: Time): Time {
    if steps == [] then before
    else
      var n := |steps| - 1;
      if Uses(cfg, Run(cfg, s, steps[..n]), steps[n], w) then steps[n].now else LastUse(cfg, s, steps[..n], w, before)
  }

  /** A touch is accepted exactly for the caller's undeleted workspace, and dates its last access. */
  lemma TouchIsExact(db: Db, owner: OwnerId, w: WorkspaceId, now: Time)
    ensures W.Touch(db, owner, w, now)
         == if MayUse(db, owner, w) then Committed(db.(workspaces := db.workspaces[w := db.workspaces[w].(lastAccess := now)]), ())
            else RolledBack(NotFound)
  {}

  lemma TouchStep(cfg: Config, s: Sys, step: Step)
    requires step.Touch? && s.clock <= step.now
    ensures Next(cfg, s, step).db == W.Touch(s.db, step.owner, step.w, step.now).Or(s.db)
  {
    hide W.Touch;
  }

  lemma TouchUses(cfg: Config, s: Sys, step: Step, w: WorkspaceId)
    requires w in s.db.workspaces && step.Touch? && s.clock <= step.now
    ensures w in Next(cfg, s, step).db.workspaces
    ensures Next(cfg, s, step).db.workspaces[w].lastAccess
         == if Uses(cfg, s, step, w) then step.now else s.db.workspaces[w].lastAccess
  {
    TouchStep(cfg, s, step);
    TouchIsExact(s.db, step.owner, step.w, step.now);
    hide Next, W.Transit, W.Touch, MayUse;
  }

  lemma TransitUses(cfg: Config, s: Sys, step: Step, w: WorkspaceId)
    requires w in s.db.workspaces && step.Transit? && s.clock <= step.now
    ensures w in Next(cfg, s, step).db.workspaces
    ensures Next(cfg, s, step).db.workspaces[w].lastAccess
         == if Uses(cfg, s, step, w) then step.now else s.db.workspaces[w].lastAccess
  {
    hide W.CheckStartQuota, W.HasActiveBuild, W.NextSequence, W.BuildClashes;
  }

  lemma CreateUses(cfg: Config, s: Sys, step: Step, w: WorkspaceId)
    requires w in s.db.workspaces && (step.Create? || step.CreateKeyed?)
    ensures w in Apply(cfg, s, step).db.workspaces
    ensures Apply(cfg, s, step).db.workspaces[w] == s.db.workspaces[w]
  {
    hide W.CheckCreateQuota, W.BuildClashes, W.FirstBuild;
  }

  lemma ScheduleUses(cfg: Config, s: Sys, step: Step, w: WorkspaceId)
    requires w in s.db.workspaces && Schedules(step)
    ensures w in Apply(cfg, s, step).db.workspaces
    ensures Apply(cfg, s, step).db.workspaces[w].lastAccess == s.db.workspaces[w].lastAccess
  {
    hide S.Choose, S.Holds, S.Overdue, S.WithoutBuilds;
  }

  lemma AgentUses(cfg: Config, s: Sys, step: Step, w: WorkspaceId)
    requires w in s.db.workspaces && (step.Heartbeat? || step.MarkReady? || step.MarkStale?)
    ensures w in Apply(cfg, s, step).db.workspaces
    ensures Apply(cfg, s, step).db.workspaces[w].lastAccess == s.db.workspaces[w].lastAccess
  {
    hide A.SilentWorkspaces;
  }

  lemma RestUses(cfg: Config, s: Sys, step: Step, w: WorkspaceId)
    requires w in s.db.workspaces && !Adds(step) && !Schedules(step)
    requires !step.Touch? && !step.Heartbeat? && !step.MarkReady? && !step.MarkStale?
    ensures Apply(cfg, s, step).db.workspaces == s.db.workspaces
  {
    hide A.EnrollmentClashes, S.Holds, S.NextLog;
  }

  lemma StepUses(cfg: Config, s: Sys, step: Step, w: WorkspaceId)
    requires w in s.db.workspaces
    ensures w in Next(cfg, s, step).db.workspaces
    ensures Next(cfg, s, step).db.workspaces[w].lastAccess
         == if Uses(cfg, s, step, w) then step.now else s.db.workspaces[w].lastAccess
  {
    var present := s.(clock := step.now);
    if s.clock <= step.now {
      if step.Touch? {
        TouchUses(cfg, s, step, w);
      } else if step.Transit? {
        TransitUses(cfg, s, step, w);
      } else if Adds(step) {
        CreateUses(cfg, present, step, w);
      } else if Schedules(step) {
        ScheduleUses(cfg, present, step, w);
      } else if step.Heartbeat? || step.MarkReady? || step.MarkStale? {
        AgentUses(cfg, present, step, w);
      } else {
        RestUses(cfg, present, step, w);
      }
    }
    hide Apply, W.Transit;
  }

  /** Over any run, a workspace's last access is the moment of its last accepted touch or start. */
  lemma {:induction false} LastAccessIsLastUse(cfg: Config, s: Sys, steps: seq<Step>, w: WorkspaceId)
    requires w in s.db.workspaces
    ensures w in Run(cfg, s, steps).db.workspaces
    ensures Run(cfg, s, steps).db.workspaces[w].lastAccess == LastUse(cfg, s, steps, w, s.db.workspaces[w].lastAccess)
  {
    if steps != [] {
      hide Next, Uses;
      var n := |steps| - 1;
      LastAccessIsLastUse(cfg, s, steps[..n], w);
      StepUses(cfg, Run(cfg, s, steps[..n]), steps[n], w);
    }
  }

  /** The idle list holds only undeleted workspaces that are wanted and seen running and were last used before the moment,
      and it holds all of these unless it is full. */
  lemma {:induction false} IdleMeansUnused(cfg: Config, s: Sys, steps: seq<Step>, before: Time, ids: seq<WorkspaceId>, w: WorkspaceId)
    requires w in s.db.workspaces && IdleList(Run(cfg, s, steps).db, before, ids)
    ensures w in Run(cfg, s, steps).db.workspaces
    ensures var row := Run(cfg, s, steps).db.workspaces[w];
            var idle := row.desired == Desired.Running && row.observed in {Observed.Running, Observed.Degraded} && row.deletedAt == None
                        && LastUse(cfg, s, steps, w, s.db.workspaces[w].lastAccess) < before;
            && (w in ids ==> idle) && (idle && |ids| < 100 ==> w in ids) && |ids| <= 100
            && (idle && w !in ids ==> forall i :: 0 <= i < |ids| ==>
                  ids[i] in Run(cfg, s, steps).db.workspaces && Run(cfg, s, steps).db.workspaces[ids[i]].lastAccess <= row.lastAccess)
    ensures var rows := Run(cfg, s, steps).db.workspaces;
            forall i, j :: 0 <= i < j < |ids| ==>
              ids[i] != ids[j] && ids[i] in rows && ids[j] in rows && rows[ids[i]].lastAccess <= rows[ids[j]].lastAccess
  {
    LastAccessIsLastUse(cfg, s, steps, w);
    hide Run, LastUse;
    if w in ids {
      var i :| 0 <= i < |ids| && ids[i] == w;
    }
  }
}
