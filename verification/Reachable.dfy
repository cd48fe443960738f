/** What holds in every state the control plane can reach, whatever requests interleave. */
module Reachable {
  import opened Tables
  import opened System
  import opened Lifecycle
  import opened Counters
  import opened Quotas
  import opened Leases
  import opened AgentRecords
  import opened BuildLogs
  import opened Overtaking
  import W = Workspaces
  import S = Scheduler
  import A = Agents

  ghost predicate Dated(s: Sys) {
    forall b :: b in s.db.builds ==> s.db.builds[b].createdAt <= s.clock
  }

  ghost predicate Inv(cfg: Config, s: Sys) {
    && Consistent(s.db, s.history)
    && Counted(s.db)
    && QuotasHold(cfg, s.db)
    && AgentsInOrder(s)
    && LogsInOrder(s)
    && Dated(s)
  }

  lemma InitiallyInv(cfg: Config)
    ensures Inv(cfg, INIT)
  {
    forall p ensures CountedFor(EMPTY_DB, p) {
      assert RunningOf(EMPTY_DB, p) == {};
    }
    forall owner, template ensures WithinLimits(cfg, EMPTY_DB, owner, template) {
      assert W.Undeleted(EMPTY_DB, owner, template) == {} && W.WantedRunning(EMPTY_DB, owner, template) == {};
    }
  }

  lemma StepKeepsDated(cfg: Config, s: Sys, step: Step)
    requires Dated(s)
    ensures Dated(Next(cfg, s, step))
  {
    hide Next;
    NextClock(cfg, s, step);
    forall b | b in Next(cfg, s, step).db.builds ensures Next(cfg, s, step).db.builds[b].createdAt <= Next(cfg, s, step).clock {
      if b in s.db.builds {
        NextRowIs(cfg, s, step, b);
        KeepsAge(cfg, s, step, b);
      } else {
        NewBuildsAreQueued(cfg, s, step, b);
      }
    }
  }

  lemma ConsistentStarts(db: Db, history: History)
    requires Consistent(db, history)
    ensures AllLeasedOnceStarted(db)
  {
    forall b | b in db.builds ensures LeasedOnceStarted(db.builds[b]) {
      assert Disciplined(db.builds[b], db.workspaces, history);
    }
  }

  lemma StepKeepsInv(cfg: Config, s: Sys, step: Step)
    requires Inv(cfg, s)
    ensures Inv(cfg, Next(cfg, s, step))
  {
    hide Next, Consistent, Counted, QuotasHold, AgentsInOrder, LogsInOrder, Dated;
    StepKeepsConsistent(cfg, s, step);
    StepKeepsCounted(cfg, s, step);
    StepKeepsQuotas(cfg, s, step);
    ConsistentStarts(s.db, s.history);
    StepKeepsAgentsInOrder(cfg, s, step);
    StepKeepsLogsInOrder(cfg, s, step);
    StepKeepsDated(cfg, s, step);
  }

  lemma {:induction false} RunKeepsInv(cfg: Config, s: Sys, steps: seq<Step>)
    requires Inv(cfg, s)
    ensures Inv(cfg, Run(cfg, s, steps))
  {
    if steps != [] {
      hide Next, Inv;
      RunKeepsInv(cfg, s, steps[..|steps| - 1]);
      StepKeepsInv(cfg, Run(cfg, s, steps[..|steps| - 1]), steps[|steps| - 1]);
    }
  }

  lemma ReachableInv(cfg: Config, s: Sys)
    requires System.Reachable(cfg, s)
    ensures Inv(cfg, s)
  {
    hide Inv;
    var steps :| s == Run(cfg, INIT, steps);
    InitiallyInv(cfg);
    RunKeepsInv(cfg, INIT, steps);
  }

  // ---- builds and workspaces ---------------------------------------------------------------

  predicate IsNewest(db: Db, w: WorkspaceId, b: BuildId) {
    b in BuildsOf(db, w) && forall c :: c in BuildsOf(db, w) && c != b ==> db.builds[c].sequence < db.builds[b].sequence
  }

  /** Every workspace has a newest build, and that build says what the workspace's states are. */
  lemma NewestBuildDecides(cfg: Config, s: Sys, w: WorkspaceId)
    requires System.Reachable(cfg, s) && w in s.db.workspaces
    ensures exists b :: IsNewest(s.db, w, b)
    ensures forall b :: IsNewest(s.db, w, b) ==> Settled(s.db.workspaces[w], s.db.builds[b])
  {
    ReachableInv(cfg, s);
    hide Settled;
    var newest := Newest(s.history, w);
    NewestIsThere(s.db, s.history, w);
    assert SettledAt(s.db, s.history, w);
    forall c | c in BuildsOf(s.db, w) && c != newest ensures s.db.builds[c].sequence < s.db.builds[newest].sequence {
      assert InPlace(s.db.builds[c], c, s.history);
    }
    assert IsNewest(s.db, w, newest);
  }

  /** The builds of a workspace are numbered 1 to n, each number once; only number n can be active,
      and every build has its workspace's template. */
  lemma BuildsAreNumbered(cfg: Config, s: Sys, w: WorkspaceId)
    requires System.Reachable(cfg, s) && w in s.db.workspaces
    ensures var n := |BuildsOf(s.db, w)|;
            && n >= 1
            && (forall k :: k in W.Sequences(s.db, w) <==> 1 <= k <= n)
            && (forall b :: b in BuildsOf(s.db, w) && Active(s.db.builds[b]) ==> s.db.builds[b].sequence == n)
            && (forall b :: b in BuildsOf(s.db, w) ==> s.db.builds[b].template == s.db.workspaces[w].template)
    ensures forall b, c :: b in BuildsOf(s.db, w) && c in BuildsOf(s.db, w) && b != c ==>
              s.db.builds[b].sequence != s.db.builds[c].sequence
  {
    ReachableInv(cfg, s);
    hide Counted, QuotasHold, AgentsInOrder, LogsInOrder, AllSettled, W.Sequences;
    NumbersOfBuilds(s.db, s.history, w);
    forall b | b in BuildsOf(s.db, w) ensures Disciplined(s.db.builds[b], s.db.workspaces, s.history) {}
  }

  lemma NumbersOfBuilds(db: Db, history: History, w: WorkspaceId)
    requires Numbered(db, history) && w in history
    ensures |BuildsOf(db, w)| == |history[w]| >= 1
    ensures forall k :: k in W.Sequences(db, w) <==> 1 <= k <= |history[w]|
    ensures forall b, c :: b in BuildsOf(db, w) && c in BuildsOf(db, w) && b != c ==> db.builds[b].sequence != db.builds[c].sequence
  {
    var list := history[w];
    HistoryLists(db, history, w);
    forall b | b in BuildsOf(db, w) ensures InPlace(db.builds[b], b, history) {}
    forall k: nat | 1 <= k <= |list| ensures k in W.Sequences(db, w) {
      assert Placed(db, list[k - 1], w, k - 1 + 1);
      assert list[k - 1] in BuildsOf(db, w);
    }
  }

  lemma HistoryLists(db: Db, history: History, w: WorkspaceId)
    requires Numbered(db, history) && w in history
    ensures |BuildsOf(db, w)| == |history[w]|
  {
    var list := history[w];
    forall i | 0 <= i < |list| ensures Placed(db, list[i], w, i + 1) {}
    forall b | b in BuildsOf(db, w) ensures b in list {
      assert InPlace(db.builds[b], b, history);
    }
    DistinctSize(list, BuildsOf(db, w));
  }

  lemma DistinctSize<T>(list: seq<T>, items: set<T>)
    requires forall i, j :: 0 <= i < j < |list| ==> list[i] != list[j]
    requires forall x :: x in items <==> x in list
    ensures |items| == |list|
  {
    if list != [] {
      var n := |list| - 1;
      var last := list[n];
      assert last in items;
      forall x ensures x in items - {last} <==> x in list[..n] {
        if x in list && x != last {
          var i :| 0 <= i < |list| && list[i] == x;
          assert list[..n][i] == x;
        }
      }
      DistinctSize(list[..n], items - {last});
    } else {
      assert items == {};
    }
  }

  /** The database's uniqueness constraints only ever reject an identifier already taken. */
  lemma IndexNeverRejects(cfg: Config, s: Sys, owner: OwnerId, w: WorkspaceId, transition: Transition, b: BuildId, now: Time)
    requires System.Reachable(cfg, s) && b !in s.db.builds
    ensures W.Transit(cfg, s.db, owner, w, transition, b, now) != RolledBack(DuplicatedKey)
  {
    ReachableInv(cfg, s);
    InvNumbers(cfg, s);
    hide Inv, Numbered;
    NumberedNeverRejects(cfg, s.db, s.history, owner, w, transition, b, now);
  }

  lemma NumberedNeverRejects(cfg: Config, db: Db, history: History, owner: OwnerId, w: WorkspaceId, transition: Transition,
                             b: BuildId, now: Time)
    requires Numbered(db, history) && b !in db.builds
    ensures W.Transit(cfg, db, owner, w, transition, b, now) != RolledBack(DuplicatedKey)
  {
    if W.Visible(db, w, owner) && !W.HasActiveBuild(db, w) {
      OnlyIdentifiersClash(db, history, w, b, W.QueuedBuild(w, W.NextSequence(db, w), transition, db.workspaces[w].template, now));
    }
    hide Numbered, W.NextSequence;
  }

  lemma InvNumbers(cfg: Config, s: Sys)
    requires Inv(cfg, s)
    ensures Numbered(s.db, s.history)
  {}

  // ---- deletion -----------------------------------------------------------------------------

  predicate Gone(db: Db, w: WorkspaceId) {
    w in db.workspaces && db.workspaces[w].deletedAt.Some?
  }

  lemma AddsLeaveGone(cfg: Config, s: Sys, step: Step, w: WorkspaceId)
    requires Gone(s.db, w) && Adds(step)
    ensures Gone(Apply(cfg, s, step).db, w) && Apply(cfg, s, step).db.workspaces[w] == s.db.workspaces[w]
  {
    hide W.CheckCreateQuota, W.CheckStartQuota, W.BuildClashes, W.NextSequence;
  }

  lemma SchedulingLeavesGone(cfg: Config, s: Sys, step: Step, w: WorkspaceId)
    requires Gone(s.db, w) && Schedules(step)
    ensures Gone(Apply(cfg, s, step).db, w) && Apply(cfg, s, step).db.workspaces[w] == s.db.workspaces[w]
  {
    hide S.Choose, S.Holds, S.Overdue, S.WithoutBuilds, S.Released;
  }

  lemma ReportsLeaveGone(cfg: Config, s: Sys, step: Step, w: WorkspaceId)
    requires Gone(s.db, w) && s.db.workspaces[w].desired == Desired.Deleted && (step.Heartbeat? || step.MarkReady? || step.MarkStale?)
    ensures Gone(Apply(cfg, s, step).db, w) && Apply(cfg, s, step).db.workspaces[w] == s.db.workspaces[w]
  {
    hide A.SilentWorkspaces;
  }

  lemma OthersLeaveGone(cfg: Config, s: Sys, step: Step, w: WorkspaceId)
    requires Gone(s.db, w) && s.db.workspaces[w].desired == Desired.Deleted && !Adds(step)
    ensures Gone(Apply(cfg, s, step).db, w) && Apply(cfg, s, step).db.workspaces[w] == s.db.workspaces[w]
  {
    if Schedules(step) {
      SchedulingLeavesGone(cfg, s, step, w);
      hide Apply;
    } else if step.Heartbeat? || step.MarkReady? || step.MarkStale? {
      ReportsLeaveGone(cfg, s, step, w);
      hide Apply;
    } else {
      RestLeavesGone(cfg, s, step, w);
      hide Apply;
    }
  }

  lemma RestLeavesGone(cfg: Config, s: Sys, step: Step, w: WorkspaceId)
    requires Gone(s.db, w) && !Adds(step) && !Schedules(step) && !step.Heartbeat? && !step.MarkReady? && !step.MarkStale?
    ensures Gone(Apply(cfg, s, step).db, w) && Apply(cfg, s, step).db.workspaces[w] == s.db.workspaces[w]
  {
    hide S.Holds, S.NextLog, A.EnrollmentClashes;
  }

  /** Deletion is final: nothing ever changes a deleted workspace again. */
  lemma {:induction false} DeletedIsFinal(cfg: Config, s: Sys, steps: seq<Step>, w: WorkspaceId)
    requires Inv(cfg, s) && Gone(s.db, w)
    ensures Gone(Run(cfg, s, steps).db, w) && Run(cfg, s, steps).db.workspaces[w] == s.db.workspaces[w]
    ensures s.db.workspaces[w].observed == Observed.Deleted && s.db.workspaces[w].desired == Desired.Deleted
  {
    GoneIsDeleted(s.db, s.history, w);
    hide Inv, Apply;
    if steps != [] {
      var n := |steps| - 1;
      var before := Run(cfg, s, steps[..n]);
      DeletedIsFinal(cfg, s, steps[..n], w);
      var present := before.(clock := steps[n].now);
      if Adds(steps[n]) {
        AddsLeaveGone(cfg, present, steps[n], w);
      } else {
        OthersLeaveGone(cfg, present, steps[n], w);
      }
    }
  }

  lemma GoneIsDeleted(db: Db, history: History, w: WorkspaceId)
    requires Consistent(db, history) && Gone(db, w)
    ensures db.workspaces[w].observed == Observed.Deleted && db.workspaces[w].desired == Desired.Deleted
  {
    assert SettledAt(db, history, w);
  }

  // ---- workers --------------------------------------------------------------------------------

  /** active_builds is the number of running builds, and what was claimed but not yet closed. */
  lemma {:induction false} CountersAgree(cfg: Config, steps: seq<Step>, p: WorkerId)
    ensures var s := Run(cfg, INIT, steps);
            && (p in s.db.provisioners ==> s.db.provisioners[p].activeBuilds == |RunningOf(s.db, p)|)
            && (p !in s.db.provisioners ==> RunningOf(s.db, p) == {})
            && ClaimCount(cfg, INIT, steps, p)
               == ReportCount(cfg, INIT, steps, p) + ExpiryCount(cfg, INIT, steps, p) + |RunningOf(s.db, p)|
  {
    var s := Run(cfg, INIT, steps);
    assert System.Reachable(cfg, s);
    ReachableInv(cfg, s);
    assert CountedFor(s.db, p);
    Conservation(cfg, INIT, steps, p);
    assert RunningOf(INIT.db, p) == {};
  }

  /** A reachable waiting build is passed over at most once per build ahead of it and per later tie,
      and there are no ties if every later build is created later. */
  lemma {:induction false} OvertakingIsBounded(cfg: Config, s: Sys, steps: seq<Step>, b: BuildId, pool: seq<string>)
    requires System.Reachable(cfg, s) && Waiting(s.db, b)
    ensures PassCount(cfg, s, steps, b, pool) <= |Ahead(cfg, s.db, b, pool)| + TieCount(cfg, s, steps, b, pool)
    ensures (forall i :: 0 <= i < |steps| && Adds(steps[i]) ==> steps[i].now > s.db.builds[b].createdAt) ==>
              PassCount(cfg, s, steps, b, pool) <= |Ahead(cfg, s.db, b, pool)|
  {
    ReachableInv(cfg, s);
    assert Dated(s);
    hide Inv;
    BoundedOvertaking(cfg, s, steps, b, pool);
    if forall i :: 0 <= i < |steps| && Adds(steps[i]) ==> steps[i].now > s.db.builds[b].createdAt {
      LaterBuildsNeverTie(cfg, s, steps, b, pool);
    }
  }

  /** Every owner stays within the limits of every template. */
  lemma UsageWithinLimits(cfg: Config, s: Sys, owner: OwnerId, template: string)
    requires System.Reachable(cfg, s)
    ensures cfg.Limit(template).maxWorkspaces > 0 ==> |W.Undeleted(s.db, owner, template)| <= cfg.Limit(template).maxWorkspaces
    ensures cfg.Limit(template).maxRunning > 0 ==> |W.WantedRunning(s.db, owner, template)| <= cfg.Limit(template).maxRunning
  {
    ReachableInv(cfg, s);
    hide Consistent, Counted, AgentsInOrder, LogsInOrder;
    assert WithinLimits(cfg, s.db, owner, template);
  }

  /** A claim's enrollment is never refused for UNIQUE(workspace_id, build_id). */
  lemma EnrollmentsFit(cfg: Config, s: Sys, b: BuildId, agent: AgentId, token: Secret)
    requires System.Reachable(cfg, s) && b in s.owed && agent !in s.db.agents && token !in s.db.enrollments
    ensures b in s.db.builds && !A.EnrollmentClashes(s.db, s.db.builds[b].workspace, b, agent, token)
  {
    ReachableInv(cfg, s);
    hide Consistent;
    EnrollmentNeverClashes(s, b, agent, token);
  }

  /** Logs seen at successive moments of a run are gapless and only grow. */
  lemma MomentsOfARun(cfg: Config, steps: seq<Step>, at: seq<nat>, moments: seq<Db>)
    requires |moments| == |at|
    requires forall i, j :: 0 <= i <= j < |at| ==> at[i] <= at[j] <= |steps|
    requires forall i :: 0 <= i < |at| ==> moments[i] == Run(cfg, INIT, steps[..at[i]]).db
    ensures Successive(moments)
  {
    assert LogsInOrder(INIT);
    hide Next, LogsInOrder;
    forall i | 0 <= i < |moments| ensures Gapless(moments[i]) {
      RunKeepsLogsInOrder(cfg, INIT, steps[..at[i]]);
      OrderIsGapless(Run(cfg, INIT, steps[..at[i]]));
    }
    forall i, j | 0 <= i <= j < |moments| ensures OnlyGrows(moments[i], moments[j]) {
      var early := steps[..at[i]];
      assert steps[..at[j]] == early + steps[at[i]..at[j]];
      RunAppend(cfg, INIT, early, steps[at[i]..at[j]]);
      RunKeepsLogsInOrder(cfg, INIT, early);
      RunKeepsLogsInOrder(cfg, Run(cfg, INIT, early), steps[at[i]..at[j]]);
    }
  }

  /** A reader polling at moments of a run delivers exactly the lines accepted up to the last of them, as they were sent. */
  lemma ReadersGetWhatWasAccepted(cfg: Config, steps: seq<Step>, at: seq<nat>, moments: seq<Db>, b: BuildId)
    requires |moments| == |at| > 0
    requires forall i, j :: 0 <= i <= j < |at| ==> at[i] <= at[j] <= |steps|
    requires forall i :: 0 <= i < |at| ==> moments[i] == Run(cfg, INIT, steps[..at[i]]).db
    ensures Successive(moments)
    ensures Log(moments[|moments| - 1], b) == Lines(AcceptedRows(cfg, INIT, steps[..at[|at| - 1]], b))
  {
    hide Log, Lines, AcceptedRows, Run, Successive;
    MomentsOfARun(cfg, steps, at, moments);
    LogIsWhatWasAccepted(cfg, steps[..at[|at| - 1]], b);
  }

  lemma OrderIsGapless(s: Sys)
    requires LogsInOrder(s)
    ensures Gapless(s.db)
  {}
}
