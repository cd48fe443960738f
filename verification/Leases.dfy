/** What may happen to one build over a whole run. */
module Leases {
  import opened Wrappers
  import opened Tables
  import opened System
  import opened Counters
  import S = Scheduler

  /** The build whose lease a step extends. */
  function Renewals(s: Sys, step: Step): set<BuildId> {
    if Happens(s, step) && step.Renew? && step.asked <= step.extended <= step.now
       && S.Holds(s.db, step.b, step.worker, step.secret, step.asked) then {step.b} else {}
  }

  /** The row of an existing build after a step. */
  function NextRow(cfg: Config, s: Sys, step: Step, b: BuildId): Build
    requires b in s.db.builds
  {
    var row := s.db.builds[b];
    if b in Granted(cfg, s, step) then
      S.Leased(row, step.worker, step.secret, step.asked + LEASE_TIME, step.now)
    else if b in Reports(s, step) then
      S.Closed(row, if step.error == "" then BuildStatus.Succeeded else BuildStatus.Failed,
               if step.error == "" then None else Some(step.error), step.now)
    else if b in Expiries(s, step) then
      S.Closed(row, BuildStatus.Failed, Some(S.EXPIRED), step.now)
    else if b in Renewals(s, step) then
      row.(lease := Some(row.lease.value.(expiresAt := step.extended + LEASE_TIME)))
    else
      row
  }

  lemma AddKeepsRow(cfg: Config, s: Sys, step: Step, b: BuildId)
    requires b in s.db.builds && Adds(step)
    ensures b in Apply(cfg, s, step).db.builds && Apply(cfg, s, step).db.builds[b] == s.db.builds[b]
  {}

  lemma ClaimRow(cfg: Config, s: Sys, step: Step, b: BuildId)
    requires b in s.db.builds && step.Claim? && Happens(s, step)
    ensures b in Next(cfg, s, step).db.builds
    ensures Next(cfg, s, step).db.builds[b] == NextRow(cfg, s, step, b)
  {
    hide RunningOf, S.NextBuild;
  }

  lemma ExpireRow(cfg: Config, s: Sys, step: Step, b: BuildId)
    requires b in s.db.builds && step.Expire? && Happens(s, step)
    ensures b in Next(cfg, s, step).db.builds
    ensures Next(cfg, s, step).db.builds[b] == NextRow(cfg, s, step, b)
  {
    hide RunningOf, S.NextBuild;
  }

  lemma RenewRow(cfg: Config, s: Sys, step: Step, b: BuildId)
    requires b in s.db.builds && step.Renew? && Happens(s, step)
    ensures b in Next(cfg, s, step).db.builds
    ensures Next(cfg, s, step).db.builds[b] == NextRow(cfg, s, step, b)
  {
    hide RunningOf, S.NextBuild;
  }

  lemma CompleteRow(cfg: Config, s: Sys, step: Step, b: BuildId)
    requires b in s.db.builds && step.Complete? && Happens(s, step)
    ensures b in Next(cfg, s, step).db.builds
    ensures Next(cfg, s, step).db.builds[b] == NextRow(cfg, s, step, b)
  {
    hide RunningOf, S.NextBuild;
  }

  lemma NextRowIs(cfg: Config, s: Sys, step: Step, b: BuildId)
    requires b in s.db.builds
    ensures b in Next(cfg, s, step).db.builds
    ensures Next(cfg, s, step).db.builds[b] == NextRow(cfg, s, step, b)
  {
    if Happens(s, step) {
      var present := s.(clock := step.now);
      if Adds(step) {
        AddKeepsRow(cfg, present, step, b);
      } else if step.Claim? {
        ClaimRow(cfg, s, step, b);
      } else if step.Expire? {
        ExpireRow(cfg, s, step, b);
      } else if step.Renew? {
        RenewRow(cfg, s, step, b);
      } else if step.Complete? {
        CompleteRow(cfg, s, step, b);
      } else {
        OthersKeepBuilds(cfg, present, step);
      }
      hide Apply;
    }
  }

  // ---- one way only ------------------------------------------------------------------

  /** Queued, then running, then finished; a lease keeps its holder, a verdict is final. */
  predicate Advances(was: Build, next: Build) {
    && next.workspace == was.workspace && next.sequence == was.sequence && next.transition == was.transition
    && next.template == was.template && next.createdAt == was.createdAt
    && (next.status == BuildStatus.Queued ==> was.status == BuildStatus.Queued)
    && (Terminal(was) ==> next.status == was.status && next.error == was.error && next.completedAt == was.completedAt)
    && (was.lease.Some? ==>
          && next.lease.Some?
          && next.lease.value.worker == was.lease.value.worker
          && next.lease.value.secret == was.lease.value.secret
          && next.lease.value.startedAt == was.lease.value.startedAt)
  }

  predicate LeasedOnceStarted(row: Build) {
    row.status == BuildStatus.Queued <==> row.lease.None?
  }

  lemma StepAdvances(cfg: Config, s: Sys, step: Step, b: BuildId)
    requires b in s.db.builds && LeasedOnceStarted(s.db.builds[b])
    ensures Advances(s.db.builds[b], NextRow(cfg, s, step, b)) && LeasedOnceStarted(NextRow(cfg, s, step, b))
  {
    hide RunningOf, S.NextBuild;
  }

  /** Over any run a build only moves forward, keeps its lease's holder and secret, and keeps its verdict. */
  lemma {:induction false} RunAdvances(cfg: Config, s: Sys, steps: seq<Step>, b: BuildId)
    requires b in s.db.builds && LeasedOnceStarted(s.db.builds[b])
    ensures var after := Run(cfg, s, steps);
            && b in after.db.builds
            && Advances(s.db.builds[b], after.db.builds[b])
            && LeasedOnceStarted(after.db.builds[b])
  {
    hide Next, NextRow;
    if steps != [] {
      var n := |steps| - 1;
      RunAdvances(cfg, s, steps[..n], b);
      NextRowIs(cfg, Run(cfg, s, steps[..n]), steps[n], b);
      StepAdvances(cfg, Run(cfg, s, steps[..n]), steps[n], b);
    }
  }

  // ---- one claim and one verdict ------------------------------------------------------

  function Finished(db: Db, b: BuildId): nat {
    if b in db.builds && Terminal(db.builds[b]) then 1 else 0
  }

  function Started(db: Db, b: BuildId): nat {
    if b in db.builds && db.builds[b].lease.Some? then 1 else 0
  }

  /** How many steps of the run wrote a verdict for b. */
  function Verdicts(cfg: Config, s: Sys, steps: seq<Step>, b: BuildId): nat {
    if steps == [] then 0
    else
      var n := |steps| - 1;
      var before := Run(cfg, s, steps[..n]);
      Verdicts(cfg, s, steps[..n], b) + if b in Reports(before, steps[n]) + Expiries(before, steps[n]) then 1 else 0
  }

  /** How many steps of the run leased b out. */
  function Grants(cfg: Config, s: Sys, steps: seq<Step>, b: BuildId): nat {
    if steps == [] then 0
    else
      var n := |steps| - 1;
      Grants(cfg, s, steps[..n], b) + if b in Granted(cfg, Run(cfg, s, steps[..n]), steps[n]) then 1 else 0
  }

  /** Rows enter the builds table queued and unleased. */
  lemma NewBuildsAreQueued(cfg: Config, s: Sys, step: Step, b: BuildId)
    requires b !in s.db.builds && b in Next(cfg, s, step).db.builds
    ensures Adds(step)
    ensures Next(cfg, s, step).db.builds[b].status == BuildStatus.Queued && Next(cfg, s, step).db.builds[b].lease.None?
    ensures Next(cfg, s, step).db.builds[b].createdAt == step.now
  {
    if !Adds(step) && !Schedules(step) {
      OthersKeepBuilds(cfg, s.(clock := step.now), step);
    }
  }

  lemma {:induction false} OneVerdict(cfg: Config, steps: seq<Step>, b: BuildId)
    ensures Verdicts(cfg, INIT, steps, b) == Finished(Run(cfg, INIT, steps).db, b)
    ensures Grants(cfg, INIT, steps, b) == Started(Run(cfg, INIT, steps).db, b)
    ensures b in Run(cfg, INIT, steps).db.builds ==> LeasedOnceStarted(Run(cfg, INIT, steps).db.builds[b])
  {
    if steps != [] {
      var n := |steps| - 1;
      var s := Run(cfg, INIT, steps[..n]);
      OneVerdict(cfg, steps[..n], b);
      if b in s.db.builds {
        NextRowIs(cfg, s, steps[n], b);
        StepAdvances(cfg, s, steps[n], b);
      } else if b in Next(cfg, s, steps[n]).db.builds {
        NewBuildsAreQueued(cfg, s, steps[n], b);
      }
      hide Next, RunningOf, S.NextBuild;
    }
  }

  // ---- a lease renewed in time -----------------------------------------------------------

  predicate IsRenewal(step: Step, b: BuildId, worker: WorkerId, secret: Secret) {
    step.Renew? && step.b == b && step.worker == worker && step.secret == secret
  }

  predicate IsCompletion(step: Step, b: BuildId, worker: WorkerId, secret: Secret) {
    step.Complete? && step.b == b && step.worker == worker && step.secret == secret
  }

  /** The clock reading the last renewal extends from, or that of the claim if there is none. */
  function LastReading(steps: seq<Step>, b: BuildId, worker: WorkerId, secret: Secret, claimed: Time): Time {
    if steps == [] then claimed
    else
      var n := |steps| - 1;
      if IsRenewal(steps[n], b, worker, secret) then steps[n].extended else LastReading(steps[..n], b, worker, secret, claimed)
  }

  /** Steps are dated in order and every renewal executes within two minutes of the reading before it. */
  predicate Timely(clock: Time, steps: seq<Step>, b: BuildId, worker: WorkerId, secret: Secret, claimed: Time) {
    if steps == [] then true
    else
      var n := |steps| - 1;
      && Timely(clock, steps[..n], b, worker, secret, claimed)
      && (if n == 0 then clock else steps[n - 1].now) <= steps[n].now
      && !IsCompletion(steps[n], b, worker, secret)
      && (IsRenewal(steps[n], b, worker, secret) ==>
            && steps[n].asked <= steps[n].extended <= steps[n].now
            && steps[n].now < LastReading(steps[..n], b, worker, secret, claimed) + LEASE_TIME)
  }

  predicate Keeps(row: Build, worker: WorkerId, secret: Secret, reading: Time) {
    && row.status == BuildStatus.Running
    && row.lease.Some?
    && row.lease.value.worker == worker && row.lease.value.secret == secret
    && row.lease.value.expiresAt == reading + LEASE_TIME
  }

  lemma StepKeepsLease(cfg: Config, s: Sys, step: Step, b: BuildId, worker: WorkerId, secret: Secret, reading: Time)
    requires b in s.db.builds && Keeps(s.db.builds[b], worker, secret, reading)
    requires step.now < reading + LEASE_TIME && !IsCompletion(step, b, worker, secret)
    requires IsRenewal(step, b, worker, secret) ==> Happens(s, step) && step.asked <= step.extended <= step.now
    ensures Keeps(NextRow(cfg, s, step, b), worker, secret, if IsRenewal(step, b, worker, secret) then step.extended else reading)
  {
    hide RunningOf, S.NextBuild;
  }

  lemma {:induction false} ClockIs(cfg: Config, s: Sys, steps: seq<Step>, b: BuildId, worker: WorkerId, secret: Secret, claimed: Time)
    requires Timely(s.clock, steps, b, worker, secret, claimed)
    ensures Run(cfg, s, steps).clock == if steps == [] then s.clock else steps[|steps| - 1].now
  {
    if steps != [] {
      var n := |steps| - 1;
      ClockIs(cfg, s, steps[..n], b, worker, secret, claimed);
      NextClock(cfg, Run(cfg, s, steps[..n]), steps[n]);
      hide Next;
    }
  }

  lemma NextClock(cfg: Config, s: Sys, step: Step)
    ensures Next(cfg, s, step).clock == if step.now >= s.clock then step.now else s.clock
  {}

  /** If no gap between claim, renewals and the present reaches two minutes, nobody takes the build away. */
  lemma {:induction false} RenewedLeaseSurvives(cfg: Config, s: Sys, steps: seq<Step>, b: BuildId, worker: WorkerId,
                                               secret: Secret, claimed: Time, present: Time)
    requires b in s.db.builds && Keeps(s.db.builds[b], worker, secret, claimed)
    requires Timely(s.clock, steps, b, worker, secret, claimed)
    requires (if steps == [] then s.clock else steps[|steps| - 1].now) <= present
    requires present < LastReading(steps, b, worker, secret, claimed) + LEASE_TIME
    ensures b in Run(cfg, s, steps).db.builds
    ensures Keeps(Run(cfg, s, steps).db.builds[b], worker, secret, LastReading(steps, b, worker, secret, claimed))
  {
    if steps != [] {
      hide Next, NextRow, Keeps;
      var n := |steps| - 1;
      var before := Run(cfg, s, steps[..n]);
      assert steps[..n] != [] ==> steps[..n][n - 1] == steps[n - 1];
      RenewedLeaseSurvives(cfg, s, steps[..n], b, worker, secret, claimed, steps[n].now);
      ClockIs(cfg, s, steps[..n], b, worker, secret, claimed);
      NextRowIs(cfg, before, steps[n], b);
      StepKeepsLease(cfg, before, steps[n], b, worker, secret, LastReading(steps[..n], b, worker, secret, claimed));
    }
  }

  /** From the claim to the worker's report: the report is accepted and decides the verdict. */
  lemma {:induction false} TimelyReportIsAccepted(cfg: Config, s: Sys, claim: Step, steps: seq<Step>, report: Step)
    requires claim.Claim? && Happens(s, claim) && Obtains(cfg, s, claim).Some?
    requires IsCompletion(report, Obtains(cfg, s, claim).value, claim.worker, claim.secret)
    requires Timely(claim.now, steps, report.b, claim.worker, claim.secret, claim.asked)
    requires (if steps == [] then claim.now else steps[|steps| - 1].now) <= report.now
    requires report.now < LastReading(steps, report.b, claim.worker, claim.secret, claim.asked) + LEASE_TIME
    ensures var before := Run(cfg, s, [claim] + steps);
            && Reports(before, report) == {report.b}
            && report.b in Next(cfg, before, report).db.builds
            && Next(cfg, before, report).db.builds[report.b].status
               == if report.error == "" then BuildStatus.Succeeded else BuildStatus.Failed
  {
    var b := report.b;
    var leased := Next(cfg, s, claim);
    assert Run(cfg, s, [claim]) == leased by {
      assert [claim][..0] == [];
      hide Next;
    }
    RunAppend(cfg, s, [claim], steps);
    NextRowIs(cfg, s, claim, b);
    NextClock(cfg, s, claim);
    hide Next, RunningOf, S.NextBuild;
    RenewedLeaseSurvives(cfg, leased, steps, b, claim.worker, claim.secret, claim.asked, report.now);
    ClockIs(cfg, leased, steps, b, claim.worker, claim.secret, claim.asked);
    NextRowIs(cfg, Run(cfg, leased, steps), report, b);
  }
}
