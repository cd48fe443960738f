/** What becomes of a lease, told by the requests and the clock alone, and when a request of its holder is heard. */
module LeaseTerms {
  import opened Wrappers
  import opened Tables
  import opened System
  import opened Counters
  import opened Leases
  import S = Scheduler

  // ---- one statement ---------------------------------------------------------------------------

  /** The row is leased to this worker under this secret until after the given moment. */
  predicate HeldUntilAfter(db: Db, b: BuildId, worker: WorkerId, secret: Secret, moment: Time) {
    && b in db.builds && db.builds[b].lease.Some?
    && var lease := db.builds[b].lease.value;
       lease.worker == worker && lease.secret == secret && moment < lease.expiresAt
  }

  /** A running build stays running exactly while its lease lasts beyond the present; otherwise it is failed now.
      No other build changes. */
  lemma ExpireIsExact(cfg: Config, s: Sys, now: Time)
    requires s.clock <= now
    ensures var after := Next(cfg, s, Expire(now)).db;
            && after.builds.Keys == s.db.builds.Keys
            && forall b :: b in s.db.builds ==>
                 var row, next := s.db.builds[b], after.builds[b];
                 if row.status == BuildStatus.Running && row.lease.Some? && row.lease.value.expiresAt <= now
                 then && next.status == BuildStatus.Failed && next.completedAt == Some(now) && next.error == Some(S.EXPIRED)
                      && next == row.(status := next.status, completedAt := next.completedAt, error := next.error)
                 else next == row
  {
    hide RunningOf, S.WithoutBuilds;
  }

  /** A report is accepted exactly from the holder of a running build before its lease ends. */
  lemma ReportIsExact(db: Db, b: BuildId, worker: WorkerId, secret: Secret, error: string, now: Time)
    ensures S.Complete(db, b, worker, secret, error, now).Committed?
        <==> HeldUntilAfter(db, b, worker, secret, now) && db.builds[b].status == BuildStatus.Running
    ensures !S.Complete(db, b, worker, secret, error, now).Committed? ==>
              S.Complete(db, b, worker, secret, error, now) == RolledBack(LeaseExpired)
    ensures S.Complete(db, b, worker, secret, error, now).Committed? ==>
              var after := S.Complete(db, b, worker, secret, error, now).db;
              && after.builds.Keys == db.builds.Keys
              && (forall c :: c in db.builds && c != b ==> after.builds[c] == db.builds[c])
              && after.builds[b].status == (if error == "" then BuildStatus.Succeeded else BuildStatus.Failed)
              && after.builds[b].completedAt == Some(now)
              && after.builds[b].error == (if error == "" then None else Some(error))
              && after.builds[b].lease == db.builds[b].lease
  {
    hide S.Released, S.Concluded;
  }

  predicate Finishes(was: Workspace, next: Workspace, transition: Transition, error: string, now: Time) {
    if error != "" then next == was.(observed := Observed.Failed)
    else
      match transition
      case Start => next == was.(observed := Observed.Running)
      case Stop => next == was.(observed := Observed.Stopped)
      case Delete => next == was.(observed := Observed.Deleted, deletedAt := Some(now))
  }

  /** Success of a delete build dates the deletion; no other workspace, and no deleted one, changes. */
  lemma ReportConcludes(db: Db, b: BuildId, worker: WorkerId, secret: Secret, error: string, now: Time)
    requires S.Complete(db, b, worker, secret, error, now).Committed?
    ensures var after := S.Complete(db, b, worker, secret, error, now).db;
            && after.workspaces.Keys == db.workspaces.Keys
            && forall w :: w in db.workspaces ==>
                 if w != db.builds[b].workspace || db.workspaces[w].deletedAt.Some? then after.workspaces[w] == db.workspaces[w]
                 else Finishes(db.workspaces[w], after.workspaces[w], db.builds[b].transition, error, now)
  {
    hide S.Released;
  }

  /** A renewal is accepted exactly from the holder before the lease ends, and moves its end to two minutes after the
      second reading. */
  lemma RenewalIsExact(db: Db, b: BuildId, worker: WorkerId, secret: Secret, asked: Time, extended: Time)
    ensures S.Renew(db, b, worker, secret, asked, extended).Committed? <==> HeldUntilAfter(db, b, worker, secret, asked)
    ensures !S.Renew(db, b, worker, secret, asked, extended).Committed? ==>
              S.Renew(db, b, worker, secret, asked, extended) == RolledBack(LeaseExpired)
    ensures S.Renew(db, b, worker, secret, asked, extended).Committed? ==>
              var after := S.Renew(db, b, worker, secret, asked, extended).db;
              && after == db.(builds := after.builds) && after.builds.Keys == db.builds.Keys
              && (forall c :: c in db.builds && c != b ==> after.builds[c] == db.builds[c])
              && after.builds[b].lease.Some?
              && after.builds[b].lease.value.expiresAt == extended + 2 * 60 * SECOND
              && after.builds[b] == db.builds[b].(lease := after.builds[b].lease)
              && after.builds[b].lease.value == db.builds[b].lease.value.(expiresAt := extended + 2 * 60 * SECOND)
  {}

  /** A logs request is admitted exactly from the holder before the lease ends. */
  lemma AdmissionIsExact(cfg: Config, s: Sys, id: RequestId, b: BuildId, worker: WorkerId, secret: Secret, asked: Time, now: Time)
    requires s.clock <= now && asked <= now && id !in s.writers
    ensures var after := Next(cfg, s, LogCheck(id, b, worker, secret, asked, now));
            && after.db == s.db
            && after.writers == if HeldUntilAfter(s.db, b, worker, secret, asked) then s.writers[id := Admitted(b)] else s.writers
  {}

  // ---- over whole runs ---------------------------------------------------------------------------

  datatype Verdict = Reported(at: Time, error: string) | RanOut(at: Time)

  // A lease's life: the present, the clock reading it extends from, and how it was decided.
  datatype Term = Term(clock: Time, reading: Time, verdict: Option<Verdict>)
  {
    function End(): Time {
      reading + 2 * 60 * SECOND
    }
  }

  function TermNext(term: Term, step: Step, b: BuildId, worker: WorkerId, secret: Secret): Term {
    if step.now < term.clock then term
    else
      var present := term.(clock := step.now);
      if IsRenewal(step, b, worker, secret) && step.asked <= step.extended <= step.now && step.asked < term.End() then
        present.(reading := step.extended)
      else if IsCompletion(step, b, worker, secret) && term.verdict.None? && step.now < term.End() then
        present.(verdict := Some(Reported(step.now, step.error)))
      else if step.Expire? && term.verdict.None? && term.End() <= step.now then
        present.(verdict := Some(RanOut(step.now)))
      else
        present
  }

  function TermAfter(term: Term, steps: seq<Step>, b: BuildId, worker: WorkerId, secret: Secret): Term {
    if steps == [] then term
    else TermNext(TermAfter(term, steps[..|steps| - 1], b, worker, secret), steps[|steps| - 1], b, worker, secret)
  }

  /** The row says what the term says; origin is the row when the term began. */
  predicate Follows(row: Build, origin: Build, term: Term, worker: WorkerId, secret: Secret) {
    && origin.lease.Some?
    && row.lease == Some(Lease(worker, secret, term.End(), origin.lease.value.startedAt))
    && match term.verdict
       case None => row.status == BuildStatus.Running && row.completedAt == origin.completedAt && row.error == origin.error
       case Some(verdict) => row.completedAt == Some(verdict.at) && Decided(row, verdict)
  }

  predicate Decided(row: Build, verdict: Verdict) {
    match verdict
    case Reported(_, error) =>
      if error == "" then row.status == BuildStatus.Succeeded && row.error == None
      else row.status == BuildStatus.Failed && row.error == Some(error)
    case RanOut(_) => row.status == BuildStatus.Failed && row.error == Some(S.EXPIRED)
  }

  lemma StepFollows(cfg: Config, s: Sys, step: Step, b: BuildId, origin: Build, term: Term, worker: WorkerId, secret: Secret)
    requires b in s.db.builds && s.clock == term.clock && Follows(s.db.builds[b], origin, term, worker, secret)
    ensures Follows(NextRow(cfg, s, step, b), origin, TermNext(term, step, b, worker, secret), worker, secret)
    ensures Next(cfg, s, step).clock == TermNext(term, step, b, worker, secret).clock
  {
    NextClock(cfg, s, step);
    hide Next, RunningOf, S.NextBuild, S.Complete;
    if step.Complete? {
      ReportIsExact(s.db, step.b, step.worker, step.secret, step.error, step.now);
    }
  }

  /** Over any run, whatever anyone does, a leased build's row is what its term says: renewed exactly by its holder's
      requests in time, decided by the first of its holder's report in time and an expiry after its end. */
  lemma {:induction false} LeaseIsItsTerm(cfg: Config, s: Sys, steps: seq<Step>, b: BuildId, worker: WorkerId, secret: Secret, claimed: Time)
    requires b in s.db.builds && Keeps(s.db.builds[b], worker, secret, claimed)
    ensures var after := Run(cfg, s, steps);
            var term := TermAfter(Term(s.clock, claimed, None), steps, b, worker, secret);
            b in after.db.builds && after.clock == term.clock && Follows(after.db.builds[b], s.db.builds[b], term, worker, secret)
  {
    if steps != [] {
      hide Next, NextRow, Follows, TermNext;
      var n := |steps| - 1;
      var before := Run(cfg, s, steps[..n]);
      LeaseIsItsTerm(cfg, s, steps[..n], b, worker, secret, claimed);
      NextRowIs(cfg, before, steps[n], b);
      StepFollows(cfg, before, steps[n], b, s.db.builds[b], TermAfter(Term(s.clock, claimed, None), steps[..n], b, worker, secret), worker, secret);
    }
  }

  lemma ClaimBegins(cfg: Config, s: Sys, claim: Step)
    requires claim.Claim? && Happens(s, claim) && Obtains(cfg, s, claim).Some?
    ensures var b := Obtains(cfg, s, claim).value;
            var after := Next(cfg, s, claim);
            && b in s.db.builds && b in after.db.builds && after.clock == claim.now
            && Keeps(after.db.builds[b], claim.worker, claim.secret, claim.asked)
            && after.db.builds[b].lease.value.startedAt == claim.now
  {
    hide RunningOf, S.NextBuild;
  }

  /** From the claim on, over any run: the holder's report is accepted exactly when nothing has been decided and it comes
      before two minutes have passed since the last reading; a late one changes no table. */
  lemma {:induction false} ReportIsHeardExactlyInTime(cfg: Config, s: Sys, claim: Step, steps: seq<Step>, report: Step)
    requires claim.Claim? && Happens(s, claim) && Obtains(cfg, s, claim).Some?
    requires IsCompletion(report, Obtains(cfg, s, claim).value, claim.worker, claim.secret)
    requires Happens(Run(cfg, Next(cfg, s, claim), steps), report)
    ensures var before := Run(cfg, Next(cfg, s, claim), steps);
            var after := Next(cfg, before, report).db;
            var term := TermAfter(Term(claim.now, claim.asked, None), steps, report.b, claim.worker, claim.secret);
            if term.verdict == None && report.now < term.End()
            then report.b in after.builds && Decided(after.builds[report.b], Reported(report.now, report.error))
                 && after.builds[report.b].completedAt == Some(report.now)
            else after == before.db
  {
    var leased := Next(cfg, s, claim);
    ClaimBegins(cfg, s, claim);
    hide Next, Obtains;
    LeaseIsItsTerm(cfg, leased, steps, report.b, claim.worker, claim.secret, claim.asked);
    ReportStep(cfg, Run(cfg, leased, steps), report);
    ReportIsExact(Run(cfg, leased, steps).db, report.b, report.worker, report.secret, report.error, report.now);
    hide S.Complete;
  }

  lemma ReportStep(cfg: Config, s: Sys, report: Step)
    requires report.Complete? && Happens(s, report)
    ensures Next(cfg, s, report).db == S.Complete(s.db, report.b, report.worker, report.secret, report.error, report.now).Or(s.db)
  {
    hide S.Complete;
  }

  /** Nobody renews or reports b in time. */
  predicate Unattended(steps: seq<Step>, b: BuildId, worker: WorkerId, secret: Secret, end: Time) {
    forall i :: 0 <= i < |steps| ==>
      && (IsRenewal(steps[i], b, worker, secret) ==> steps[i].asked >= end)
      && (IsCompletion(steps[i], b, worker, secret) ==> steps[i].now >= end)
  }

  /** When the first expiry runs that is dated at or after the end. */
  function FirstExpiry(clock: Time, steps: seq<Step>, end: Time): Option<Time> {
    if steps == [] then None
    else
      var n := |steps| - 1;
      var earlier := FirstExpiry(clock, steps[..n], end);
      if earlier.None? && steps[n].Expire? && steps[n].now >= end && steps[n].now >= Present(clock, steps[..n])
      then Some(steps[n].now) else earlier
  }

  /** The clock after these steps. */
  function Present(clock: Time, steps: seq<Step>): Time {
    if steps == [] then clock
    else
      var before := Present(clock, steps[..|steps| - 1]);
      if steps[|steps| - 1].now >= before then steps[|steps| - 1].now else before
  }

  lemma {:induction false} UnattendedTerm(clock: Time, claimed: Time, steps: seq<Step>, b: BuildId, worker: WorkerId, secret: Secret)
    requires Unattended(steps, b, worker, secret, claimed + 2 * 60 * SECOND)
    ensures var end := claimed + 2 * 60 * SECOND;
            var expiry := FirstExpiry(clock, steps, end);
            TermAfter(Term(clock, claimed, None), steps, b, worker, secret)
            == Term(Present(clock, steps), claimed, if expiry.Some? then Some(RanOut(expiry.value)) else None)
  {
    if steps != [] {
      UnattendedTerm(clock, claimed, steps[..|steps| - 1], b, worker, secret);
    }
  }

  /** A claimed build whose worker falls silent is failed by the first expiry dated at or after its last reading plus two
      minutes, and stays running and leased until then. */
  lemma {:induction false} UnattendedLeaseRunsOut(cfg: Config, s: Sys, steps: seq<Step>, b: BuildId, worker: WorkerId, secret: Secret, claimed: Time)
    requires b in s.db.builds && Keeps(s.db.builds[b], worker, secret, claimed)
    requires Unattended(steps, b, worker, secret, claimed + 2 * 60 * SECOND)
    ensures var after := Run(cfg, s, steps);
            var expiry := FirstExpiry(s.clock, steps, claimed + 2 * 60 * SECOND);
            b in after.db.builds &&
            if expiry.None? then Keeps(after.db.builds[b], worker, secret, claimed)
            else
              && after.db.builds[b].status == BuildStatus.Failed && after.db.builds[b].completedAt == expiry
              && after.db.builds[b].error == Some(S.EXPIRED)
  {
    LeaseIsItsTerm(cfg, s, steps, b, worker, secret, claimed);
    UnattendedTerm(s.clock, claimed, steps, b, worker, secret);
    hide Run, TermAfter, FirstExpiry, Unattended;
  }
}
