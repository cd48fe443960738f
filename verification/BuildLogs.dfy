/** Build logs written by racing requests, and the polling reader that streams them. */
module BuildLogs {
  import opened Tables
  import opened System
  import opened Counters
  import W = Workspaces
  import S = Scheduler
  import A = Agents

  predicate Reaches(db: Db, b: BuildId, n: nat) {
    forall k :: 1 <= k < n ==> (b, k) in db.logs
  }

  ghost predicate Gapless(db: Db) {
    forall e :: e in db.logs ==> e.1 >= 1 && Reaches(db, e.0, e.1)
  }

  /** Also for the numbers that logs requests have read and not yet used. */
  ghost predicate LogsInOrder(s: Sys) {
    && Gapless(s.db)
    && forall id :: id in s.writers && s.writers[id].Holding? ==>
         s.writers[id].n >= 1 && Reaches(s.db, s.writers[id].build, s.writers[id].n)
  }

  function Length(db: Db, b: BuildId): nat {
    MaxOrZero(S.LogNumbers(db, b))
  }

  lemma LengthIs(db: Db, b: BuildId, n: nat)
    requires Gapless(db)
    ensures (b, n) in db.logs <==> 1 <= n <= Length(db, b)
  {
    var numbers := S.LogNumbers(db, b);
    assert (b, n) in db.logs ==> n in numbers;
    if 1 <= n <= Length(db, b) {
      assert (b, Length(db, b)) in db.logs;
      assert Reaches(db, b, Length(db, b));
    }
  }

  ghost predicate OnlyGrows(db: Db, after: Db) {
    forall e :: e in db.logs ==> e in after.logs && after.logs[e] == db.logs[e]
  }

  lemma InsertKeepsOrder(db: Db, b: BuildId, n: nat, row: LogRow)
    requires Gapless(db) && n >= 1 && Reaches(db, b, n)
    ensures Gapless(S.InsertLog(db, b, n, row).Or(db)) && OnlyGrows(db, S.InsertLog(db, b, n, row).Or(db))
  {
    var after := S.InsertLog(db, b, n, row).Or(db);
    forall e | e in after.logs ensures e.1 >= 1 && Reaches(after, e.0, e.1) {
      if e != (b, n) || e in db.logs {
        assert Reaches(db, e.0, e.1);
      }
    }
  }

  lemma NextLogReaches(db: Db, b: BuildId)
    requires Gapless(db)
    ensures Reaches(db, b, S.NextLog(db, b))
  {
    forall k | 1 <= k < S.NextLog(db, b) ensures (b, k) in db.logs {
      LengthIs(db, b, k);
    }
  }

  lemma OthersKeepLogs(cfg: Config, s: Sys, step: Step)
    requires !step.LogRead? && !step.LogInsert? && !step.LogCheck?
    ensures Apply(cfg, s, step).db.logs == s.db.logs && Apply(cfg, s, step).writers == s.writers
  {
    hide RunningOf, S.NextBuild, W.CheckCreateQuota, W.CheckStartQuota, W.BuildClashes, W.NextSequence, W.FirstBuild, W.HasActiveBuild;
    hide A.EnrollmentClashes, A.SilentWorkspaces, A.Report, S.Holds, S.Overdue;
  }

  lemma StepKeepsLogsInOrder(cfg: Config, s: Sys, step: Step)
    requires LogsInOrder(s)
    ensures LogsInOrder(Next(cfg, s, step)) && OnlyGrows(s.db, Next(cfg, s, step).db)
  {
    if !Happens(s, step) {
    } else if step.LogRead? {
      if step.id in s.writers {
        NextLogReaches(s.db, s.writers[step.id].build);
      }
    } else if step.LogInsert? {
      if step.id in s.writers && s.writers[step.id].Holding? {
        InsertKeepsOrder(s.db, s.writers[step.id].build, s.writers[step.id].n, step.row);
      }
    } else if !step.LogCheck? {
      OthersKeepLogs(cfg, s.(clock := step.now), step);
      hide Apply;
    }
  }

  lemma {:induction false} RunKeepsLogsInOrder(cfg: Config, s: Sys, steps: seq<Step>)
    requires LogsInOrder(s)
    ensures LogsInOrder(Run(cfg, s, steps)) && OnlyGrows(s.db, Run(cfg, s, steps).db)
  {
    if steps != [] {
      hide Next, LogsInOrder;
      var n := |steps| - 1;
      RunKeepsLogsInOrder(cfg, s, steps[..n]);
      StepKeepsLogsInOrder(cfg, Run(cfg, s, steps[..n]), steps[n]);
    }
  }

  // ---- the streaming reader -------------------------------------------------------------------

  datatype Event = Event(id: nat, row: LogRow)

  /** The log of b: its rows, numbered from 1. */
  function Log(db: Db, b: BuildId): (log: seq<Event>)
    ensures |log| == Length(db, b)
    ensures forall i :: 0 <= i < |log| ==> log[i].id == i + 1
  {
    seq(Length(db, b), (i: nat) => Event(i + 1, if (b, i + 1) in db.logs then db.logs[(b, i + 1)] else LogRow("", "")))
  }

  /** What a reader at different moments of one run sees. */
  ghost predicate Successive(moments: seq<Db>) {
    && (forall i :: 0 <= i < |moments| ==> Gapless(moments[i]))
    && (forall i, j :: 0 <= i <= j < |moments| ==> OnlyGrows(moments[i], moments[j]))
  }

  lemma LogGrows(db: Db, after: Db, b: BuildId)
    requires Gapless(db) && Gapless(after) && OnlyGrows(db, after)
    ensures Log(db, b) <= Log(after, b)
  {
    forall n | 1 <= n <= Length(db, b)
      ensures n <= Length(after, b) && (b, n) in db.logs && (b, n) in after.logs && after.logs[(b, n)] == db.logs[(b, n)]
    {
      LengthIs(db, b, n);
      LengthIs(after, b, n);
    }
    if Length(db, b) >= 1 {
      LengthIs(db, b, Length(db, b));
      LengthIs(after, b, Length(db, b));
    }
    forall i | 0 <= i < |Log(db, b)| ensures i < |Log(after, b)| && Log(db, b)[i] == Log(after, b)[i] {
      assert 1 <= i + 1 <= Length(db, b);
    }
  }

  // ---- what is in the log ------------------------------------------------------------------------

  /** A free number that the log reaches is the next one, and its line comes at the end, just as it was sent.
      No other log changes. */
  lemma InsertAppends(db: Db, b: BuildId, n: nat, row: LogRow)
    requires Gapless(db) && n >= 1 && Reaches(db, b, n) && (b, n) !in db.logs && b in db.builds
    ensures var txn := S.InsertLog(db, b, n, row);
            && txn.Committed? && txn.db == db.(logs := txn.db.logs)
            && Log(txn.db, b) == Log(db, b) + [Event(Length(db, b) + 1, row)]
            && forall c :: c != b ==> Log(txn.db, c) == Log(db, c)
  {
    var after := S.InsertLog(db, b, n, row).db;
    InsertKeepsOrder(db, b, n, row);
    LengthIs(db, b, n);
    LengthIs(db, b, n - 1);
    LengthIs(after, b, n);
    LengthIs(after, b, n + 1);
    LengthIs(db, b, n + 1);
    LengthIs(after, b, Length(after, b));
    LengthIs(db, b, Length(after, b));
    assert n == Length(db, b) + 1 && Length(after, b) == n;
    forall c | c != b ensures Log(after, c) == Log(db, c) {
      assert S.LogNumbers(after, c) == S.LogNumbers(db, c);
      SameNumbers(after, db, c);
    }
  }

  lemma SameNumbers(db: Db, other: Db, b: BuildId)
    requires S.LogNumbers(db, b) == S.LogNumbers(other, b)
    ensures Length(db, b) == Length(other, b)
  {}

  /** A taken number, or a build that does not exist, changes nothing. */
  lemma InsertRefused(db: Db, b: BuildId, n: nat, row: LogRow)
    ensures (b, n) in db.logs || b !in db.builds <==> S.InsertLog(db, b, n, row) == RolledBack(DuplicatedKey)
  {}

  /** An undisturbed logs request of a build's holder appends its line. */
  lemma RequestAppends(db: Db, b: BuildId, row: LogRow)
    requires Gapless(db) && b in db.builds
    ensures var txn := S.InsertLog(db, b, S.NextLog(db, b), row);
            txn.Committed? && Log(txn.db, b) == Log(db, b) + [Event(Length(db, b) + 1, row)]
  {
    NextLogReaches(db, b);
    LengthIs(db, b, S.NextLog(db, b));
    InsertAppends(db, b, S.NextLog(db, b), row);
  }

  /** The line a step adds to the log of b: an insert whose number is still free. */
  function Accepted(s: Sys, step: Step, b: BuildId): seq<LogRow> {
    if && Happens(s, step) && step.LogInsert? && step.id in s.writers && s.writers[step.id].Holding?
       && s.writers[step.id].build == b && b in s.db.builds && (b, s.writers[step.id].n) !in s.db.logs
    then [step.row] else []
  }

  function AcceptedRows(cfg: Config, s: Sys, steps: seq<Step>, b: BuildId): seq<LogRow> {
    if steps == [] then []
    else
      var n := |steps| - 1;
      AcceptedRows(cfg, s, steps[..n], b) + Accepted(Run(cfg, s, steps[..n]), steps[n], b)
  }

  /** Rows as events numbered from 1. */
  function Lines(rows: seq<LogRow>): seq<Event> {
    seq(|rows|, i requires 0 <= i < |rows| => Event(i + 1, rows[i]))
  }

  lemma StepLogs(cfg: Config, s: Sys, step: Step, b: BuildId, rows: seq<LogRow>)
    requires LogsInOrder(s) && Log(s.db, b) == Lines(rows)
    ensures Log(Next(cfg, s, step).db, b) == Lines(rows + Accepted(s, step, b))
  {
    hide Log;
    assert |Log(s.db, b)| == Length(s.db, b) == |rows|;
    assert rows + [] == rows;
    if Happens(s, step) && step.LogInsert? && step.id in s.writers && s.writers[step.id].Holding? {
      var writer := s.writers[step.id];
      InsertRefused(s.db, writer.build, writer.n, step.row);
      if (writer.build, writer.n) !in s.db.logs && writer.build in s.db.builds {
        InsertAppends(s.db, writer.build, writer.n, step.row);
        assert Lines(rows + [step.row]) == Lines(rows) + [Event(|rows| + 1, step.row)];
      }
    } else {
      OtherStepLogs(cfg, s, step);
      SameLog(s.db, Next(cfg, s, step).db, b);
    }
  }

  lemma OtherStepLogs(cfg: Config, s: Sys, step: Step)
    requires !(Happens(s, step) && step.LogInsert? && step.id in s.writers && s.writers[step.id].Holding?)
    ensures Next(cfg, s, step).db.logs == s.db.logs
  {
    if !step.LogRead? && !step.LogInsert? && !step.LogCheck? {
      OthersKeepLogs(cfg, s.(clock := step.now), step);
      hide Apply;
    }
  }

  lemma SameLog(db: Db, other: Db, b: BuildId)
    requires db.logs == other.logs
    ensures Log(db, b) == Log(other, b)
  {
    SameNumbers(db, other, b);
  }

  /** After any run a build's log is exactly the lines of the accepted inserts, in order, as they were sent. */
  lemma {:induction false} LogIsWhatWasAccepted(cfg: Config, steps: seq<Step>, b: BuildId)
    ensures LogsInOrder(Run(cfg, INIT, steps))
    ensures Log(Run(cfg, INIT, steps).db, b) == Lines(AcceptedRows(cfg, INIT, steps, b))
  {
    if steps != [] {
      hide Next, Log, LogsInOrder, Lines, Accepted;
      var n := |steps| - 1;
      LogIsWhatWasAccepted(cfg, steps[..n], b);
      StepKeepsLogsInOrder(cfg, Run(cfg, INIT, steps[..n]), steps[n]);
      StepLogs(cfg, Run(cfg, INIT, steps[..n]), steps[n], b, AcceptedRows(cfg, INIT, steps[..n], b));
    } else {
      assert S.LogNumbers(EMPTY_DB, b) == {};
    }
  }

  /** SELECT ... WHERE build_id = b AND sequence > cursor ORDER BY sequence. */
  method Select(db: Db, b: BuildId, cursor: nat) returns (entries: seq<Event>)
    requires Gapless(db)
    ensures entries == if cursor <= Length(db, b) then Log(db, b)[cursor..] else []
  {
    entries := [];
    var n := cursor;
    var remaining := set k | k in S.LogNumbers(db, b) && k > cursor;
    ghost var all := remaining;
    while remaining != {}
      invariant cursor <= n
      invariant remaining == set k | k in all && k > n
      invariant n > cursor ==> n <= Length(db, b)
      invariant entries == if n <= Length(db, b) then Log(db, b)[cursor..n] else []
      decreases remaining
    {
      var rank := map x | x in remaining :: 0;
      assert forall x :: x in remaining ==> x in rank;
      var k := First(rank).value;
      LengthIs(db, b, k);
      LengthIs(db, b, n + 1);
      assert n + 1 in all && n + 1 in remaining;
      assert Log(db, b)[cursor..n] + [Log(db, b)[n]] == Log(db, b)[cursor..n + 1];
      entries := entries + [Event(k, db.logs[(b, k)])];
      remaining := remaining - {k};
      n := k;
    }
    LengthIs(db, b, n + 1);
    assert (b, n + 1) in db.logs ==> n + 1 in all;
    assert n + 1 !in remaining;
    assert n >= Length(db, b);
    assert n <= Length(db, b) ==> Log(db, b)[cursor..n] == Log(db, b)[cursor..];
  }

  /** One poll's events: each is written and becomes the cursor. */
  method Send(delivered: seq<Event>, entries: seq<Event>) returns (after: seq<Event>, sequence: nat)
    requires forall j :: 0 <= j < |entries| ==> entries[j].id == |delivered| + j + 1
    ensures after == delivered + entries && sequence == |after|
  {
    after, sequence := delivered, |delivered|;
    for j := 0 to |entries|
      invariant after == delivered + entries[..j] && sequence == |after|
    {
      after := after + [entries[j]];
      sequence := entries[j].id;
    }
  }

  /** The polling loop, one poll per moment: the stream is exactly the log, in order, each line once. */
  method Stream(moments: seq<Db>, b: BuildId) returns (delivered: seq<Event>)
    requires Successive(moments)
    ensures delivered == if moments == [] then [] else Log(moments[|moments| - 1], b)
  {
    hide Log, Gapless, Length;
    var sequence := 0;
    delivered := [];
    for i := 0 to |moments|
      invariant sequence == |delivered|
      invariant delivered == if i == 0 then [] else Log(moments[i - 1], b)
    {
      if i > 0 {
        assert OnlyGrows(moments[i - 1], moments[i]);
        LogGrows(moments[i - 1], moments[i], b);
      }
      var entries := Select(moments[i], b, sequence);
      assert delivered + entries == Log(moments[i], b);
      forall j | 0 <= j < |entries| ensures entries[j].id == |delivered| + j + 1 {
        assert entries[j] == Log(moments[i], b)[|delivered| + j];
      }
      delivered, sequence := Send(delivered, entries);
    }
  }
}
