/** Repeating a creation request with the same key. */
module Idempotency {
  import opened Wrappers
  import opened Tables
  import opened System
  import opened Lifecycle
  import opened Counters
  import opened Quotas
  import W = Workspaces
  import S = Scheduler

  function KeyedTxn(cfg: Config, s: Sys, step: Step): Txn<W.Created>
    requires step.CreateKeyed?
  {
    W.CreateKeyed(cfg, s.db, step.request, step.key, step.hash, step.w, step.b, step.now)
  }

  /** A keyed request that inserts a workspace. */
  predicate CreatesFor(cfg: Config, s: Sys, step: Step, owner: OwnerId, key: string) {
    && Happens(s, step) && step.CreateKeyed? && step.key != "" && step.request.owner == owner && step.key == key
    && KeyedTxn(cfg, s, step).Committed? && KeyedTxn(cfg, s, step).value.isNew
  }

  /** The key answers with the workspace w and its first build b until it expires. */
  predicate Remembers(s: Sys, owner: OwnerId, key: string, row: KeyRow, b: BuildId) {
    && (owner, key) in s.db.keys && s.db.keys[(owner, key)] == row
    && row.workspace in s.db.workspaces && s.db.workspaces[row.workspace].owner == owner
    && row.workspace in s.history && |s.history[row.workspace]| >= 1 && s.history[row.workspace][0] == b
  }

  lemma CreationIsRemembered(cfg: Config, s: Sys, step: Step, owner: OwnerId, key: string)
    requires CreatesFor(cfg, s, step, owner, key)
    ensures Remembers(Next(cfg, s, step), owner, key, KeyRow(step.hash, step.w, step.now + KEY_TIME), step.b)
  {}

  lemma StepKeepsKey(cfg: Config, s: Sys, step: Step, owner: OwnerId, key: string)
    requires (owner, key) in s.db.keys && !CreatesFor(cfg, s, step, owner, key)
    ensures (owner, key) in Next(cfg, s, step).db.keys && Next(cfg, s, step).db.keys[(owner, key)] == s.db.keys[(owner, key)]
  {
    hide RunningOf, S.NextBuild, W.CheckCreateQuota, W.CheckStartQuota, W.BuildClashes;
  }

  lemma LiveKeyCreatesNothing(cfg: Config, s: Sys, step: Step, owner: OwnerId, key: string)
    requires (owner, key) in s.db.keys && step.now < s.db.keys[(owner, key)].expiresAt
    ensures !CreatesFor(cfg, s, step, owner, key)
  {}

  lemma OthersKeepHistory(cfg: Config, s: Sys, step: Step)
    requires !Adds(step)
    ensures Apply(cfg, s, step).history == s.history
  {
    hide RunningOf, S.NextBuild;
  }

  lemma AddsKeepOrigin(cfg: Config, s: Sys, step: Step, w: WorkspaceId)
    requires Adds(step) && w in s.db.workspaces && w in s.history
    ensures w in Apply(cfg, s, step).db.workspaces
    ensures Apply(cfg, s, step).db.workspaces[w].owner == s.db.workspaces[w].owner
    ensures w in Apply(cfg, s, step).history && s.history[w] <= Apply(cfg, s, step).history[w]
  {
    hide W.CheckCreateQuota, W.CheckStartQuota, W.BuildClashes, W.NextSequence;
  }

  /** The owner of a workspace row and the beginning of its history are permanent. */
  lemma StepKeepsOrigin(cfg: Config, s: Sys, step: Step, w: WorkspaceId)
    requires w in s.db.workspaces && w in s.history
    ensures w in Next(cfg, s, step).db.workspaces
    ensures Next(cfg, s, step).db.workspaces[w].owner == s.db.workspaces[w].owner
    ensures w in Next(cfg, s, step).history && s.history[w] <= Next(cfg, s, step).history[w]
  {
    if Happens(s, step) {
      var present := s.(clock := step.now);
      if Adds(step) {
        AddsKeepOrigin(cfg, present, step, w);
      } else {
        RestSlackens(cfg, present, step);
        OthersKeepHistory(cfg, present, step);
      }
      hide Apply;
    }
  }

  lemma {:induction false} KeyIsKept(cfg: Config, s: Sys, steps: seq<Step>, owner: OwnerId, key: string, row: KeyRow, b: BuildId)
    requires Consistent(s.db, s.history) && Remembers(s, owner, key, row, b)
    requires Run(cfg, s, steps).clock < row.expiresAt
    ensures Consistent(Run(cfg, s, steps).db, Run(cfg, s, steps).history)
    ensures Remembers(Run(cfg, s, steps), owner, key, row, b)
  {
    if steps != [] {
      hide Next, Consistent, CreatesFor;
      var n := |steps| - 1;
      var before := Run(cfg, s, steps[..n]);
      ClockMovesOn(cfg, before, steps[n]);
      KeyIsKept(cfg, s, steps[..n], owner, key, row, b);
      StepKeepsConsistent(cfg, before, steps[n]);
      StepKeepsOrigin(cfg, before, steps[n], row.workspace);
      if Happens(before, steps[n]) {
        LiveKeyCreatesNothing(cfg, before, steps[n], owner, key);
        StepKeepsKey(cfg, before, steps[n], owner, key);
      }
    }
  }

  lemma ClockMovesOn(cfg: Config, s: Sys, step: Step)
    ensures Next(cfg, s, step).clock >= s.clock
    ensures Happens(s, step) ==> Next(cfg, s, step).clock == step.now
    ensures !Happens(s, step) ==> Next(cfg, s, step) == s
  {}

  lemma FirstBuildIs(db: Db, history: History, w: WorkspaceId)
    requires Numbered(db, history) && w in history
    ensures W.FirstBuild(db, w) == Some(history[w][0])
  {
    var first := history[w][0];
    assert Placed(db, history[w][0], w, 1);
    var rank := map b | b in BuildsOf(db, w) :: db.builds[b].sequence;
    assert first in rank;
    assert W.FirstBuild(db, w) == First(rank);
    var lead := First(rank).value;
    assert InPlace(db.builds[lead], lead, history);
  }

  lemma RememberedAnswer(cfg: Config, s: Sys, step: Step, owner: OwnerId, row: KeyRow, b: BuildId)
    requires step.CreateKeyed? && step.request.owner == owner && step.now < row.expiresAt
    requires Numbered(s.db, s.history) && Remembers(s, owner, step.key, row, b)
    ensures KeyedTxn(cfg, s, step)
         == if step.hash != row.hash then RolledBack(KeyReused)
            else if s.db.workspaces[row.workspace].deletedAt.Some? then RolledBack(NotFound)
            else Committed(s.db, W.Created(row.workspace, b, false))
  {
    hide Numbered, W.Create, W.FirstBuild;
    FirstBuildIs(s.db, s.history, row.workspace);
  }

  /** Inside the ten minutes the same request answers with the same workspace and its sequence-1 build,
      whatever happened in between, until the workspace is deleted; a different request is refused.
      Either way nothing is created. */
  lemma {:induction false} RepeatReplays(cfg: Config, s: Sys, first: Step, steps: seq<Step>, again: Step)
    requires Consistent(s.db, s.history) && first.CreateKeyed? && CreatesFor(cfg, s, first, first.request.owner, first.key)
    requires again.CreateKeyed? && again.key == first.key && again.request.owner == first.request.owner
    requires Happens(Run(cfg, Next(cfg, s, first), steps), again) && again.now < first.now + KEY_TIME
    ensures var before := Run(cfg, Next(cfg, s, first), steps);
            && Next(cfg, before, again).db == before.db
            && first.w in before.db.workspaces
            && KeyedTxn(cfg, before, again)
               == if again.hash != first.hash then RolledBack(KeyReused)
                  else if before.db.workspaces[first.w].deletedAt.Some? then RolledBack(NotFound)
                  else Committed(before.db, W.Created(first.w, first.b, false))
  {
    assert again.key != "";
    hide Next, Consistent, KeyedTxn;
    var after := Next(cfg, s, first);
    var before := Run(cfg, after, steps);
    var row := KeyRow(first.hash, first.w, first.now + KEY_TIME);
    CreationIsRemembered(cfg, s, first, first.request.owner, first.key);
    StepKeepsConsistent(cfg, s, first);
    KeyIsKept(cfg, after, steps, first.request.owner, first.key, row, first.b);
    AgainIs(cfg, before, again);
    ConsistentIsNumbered(before);
    RememberedAnswer(cfg, before, again, first.request.owner, row, first.b);
  }

  lemma ConsistentIsNumbered(s: Sys)
    requires Consistent(s.db, s.history)
    ensures Numbered(s.db, s.history)
  {}

  lemma AgainIs(cfg: Config, s: Sys, step: Step)
    requires step.CreateKeyed? && step.key != "" && Happens(s, step)
    ensures Next(cfg, s, step).db == KeyedTxn(cfg, s, step).Or(s.db)
  {
    hide W.CreateKeyed;
  }

  /** Without a live key a request is a plain creation that also records the key for ten minutes. */
  lemma UnknownKeyCreates(cfg: Config, db: Db, request: W.Request, key: string, hash: Secret, w: WorkspaceId, b: BuildId, now: Time)
    requires (request.owner, key) in db.keys ==> db.keys[(request.owner, key)].expiresAt <= now
    ensures var keyed, plain := W.CreateKeyed(cfg, db, request, key, hash, w, b, now), W.Create(cfg, db, request, w, b, now);
            if plain.RolledBack? then keyed == RolledBack(plain.error)
            else keyed == Committed(plain.db.(keys := plain.db.keys[(request.owner, key) := KeyRow(hash, w, now + 10 * 60 * SECOND)]), plain.value)
  {
    hide W.Create;
  }

  lemma {:induction false} KeyRowStays(cfg: Config, s: Sys, steps: seq<Step>, owner: OwnerId, key: string)
    requires (owner, key) in s.db.keys
    requires forall i :: 0 <= i < |steps| ==> !CreatesFor(cfg, Run(cfg, s, steps[..i]), steps[i], owner, key)
    ensures (owner, key) in Run(cfg, s, steps).db.keys && Run(cfg, s, steps).db.keys[(owner, key)] == s.db.keys[(owner, key)]
  {
    if steps != [] {
      hide Next, CreatesFor;
      var n := |steps| - 1;
      forall i | 0 <= i < n ensures !CreatesFor(cfg, Run(cfg, s, steps[..n][..i]), steps[..n][i], owner, key) {
        assert steps[..n][..i] == steps[..i];
      }
      KeyRowStays(cfg, s, steps[..n], owner, key);
      StepKeepsKey(cfg, Run(cfg, s, steps[..n]), steps[n], owner, key);
    }
  }

  /** After ten minutes the key is forgotten: the next request creates exactly as one without a key would. */
  lemma {:induction false} KeyIsForgotten(cfg: Config, s: Sys, first: Step, steps: seq<Step>, again: Step)
    requires first.CreateKeyed? && CreatesFor(cfg, s, first, first.request.owner, first.key)
    requires var after := Next(cfg, s, first);
             forall i :: 0 <= i < |steps| ==> !CreatesFor(cfg, Run(cfg, after, steps[..i]), steps[i], first.request.owner, first.key)
    requires again.CreateKeyed? && again.key == first.key && again.request.owner == first.request.owner
    requires again.now >= first.now + 10 * 60 * SECOND
    ensures var before := Run(cfg, Next(cfg, s, first), steps);
            var plain := W.Create(cfg, before.db, again.request, again.w, again.b, again.now);
            if plain.RolledBack? then KeyedTxn(cfg, before, again) == RolledBack(plain.error)
            else KeyedTxn(cfg, before, again).Committed? && KeyedTxn(cfg, before, again).value == plain.value
  {
    hide Next, W.Create, CreatesFor;
    CreationIsRemembered(cfg, s, first, first.request.owner, first.key);
    KeyRowStays(cfg, Next(cfg, s, first), steps, first.request.owner, first.key);
    UnknownKeyCreates(cfg, Run(cfg, Next(cfg, s, first), steps).db, again.request, again.key, again.hash, again.w, again.b, again.now);
  }

  /** Two workspaces made with one owner's key are at least ten minutes apart. */
  lemma {:induction false} CreationsAreApart(cfg: Config, s: Sys, first: Step, steps: seq<Step>, again: Step)
    requires Consistent(s.db, s.history) && first.CreateKeyed? && CreatesFor(cfg, s, first, first.request.owner, first.key)
    requires CreatesFor(cfg, Run(cfg, Next(cfg, s, first), steps), again, first.request.owner, first.key)
    ensures again.now >= first.now + KEY_TIME
  {
    hide Next;
    if again.now < first.now + KEY_TIME {
      RepeatReplays(cfg, s, first, steps, again);
    }
  }
}
