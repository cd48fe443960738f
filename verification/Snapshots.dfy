/** State backups of internal/provisioner/state/local.go over whole runs. */
module Snapshots {
  import opened Text
  import opened Timestamps

  type Content = seq<bv8>

  datatype Entry = File(content: Content) | Directory

  type Dir = map<string, Entry>

  // The state files and backup directories, by workspace.
  datatype Files = Files(states: map<string, Content>, backups: map<string, Dir>)

  datatype Error = InvalidWorkspace | InvalidSnapshot | MissingSnapshot | NameTaken

  datatype Outcome<+T> = Done(files: Files, value: T) | Refused(error: Error)
  {
    function Or(before: Files): Files {
      if Done? then files else before
    }
  }

  const DEFAULT_RETENTION: nat := 14

  /** filepath.Base(value) == value, for a non-empty value. */
  predicate IsBase(value: string) {
    value != "" && '/' !in value
  }

  function BackupDir(files: Files, workspace: string): Dir {
    if workspace in files.backups then files.backups[workspace] else map[]
  }

  /** The names prune looks at. */
  function SnapshotNames(dir: Dir): set<string> {
    set n | n in dir && dir[n].File? && HasSuffix(n, SUFFIX)
  }

  function Newer(names: set<string>, name: string): set<string> {
    set m | m in names && Less(name, m)
  }

  /** The snapshots with at least retention newer ones. */
  function Outdated(dir: Dir, retention: nat): set<string> {
    set n | n in SnapshotNames(dir) && |Newer(SnapshotNames(dir), n)| >= retention
  }

  function Prune(dir: Dir, retention: nat): Dir {
    dir - Outdated(dir, retention)
  }

  /** The value is the name of the new snapshot, or empty if there is no state yet. */
  function BackedUp(files: Files, retention: nat, workspace: string, now: Civil): Outcome<string> {
    if !IsBase(workspace) then Refused(InvalidWorkspace)
    else if workspace !in files.states then Done(files, "")
    else
      var dir := BackupDir(files, workspace);
      if Name(now) in dir && dir[Name(now)].Directory? then Refused(NameTaken)
      else
        var added := dir[Name(now) := File(files.states[workspace])];
        Done(files.(backups := files.backups[workspace := Prune(added, retention)]), Name(now))
  }

  function Restored(files: Files, workspace: string, snapshot: string): Outcome<()> {
    if !IsBase(workspace) then Refused(InvalidWorkspace)
    else if !IsBase(snapshot) || !HasSuffix(snapshot, SUFFIX) then Refused(InvalidSnapshot)
    else
      var dir := BackupDir(files, workspace);
      if snapshot !in dir || dir[snapshot].Directory? then Refused(MissingSnapshot)
      else Done(files.(states := files.states[workspace := dir[snapshot].content]), ())
  }

  // ---- the store object -----------------------------------------------------------------------

  function SetOf(names: seq<string>): set<string> {
    set n | n in names
  }

  lemma DistinctNewer(names: seq<string>, i: nat)
    requires StrictlyAscending(names) && i < |names|
    ensures |Newer(SetOf(names), names[i])| == |names| - 1 - i
  {
    var all := SetOf(names);
    var rest := SetOf(names[i + 1..]);
    forall n ensures n in Newer(all, names[i]) <==> n in rest {
      if n in Newer(all, names[i]) {
        var j :| 0 <= j < |names| && names[j] == n;
        LessTrichotomy(names[i], names[j]);
        assert j > i;
        assert names[i + 1..][j - i - 1] == n;
      }
      if n in rest {
        var j :| 0 <= j < |names[i + 1..]| && names[i + 1..][j] == n;
        assert names[i + 1 + j] == n;
      }
    }
    assert Newer(all, names[i]) == rest;
    StrictSize(names[i + 1..]);
  }

  lemma {:induction false} StrictSize(names: seq<string>)
    requires StrictlyAscending(names)
    ensures |SetOf(names)| == |names|
  {
    if names != [] {
      var k := |names| - 1;
      StrictSize(names[..k]);
      var before := SetOf(names[..k]);
      assert SetOf(names) == before + {names[k]};
      if names[k] in before {
        var i :| 0 <= i < k && names[..k][i] == names[k];
        LessTrichotomy(names[i], names[k]);
      }
    }
  }

  class Local {
    const retention: nat
    var files: Files

    /** Opens the store over whatever files are there. */
    constructor (retention: nat, existing: Files)
      ensures this.retention == if retention == 0 then DEFAULT_RETENTION else retention
      ensures files == existing
    {
      this.retention := if retention == 0 then DEFAULT_RETENTION else retention;
      files := existing;
    }

    /** The snapshot files of a directory listing, sorted. */
    static method ListSnapshots(dir: Dir) returns (names: seq<string>)
      ensures StrictlyAscending(names) && SetOf(names) == SnapshotNames(dir)
    {
      hide Less, HasSuffix;
      var entries := dir.Keys;
      names := [];
      while entries != {}
        invariant entries <= dir.Keys
        invariant Distinct(names)
        invariant forall n :: n in names <==> n in SnapshotNames(dir) && n !in entries
        decreases entries
      {
        var n :| n in entries;
        entries := entries - {n};
        if dir[n].File? && HasSuffix(n, SUFFIX) {
          names := names + [n];
        }
      }
      SortedStrictly(names);
      names := Sorted(names);
    }

    /** Removes the oldest snapshots one by one while there are too many. */
    method PruneDir(workspace: string)
      requires workspace in files.backups
      modifies this
      ensures files == old(files).(backups := old(files).backups[workspace := Prune(old(files).backups[workspace], retention)])
    {
      hide Less, HasSuffix;
      var dir := files.backups[workspace];
      ghost var began := dir;
      var names := ListSnapshots(dir);
      ghost var all := names;
      ghost var gone := 0;
      while |names| > retention
        invariant gone + |names| == |all| && names == all[gone..]
        invariant |names| >= retention || gone == 0
        invariant dir == began - SetOf(all[..gone])
        decreases |names|
      {
        assert all[..gone + 1] == all[..gone] + [names[0]];
        assert SetOf(all[..gone + 1]) == SetOf(all[..gone]) + {names[0]};
        dir := dir - {names[0]};
        names := names[1..];
        gone := gone + 1;
      }
      RemovedAreOutdated(began, retention, all, gone);
      files := files.(backups := files.backups[workspace := dir]);
    }

    method Backup(workspace: string, now: Civil) returns (r: Outcome<string>)
      modifies this
      ensures r == BackedUp(old(files), retention, workspace, now)
      ensures files == r.Or(old(files))
    {
      if !IsBase(workspace) {
        return Refused(InvalidWorkspace);
      }
      if workspace !in files.states {
        return Done(files, "");
      }
      var source := files.states[workspace];
      var dir := BackupDir(files, workspace);
      var name := Name(now);
      if name in dir && dir[name].Directory? {
        return Refused(NameTaken);
      }
      files := files.(backups := files.backups[workspace := dir[name := File(source)]]);
      PruneDir(workspace);
      return Done(files, name);
    }

    method Restore(workspace: string, snapshot: string) returns (r: Outcome<()>)
      modifies this
      ensures r == Restored(old(files), workspace, snapshot)
      ensures files == r.Or(old(files))
    {
      if !IsBase(workspace) {
        return Refused(InvalidWorkspace);
      }
      if !IsBase(snapshot) || !HasSuffix(snapshot, SUFFIX) {
        return Refused(InvalidSnapshot);
      }
      var dir := BackupDir(files, workspace);
      if snapshot !in dir || dir[snapshot].Directory? {
        return Refused(MissingSnapshot);
      }
      files := files.(states := files.states[workspace := dir[snapshot].content]);
      return Done(files, ());
    }
  }

  lemma RemovedAreOutdated(dir: Dir, retention: nat, names: seq<string>, k: nat)
    requires StrictlyAscending(names) && SetOf(names) == SnapshotNames(dir)
    requires k == if |names| > retention then |names| - retention else 0
    ensures SetOf(names[..k]) == Outdated(dir, retention)
  {
    forall n ensures n in names[..k] <==> n in Outdated(dir, retention) {
      if n in names {
        var i :| 0 <= i < |names| && names[i] == n;
        DistinctNewer(names, i);
        if n in names[..k] {
          var j :| 0 <= j < k && names[..k][j] == n;
          LessTrichotomy(names[i], names[j]);
          assert i == j;
        }
        if i < k {
          assert names[..k][i] == n;
        }
      }
    }
  }

  // ---- over whole runs ------------------------------------------------------------------------

  datatype Step =
    | Write(workspace: string, content: Content)     // OpenTofu changes a state file
    | TakeBackup(workspace: string, now: Civil)
    | RestoreFrom(workspace: string, snapshot: string)

  function Next(files: Files, retention: nat, step: Step): Files {
    match step
    case Write(workspace, content) => files.(states := files.states[workspace := content])
    case TakeBackup(workspace, now) => BackedUp(files, retention, workspace, now).Or(files)
    case RestoreFrom(workspace, snapshot) => Restored(files, workspace, snapshot).Or(files)
  }

  function Run(files: Files, retention: nat, steps: seq<Step>): Files {
    if steps == [] then files
    else Next(Run(files, retention, steps[..|steps| - 1]), retention, steps[|steps| - 1])
  }

  datatype Snapshot = Snapshot(name: string, content: Content)

  /** The backups of a workspace that took place, oldest first, each with the state it copied. */
  function Taken(files: Files, retention: nat, steps: seq<Step>, workspace: string): seq<Snapshot> {
    if steps == [] then []
    else
      var n := |steps| - 1;
      var before := Run(files, retention, steps[..n]);
      var earlier := Taken(files, retention, steps[..n], workspace);
      if steps[n].TakeBackup? && steps[n].workspace == workspace && IsBase(workspace) && workspace in before.states
      then earlier + [Snapshot(Name(steps[n].now), before.states[workspace])]
      else earlier
  }

  /** A workspace's backups are dated in strictly increasing order. */
  predicate StrictlyDated(steps: seq<Step>, workspace: string) {
    && (forall i :: 0 <= i < |steps| && steps[i].TakeBackup? && steps[i].workspace == workspace ==> ValidTime(steps[i].now))
    && (forall i, j :: 0 <= i < j < |steps| && steps[i].TakeBackup? && steps[j].TakeBackup?
                       && steps[i].workspace == workspace && steps[j].workspace == workspace ==>
          Earlier(steps[i].now, steps[j].now))
  }

  function Newest(taken: seq<Snapshot>, retention: nat): seq<Snapshot> {
    if |taken| <= retention then taken else taken[|taken| - retention..]
  }

  function NamesOf(taken: seq<Snapshot>): seq<string> {
    seq(|taken|, i requires 0 <= i < |taken| => taken[i].name)
  }

  /** The directory's snapshots are exactly these, with these contents. */
  ghost predicate Contains(dir: Dir, kept: seq<Snapshot>) {
    && (forall i :: 0 <= i < |kept| ==> kept[i].name in SnapshotNames(dir) && dir[kept[i].name] == File(kept[i].content))
    && (forall n :: n in SnapshotNames(dir) ==> n in NamesOf(kept))
  }

  lemma NamesAdded(dir: Dir, kept: seq<Snapshot>, name: string, content: Content)
    requires Contains(dir, kept) && HasSuffix(name, SUFFIX)
    ensures SetOf(NamesOf(kept + [Snapshot(name, content)])) == SnapshotNames(dir[name := File(content)])
  {
    hide HasSuffix;
    var names := NamesOf(kept + [Snapshot(name, content)]);
    assert names == NamesOf(kept) + [name];
    forall n ensures n in names <==> n in SnapshotNames(dir[name := File(content)]) {
      if n in NamesOf(kept) {
        var i :| 0 <= i < |kept| && NamesOf(kept)[i] == n;
        assert kept[i].name == n;
      }
    }
  }

  lemma NewestNames(taken: seq<Snapshot>, retention: nat, k: nat)
    requires k == if |taken| > retention then |taken| - retention else 0
    ensures Newest(taken, retention) == taken[k..]
    ensures NamesOf(Newest(taken, retention)) == NamesOf(taken)[k..]
    ensures StrictlyAscending(NamesOf(taken)) ==> StrictlyAscending(NamesOf(Newest(taken, retention)))
    ensures |Newest(taken, retention)| == |taken| - k
  {
    hide Less;
  }

  /** Adding the newest snapshot and pruning keeps exactly the newest ones. */
  lemma PruneKeepsNewest(dir: Dir, kept: seq<Snapshot>, name: string, content: Content, retention: nat)
    requires retention >= 1 && |kept| <= retention && Contains(dir, kept)
    requires StrictlyAscending(NamesOf(kept + [Snapshot(name, content)])) && HasSuffix(name, SUFFIX)
    ensures Contains(Prune(dir[name := File(content)], retention), Newest(kept + [Snapshot(name, content)], retention))
  {
    hide HasSuffix, Less, Outdated;
    var all := kept + [Snapshot(name, content)];
    var names := NamesOf(all);
    var added := dir[name := File(content)];
    var k := if |names| > retention then |names| - retention else 0;
    NamesAdded(dir, kept, name, content);
    RemovedAreOutdated(added, retention, names, k);
    NewestNames(all, retention, k);
    hide Newest;
    var after := Prune(added, retention);
    assert SnapshotNames(after) == SnapshotNames(added) - SetOf(names[..k]);
    forall i | 0 <= i < |all[k..]| ensures all[k..][i].name in SnapshotNames(after) && after[all[k..][i].name] == File(all[k..][i].content) {
      var j := k + i;
      assert all[k..][i] == all[j] && names[j] == all[j].name;
      NotAmongFirst(names, k, j);
      assert names[j] in SetOf(names) && added[names[j]] == File(all[j].content) by {
        LastIsNew(names, j);
      }
    }
    forall n | n in SnapshotNames(after) ensures n in names[k..] {
      assert n in SetOf(names) && n !in SetOf(names[..k]);
      assert names == names[..k] + names[k..];
    }
  }

  lemma LastIsNew(names: seq<string>, j: nat)
    requires StrictlyAscending(names) && j < |names|
    ensures j < |names| - 1 ==> names[j] != names[|names| - 1]
  {
    if j < |names| - 1 {
      LessTrichotomy(names[j], names[|names| - 1]);
    }
  }

  lemma NotAmongFirst(names: seq<string>, k: nat, i: nat)
    requires StrictlyAscending(names) && k <= i < |names|
    ensures names[i] !in names[..k]
  {
    forall j | 0 <= j < k ensures names[..k][j] != names[i] {
      LessTrichotomy(names[j], names[i]);
    }
  }

  /** Nothing but snapshots has a snapshot's name. */
  predicate NoStrangers(dir: Dir) {
    forall n :: n in dir && HasSuffix(n, SUFFIX) ==> dir[n].File?
  }

  predicate Takes(files: Files, step: Step, workspace: string) {
    step.TakeBackup? && step.workspace == workspace && IsBase(workspace) && workspace in files.states
  }

  lemma OtherStepsKeepDir(files: Files, retention: nat, step: Step, workspace: string)
    requires !Takes(files, step, workspace)
    ensures BackupDir(Next(files, retention, step), workspace) == BackupDir(files, workspace)
  {}

  lemma BackupPrunes(files: Files, retention: nat, step: Step, workspace: string)
    requires Takes(files, step, workspace) && NoStrangers(BackupDir(files, workspace))
    ensures BackupDir(Next(files, retention, step), workspace)
         == Prune(BackupDir(files, workspace)[Name(step.now) := File(files.states[workspace])], retention)
    ensures NoStrangers(BackupDir(Next(files, retention, step), workspace))
  {
    NameEnds(step.now);
    hide HasSuffix, Outdated;
  }

  lemma NewestOfNewest(taken: seq<Snapshot>, next: Snapshot, retention: nat)
    requires retention >= 1
    ensures Newest(Newest(taken, retention) + [next], retention) == Newest(taken + [next], retention)
  {}

  /** Every snapshot taken is named after one of the dated steps. */
  predicate NamedAfter(taken: seq<Snapshot>, steps: seq<Step>, workspace: string) {
    forall i :: 0 <= i < |taken| ==> NamesAStep(taken[i].name, steps, workspace)
  }

  predicate NamesAStep(name: string, steps: seq<Step>, workspace: string) {
    exists j :: 0 <= j < |steps| && steps[j].TakeBackup? && steps[j].workspace == workspace && Name(steps[j].now) == name
  }

  lemma NextNameIsLast(taken: seq<Snapshot>, steps: seq<Step>, workspace: string, content: Content)
    requires steps != [] && steps[|steps| - 1].TakeBackup? && steps[|steps| - 1].workspace == workspace
    requires StrictlyDated(steps, workspace) && NamedAfter(taken, steps[..|steps| - 1], workspace)
    requires StrictlyAscending(NamesOf(taken))
    ensures StrictlyAscending(NamesOf(taken + [Snapshot(Name(steps[|steps| - 1].now), content)]))
  {
    hide Less, Name;
    var n := |steps| - 1;
    var all := taken + [Snapshot(Name(steps[n].now), content)];
    assert NamesOf(all) == NamesOf(taken) + [Name(steps[n].now)];
    forall i | 0 <= i < |taken| ensures Less(NamesOf(taken)[i], Name(steps[n].now)) {
      assert NamesAStep(taken[i].name, steps[..n], workspace);
      var j :| 0 <= j < n && steps[..n][j].TakeBackup? && steps[..n][j].workspace == workspace && Name(steps[..n][j].now) == taken[i].name;
      assert steps[..n][j] == steps[j];
      NamesSortByTime(steps[j].now, steps[n].now);
    }
  }

  lemma NamesTail(taken: seq<Snapshot>, next: Snapshot, retention: nat)
    requires StrictlyAscending(NamesOf(taken + [next]))
    ensures StrictlyAscending(NamesOf(Newest(taken, retention) + [next]))
  {
    hide Less;
    var k := if |taken| > retention then |taken| - retention else 0;
    assert Newest(taken, retention) + [next] == (taken + [next])[k..];
    var names, tail := NamesOf(taken + [next]), NamesOf(Newest(taken, retention) + [next]);
    assert forall i :: 0 <= i < |tail| ==> tail[i] == names[k + i];
  }

  lemma PrefixIsDated(steps: seq<Step>, workspace: string)
    requires steps != [] && StrictlyDated(steps, workspace)
    ensures StrictlyDated(steps[..|steps| - 1], workspace)
  {
    hide Earlier, ValidTime;
    assert forall i :: 0 <= i < |steps| - 1 ==> steps[..|steps| - 1][i] == steps[i];
  }

  /** After any run, the backup directory holds exactly the newest min(n, retention) of the n backups taken. */
  lemma {:induction false} NewestAreKept(files: Files, retention: nat, steps: seq<Step>, workspace: string)
    requires retention >= 1 && StrictlyDated(steps, workspace)
    requires forall n :: n in BackupDir(files, workspace) ==> !HasSuffix(n, SUFFIX)
    ensures Contains(BackupDir(Run(files, retention, steps), workspace), Newest(Taken(files, retention, steps, workspace), retention))
    ensures NoStrangers(BackupDir(Run(files, retention, steps), workspace))
    ensures StrictlyAscending(NamesOf(Taken(files, retention, steps, workspace)))
    ensures NamedAfter(Taken(files, retention, steps, workspace), steps, workspace)
  {
    hide Less, Name, Next, Prune, Earlier, ValidTime, HasSuffix, Contains, NoStrangers;
    if steps == [] {
      EmptyDir(BackupDir(files, workspace));
    } else {
      var n := |steps| - 1;
      var before := Run(files, retention, steps[..n]);
      var taken := Taken(files, retention, steps[..n], workspace);
      PrefixIsDated(steps, workspace);
      NewestAreKept(files, retention, steps[..n], workspace);
      StillNamedAfter(taken, steps, workspace);
      if Takes(before, steps[n], workspace) {
        var content := before.states[workspace];
        var next := Snapshot(Name(steps[n].now), content);
        NextNameIsLast(taken, steps, workspace, content);
        NamesTail(taken, next, retention);
        NameEnds(steps[n].now);
        BackupPrunes(before, retention, steps[n], workspace);
        PruneKeepsNewest(BackupDir(before, workspace), Newest(taken, retention), next.name, content, retention);
        NewestOfNewest(taken, next, retention);
        NamedAfterNext(taken, steps, workspace, content);
      } else {
        OtherStepsKeepDir(before, retention, steps[n], workspace);
      }
    }
  }

  lemma EmptyDir(dir: Dir)
    requires forall n :: n in dir ==> !HasSuffix(n, SUFFIX)
    ensures Contains(dir, []) && NoStrangers(dir)
  {}

  lemma StillNamedAfter(taken: seq<Snapshot>, steps: seq<Step>, workspace: string)
    requires steps != [] && NamedAfter(taken, steps[..|steps| - 1], workspace)
    ensures NamedAfter(taken, steps, workspace)
  {
    hide Name;
    var n := |steps| - 1;
    forall i | 0 <= i < |taken|
      ensures NamesAStep(taken[i].name, steps, workspace)
    {
      assert NamesAStep(taken[i].name, steps[..n], workspace);
      var j :| 0 <= j < n && steps[..n][j].TakeBackup? && steps[..n][j].workspace == workspace && Name(steps[..n][j].now) == taken[i].name;
      assert steps[..n][j] == steps[j];
    }
  }

  lemma NamedAfterNext(taken: seq<Snapshot>, steps: seq<Step>, workspace: string, content: Content)
    requires steps != [] && NamedAfter(taken, steps, workspace)
    requires steps[|steps| - 1].TakeBackup? && steps[|steps| - 1].workspace == workspace
    ensures NamedAfter(taken + [Snapshot(Name(steps[|steps| - 1].now), content)], steps, workspace)
  {
    hide Name;
  }

  lemma {:induction false} RunAppend(files: Files, retention: nat, first: seq<Step>, second: seq<Step>, workspace: string)
    ensures Run(files, retention, first + second) == Run(Run(files, retention, first), retention, second)
    ensures Taken(files, retention, first + second, workspace)
         == Taken(files, retention, first, workspace) + Taken(Run(files, retention, first), retention, second, workspace)
  {
    hide Next;
    if second == [] {
      assert first + second == first;
    } else {
      var n := |second| - 1;
      assert (first + second)[..|first + second| - 1] == first + second[..n];
      RunAppend(files, retention, first, second[..n], workspace);
    }
  }

  /** The directory holds min(n, retention) snapshots after n backups. */
  lemma {:induction false} RetentionBoundsSnapshots(files: Files, retention: nat, steps: seq<Step>, workspace: string)
    requires retention >= 1 && StrictlyDated(steps, workspace)
    requires forall n :: n in BackupDir(files, workspace) ==> !HasSuffix(n, SUFFIX)
    ensures var n := |Taken(files, retention, steps, workspace)|;
            |SnapshotNames(BackupDir(Run(files, retention, steps), workspace))| == if n < retention then n else retention
  {
    hide Less, Name, HasSuffix, Earlier, ValidTime, Contains, Run, Taken, NamesOf;
    NewestAreKept(files, retention, steps, workspace);
    var taken := Taken(files, retention, steps, workspace);
    NewestNames(taken, retention, if |taken| > retention then |taken| - retention else 0);
    SnapshotCount(BackupDir(Run(files, retention, steps), workspace), Newest(taken, retention));
  }

  lemma SnapshotCount(dir: Dir, kept: seq<Snapshot>)
    requires Contains(dir, kept) && StrictlyAscending(NamesOf(kept))
    ensures |SnapshotNames(dir)| == |kept|
  {
    hide Less, HasSuffix;
    var names := NamesOf(kept);
    StrictSize(names);
    assert SetOf(names) == SnapshotNames(dir);
  }

  /** Which snapshot is still there, by its place among all that were taken. */
  lemma KeptByPlace(dir: Dir, taken: seq<Snapshot>, retention: nat, at: nat)
    requires StrictlyAscending(NamesOf(taken)) && at < |taken| && Contains(dir, Newest(taken, retention))
    ensures taken[at].name in SnapshotNames(dir) <==> |taken| - at <= retention
    ensures taken[at].name in SnapshotNames(dir) ==> dir[taken[at].name] == File(taken[at].content)
  {
    hide Less, HasSuffix;
    var k := if |taken| > retention then |taken| - retention else 0;
    NewestNames(taken, retention, k);
    if at >= k {
      assert Newest(taken, retention)[at - k] == taken[at];
    } else {
      forall i | k <= i < |taken| ensures NamesOf(taken)[i] != taken[at].name {
        LessTrichotomy(NamesOf(taken)[at], NamesOf(taken)[i]);
      }
      assert taken[at].name !in NamesOf(taken)[k..];
    }
  }

  lemma {:induction false} RestorableByName(files: Files, retention: nat, before: seq<Step>, now: Civil, later: seq<Step>, workspace: string)
    requires retention >= 1 && StrictlyDated(before + [TakeBackup(workspace, now)] + later, workspace)
    requires forall n :: n in BackupDir(files, workspace) ==> !HasSuffix(n, SUFFIX)
    requires Takes(Run(files, retention, before), TakeBackup(workspace, now), workspace)
    ensures var saved := Run(files, retention, before);
            var backups := Taken(Next(saved, retention, TakeBackup(workspace, now)), retention, later, workspace);
            var after := Run(files, retention, before + [TakeBackup(workspace, now)] + later);
            Restored(after, workspace, Name(now))
            == if |backups| <= retention - 1
               then Done(after.(states := after.states[workspace := saved.states[workspace]]), ())
               else Refused(MissingSnapshot)
  {
    var backup := TakeBackup(workspace, now);
    var saved := Run(files, retention, before);
    var steps := before + [backup] + later;
    hide Name, HasSuffix, Next, Less, Restored, Earlier, ValidTime, Contains, Run, Taken, NamesOf, Newest;
    TakenInOrder(files, retention, before, now, later, workspace);
    NewestAreKept(files, retention, steps, workspace);
    var taken := Taken(files, retention, steps, workspace);
    var at := |Taken(files, retention, before, workspace)|;
    assert taken[at] == Snapshot(Name(now), saved.states[workspace]);
    KeptByPlace(BackupDir(Run(files, retention, steps), workspace), taken, retention, at);
    RestoredByName(Run(files, retention, steps), workspace, now);
  }

  /** The name a backup answers with is good for the next retention - 1 backups, and no more: until then restoring it
      brings back the state that was backed up, and afterwards it is missing. */
  lemma {:induction false} SnapshotStaysRestorable(files: Files, retention: nat, before: seq<Step>, now: Civil, later: seq<Step>, workspace: string)
    requires retention >= 1 && StrictlyDated(before + [TakeBackup(workspace, now)] + later, workspace)
    requires forall n :: n in BackupDir(files, workspace) ==> !HasSuffix(n, SUFFIX)
    requires Takes(Run(files, retention, before), TakeBackup(workspace, now), workspace)
    ensures var saved := Run(files, retention, before);
            var backup := BackedUp(saved, retention, workspace, now);
            var backups := Taken(Next(saved, retention, TakeBackup(workspace, now)), retention, later, workspace);
            var after := Run(files, retention, before + [TakeBackup(workspace, now)] + later);
            backup.Done? && backup.value != "" &&
            Restored(after, workspace, backup.value)
            == if |backups| <= retention - 1
               then Done(after.(states := after.states[workspace := saved.states[workspace]]), ())
               else Refused(MissingSnapshot)
  {
    hide Name, Next, Taken, Restored, Earlier, ValidTime, HasSuffix;
    RestorableByName(files, retention, before, now, later, workspace);
    assert before + ([TakeBackup(workspace, now)] + later) == before + [TakeBackup(workspace, now)] + later;
    PartIsDated(before, [TakeBackup(workspace, now)] + later, workspace);
    NewestAreKept(files, retention, before, workspace);
    BackupAnswers(Run(files, retention, before), retention, workspace, now);
  }

  lemma PartIsDated(first: seq<Step>, second: seq<Step>, workspace: string)
    requires StrictlyDated(first + second, workspace)
    ensures StrictlyDated(first, workspace)
  {
    hide Earlier, ValidTime;
    assert forall i :: 0 <= i < |first| ==> (first + second)[i] == first[i];
  }

  lemma BackupAnswers(files: Files, retention: nat, workspace: string, now: Civil)
    requires Takes(files, TakeBackup(workspace, now), workspace) && NoStrangers(BackupDir(files, workspace))
    ensures BackedUp(files, retention, workspace, now).Done? && BackedUp(files, retention, workspace, now).value == Name(now) != ""
  {
    NameEnds(now);
    hide Outdated;
  }

  /** A workspace or snapshot name that is no plain file name is refused, and so is a snapshot without the suffix. */
  lemma BadNamesAreRefused(files: Files, retention: nat, workspace: string, snapshot: string, now: Civil)
    ensures workspace == "" || '/' in workspace ==>
              Restored(files, workspace, snapshot) == Refused(InvalidWorkspace)
              && BackedUp(files, retention, workspace, now) == Refused(InvalidWorkspace)
    ensures workspace != "" && '/' !in workspace && (snapshot == "" || '/' in snapshot || !HasSuffix(snapshot, ".tfstate")) ==>
              Restored(files, workspace, snapshot) == Refused(InvalidSnapshot)
    ensures Restored(files, workspace, snapshot).Done? ==>
              var after := Restored(files, workspace, snapshot).files;
              && after.backups == files.backups && after.states.Keys == files.states.Keys + {workspace}
              && forall other :: other in files.states && other != workspace ==> after.states[other] == files.states[other]
  {}

  lemma {:induction false} TakenInOrder(files: Files, retention: nat, before: seq<Step>, now: Civil, later: seq<Step>, workspace: string)
    requires Takes(Run(files, retention, before), TakeBackup(workspace, now), workspace)
    ensures var saved := Run(files, retention, before);
            var first := Taken(files, retention, before, workspace);
            var backups := Taken(Next(saved, retention, TakeBackup(workspace, now)), retention, later, workspace);
            Taken(files, retention, before + [TakeBackup(workspace, now)] + later, workspace)
            == first + [Snapshot(Name(now), saved.states[workspace])] + backups
  {
    hide Name, Next;
    var backup := TakeBackup(workspace, now);
    assert (before + [backup])[..|before|] == before;
    RunAppend(files, retention, before + [backup], later, workspace);
  }

  lemma RestoredByName(files: Files, workspace: string, now: Civil)
    requires IsBase(workspace) && NoStrangers(BackupDir(files, workspace))
    ensures var dir := BackupDir(files, workspace);
            Restored(files, workspace, Name(now))
            == if Name(now) in SnapshotNames(dir)
               then Done(files.(states := files.states[workspace := dir[Name(now)].content]), ())
               else Refused(MissingSnapshot)
  {
    NameHasNoSlash(now);
    NameEnds(now);
  }
}
