/** What each transaction of internal/server/workspace/service.go does to the tables. */
module Workspaces {
  import opened Wrappers
  import opened Tables

  datatype Request = Request(owner: OwnerId, name: string, template: string, repository: Option<Repository>)

  // The rows a creation answers with; isNew when this transaction inserted them.
  datatype Created = Created(workspace: WorkspaceId, build: BuildId, isNew: bool)

  function Undeleted(db: Db, owner: OwnerId, template: string): set<WorkspaceId> {
    set w | w in db.workspaces && db.workspaces[w].owner == owner
            && db.workspaces[w].template == template && db.workspaces[w].deletedAt.None?
  }

  function WantedRunning(db: Db, owner: OwnerId, template: string): set<WorkspaceId> {
    set w | w in Undeleted(db, owner, template) && db.workspaces[w].desired == Desired.Running
  }

  function CheckCreateQuota(cfg: Config, db: Db, owner: OwnerId, template: string): Option<Error> {
    var limit := cfg.Limit(template);
    if limit.maxWorkspaces > 0 && |Undeleted(db, owner, template)| >= limit.maxWorkspaces then
      Some(WorkspaceQuota)
    else if limit.maxRunning > 0 && |WantedRunning(db, owner, template)| >= limit.maxRunning then
      Some(RunningQuota)
    else
      None
  }

  function CheckStartQuota(cfg: Config, db: Db, owner: OwnerId, w: WorkspaceId, template: string): Option<Error> {
    var limit := cfg.Limit(template);
    if limit.maxRunning != 0 && |WantedRunning(db, owner, template) - {w}| >= limit.maxRunning then
      Some(RunningQuota)
    else
      None
  }

  /** The primary key, UNIQUE(workspace_id, sequence) and the one-active-build index. */
  predicate BuildClashes(db: Db, id: BuildId, row: Build) {
    || id in db.builds
    || exists b | b in db.builds ::
         && db.builds[b].workspace == row.workspace
         && (db.builds[b].sequence == row.sequence || (Active(db.builds[b]) && Active(row)))
  }

  function InsertBuild(db: Db, id: BuildId, row: Build): Txn<BuildId> {
    if BuildClashes(db, id, row) then RolledBack(DuplicatedKey)
    else Committed(db.(builds := db.builds[id := row]), id)
  }

  function QueuedBuild(w: WorkspaceId, sequence: nat, transition: Transition, template: string, now: Time): Build {
    Build(w, sequence, transition, template, BuildStatus.Queued, None, now, None, None)
  }

  function NewWorkspace(request: Request, now: Time): Workspace {
    Workspace(request.owner, if request.name == "" then None else Some(request.name), request.repository,
              request.template, Desired.Running, Observed.Pending, now, None)
  }

  predicate BadRepository(request: Request) {
    request.repository.Some? && (request.repository.value.id < 1 || request.repository.value.fullName == "")
  }

  /** createInTx with the name and the build identifier it drew. */
  function CreateInTx(db: Db, request: Request, w: WorkspaceId, b: BuildId, now: Time): Txn<Created> {
    if BadRepository(request) then RolledBack(InvalidRepository)
    else if w in db.workspaces then RolledBack(DuplicatedKey)
    else
      var inserted := db.(workspaces := db.workspaces[w := NewWorkspace(request, now)]);
      match InsertBuild(inserted, b, QueuedBuild(w, 1, Start, request.template, now))
      case RolledBack(error) => RolledBack(error)
      case Committed(after, _) => Committed(after, Created(w, b, true))
  }

  /** One attempt of create. */
  function Create(cfg: Config, db: Db, request: Request, w: WorkspaceId, b: BuildId, now: Time): Txn<Created> {
    match CheckCreateQuota(cfg, db, request.owner, request.template)
    case Some(error) => RolledBack(error)
    case None => CreateInTx(db, request, w, b, now)
  }

  predicate LiveKey(db: Db, owner: OwnerId, key: string, now: Time) {
    (owner, key) in db.keys && db.keys[(owner, key)].expiresAt > now
  }

  predicate Visible(db: Db, w: WorkspaceId, owner: OwnerId) {
    w in db.workspaces && db.workspaces[w].owner == owner && db.workspaces[w].deletedAt.None?
  }

  /** ORDER BY sequence with First's tie-break on the primary key. */
  function FirstBuild(db: Db, w: WorkspaceId): Option<BuildId> {
    First(map b | b in BuildsOf(db, w) :: db.builds[b].sequence)
  }

  /** What a repeated request with a live key answers. */
  function Replay(db: Db, row: KeyRow, owner: OwnerId, hash: Secret): Txn<Created> {
    if row.hash != hash then RolledBack(KeyReused)
    else if !Visible(db, row.workspace, owner) then RolledBack(NotFound)
    else
      match FirstBuild(db, row.workspace)
      case None => RolledBack(NotFound)
      case Some(b) => Committed(db, Created(row.workspace, b, false))
  }

  /** One attempt of CreateRepositoryIdempotent with a non-empty key. */
  function CreateKeyed(cfg: Config, db: Db, request: Request, key: string, hash: Secret,
                       w: WorkspaceId, b: BuildId, now: Time): Txn<Created>
  {
    if LiveKey(db, request.owner, key, now) then
      Replay(db, db.keys[(request.owner, key)], request.owner, hash)
    else
      match Create(cfg, db, request, w, b, now)
      case RolledBack(error) => RolledBack(error)
      case Committed(after, created) =>
        Committed(after.(keys := after.keys[(request.owner, key) := KeyRow(hash, w, now + KEY_TIME)]), created)
  }

  function Target(transition: Transition): Desired {
    match transition
    case Start => Desired.Running
    case Stop => Desired.Stopped
    case Delete => Desired.Deleted
  }

  function Announced(transition: Transition): Observed {
    match transition
    case Start => Observed.Starting
    case Stop => Observed.Stopping
    case Delete => Observed.Deleting
  }

  predicate HasActiveBuild(db: Db, w: WorkspaceId) {
    exists b :: b in BuildsOf(db, w) && Active(db.builds[b])
  }

  function Sequences(db: Db, w: WorkspaceId): set<nat> {
    set b | b in BuildsOf(db, w) :: db.builds[b].sequence
  }

  function NextSequence(db: Db, w: WorkspaceId): nat {
    MaxOrZero(Sequences(db, w)) + 1
  }

  /** Transition, with the build identifier it drew. */
  function Transit(cfg: Config, db: Db, owner: OwnerId, w: WorkspaceId, transition: Transition,
                   b: BuildId, now: Time): Txn<BuildId>
  {
    if !Visible(db, w, owner) then RolledBack(NotFound)
    else
      var row := db.workspaces[w];
      var quota := if transition == Start then CheckStartQuota(cfg, db, owner, w, row.template) else None;
      if quota.Some? then RolledBack(quota.value)
      else if HasActiveBuild(db, w) then RolledBack(ActiveBuild)
      else
        var updated := row.(desired := Target(transition), observed := Announced(transition),
                            lastAccess := if transition == Start then now else row.lastAccess);
        InsertBuild(db.(workspaces := db.workspaces[w := updated]), b,
                    QueuedBuild(w, NextSequence(db, w), transition, row.template, now))
  }

  function Touch(db: Db, owner: OwnerId, w: WorkspaceId, now: Time): Txn<()> {
    if !Visible(db, w, owner) then RolledBack(NotFound)
    else Committed(db.(workspaces := db.workspaces[w := db.workspaces[w].(lastAccess := now)]), ())
  }
}
