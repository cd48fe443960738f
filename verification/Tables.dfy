/** The rows of the control plane's SQLite tables, as values.

    Identifiers are numbers: the code only compares them for equality, except build
    identifiers, which break ties when builds are ordered.  A build identifier is always 32
    hexadecimal digits, so its text order is the order of the number it spells.
    A stored hash is represented by the secret it was computed from. */
module Tables {
  import opened Wrappers

  type OwnerId = nat
  type WorkspaceId = nat
  type BuildId = nat
  type WorkerId = nat
  type AgentId = nat
  type Secret = nat
  type RequestId = nat

  // Clock readings and durations are in nanoseconds, as in Go's time package.
  type Time = nat
  const SECOND: nat := 1_000_000_000
  const LEASE_TIME: nat := 120 * SECOND
  const KEY_TIME: nat := 600 * SECOND
  const SESSION_TIME: nat := 900 * SECOND
  const PRESENCE_TIME: nat := 45 * SECOND

  datatype Desired = Running | Stopped | Deleted

  datatype Observed =
    | Pending | Starting | Running | Stopping | Stopped | Failed | Deleting | Deleted | Degraded

  datatype Transition = Start | Stop | Delete

  datatype BuildStatus = Queued | Running | Succeeded | Failed

  datatype AgentStatus = Starting | Ready | Degraded | Drained

  datatype Repository = Repository(id: int, fullName: string)

  datatype Workspace = Workspace(
    owner: OwnerId,
    displayName: Option<string>,
    repository: Option<Repository>,
    template: string,
    desired: Desired,
    observed: Observed,
    lastAccess: Time,
    deletedAt: Option<Time>)

  // The columns a claim fills in together.
  datatype Lease = Lease(worker: WorkerId, secret: Secret, expiresAt: Time, startedAt: Time)

  datatype Build = Build(
    workspace: WorkspaceId,
    sequence: nat,
    transition: Transition,
    template: string,
    status: BuildStatus,
    lease: Option<Lease>,
    createdAt: Time,
    completedAt: Option<Time>,
    error: Option<string>)

  datatype Provisioner = Provisioner(labels: seq<string>, capacity: int, activeBuilds: int, lastSeen: Time)

  datatype Session = Session(secret: Secret, publicKey: seq<bv8>, connectedAt: Time)

  datatype Agent = Agent(
    workspace: WorkspaceId,
    build: BuildId,
    status: AgentStatus,
    session: Option<Session>,
    sessionExpires: Option<Time>,
    lastHeartbeat: Option<Time>)

  datatype Enrollment = Enrollment(workspace: WorkspaceId, build: BuildId, agent: AgentId, expiresAt: Time)

  datatype KeyRow = KeyRow(hash: Secret, workspace: WorkspaceId, expiresAt: Time)

  datatype LogRow = LogRow(level: string, message: string)

  datatype Db = Db(
    workspaces: map<WorkspaceId, Workspace>,
    builds: map<BuildId, Build>,
    provisioners: map<WorkerId, Provisioner>,
    agents: map<AgentId, Agent>,
    enrollments: map<Secret, Enrollment>,
    keys: map<(OwnerId, string), KeyRow>,
    logs: map<(BuildId, nat), LogRow>)

  const EMPTY_DB: Db := Db(map[], map[], map[], map[], map[], map[], map[])

  datatype Limits = Limits(maxWorkspaces: int, maxRunning: int)

  // What the operator configures: quotas and required labels per template.
  datatype Config = Config(limits: map<string, Limits>, requiredLabels: map<string, seq<string>>)
  {
    /** A template without configured limits has the zero limits. */
    function Limit(template: string): Limits {
      if template in limits then limits[template] else Limits(0, 0)
    }

    function Required(template: string): seq<string> {
      if template in requiredLabels then requiredLabels[template] else []
    }
  }

  datatype Error =
    | NotFound | ActiveBuild | WorkspaceQuota | RunningQuota
    | InvalidRepository | DuplicatedKey | KeyReused | KeyTooLong | NameTooLong
    | NamesExhausted | RetryLimit
    | LeaseExpired | AgentGone | InvalidEnrollment | InvalidPublicKey

  // A transaction either commits a new database with a result, or leaves no trace.
  datatype Txn<+T> = Committed(db: Db, value: T) | RolledBack(error: Error)
  {
    function Or(before: Db): Db {
      if Committed? then db else before
    }
  }

  /** Builds the partial unique index covers. */
  predicate Active(b: Build) {
    b.status == BuildStatus.Queued || b.status == BuildStatus.Running
  }

  predicate Terminal(b: Build) {
    !Active(b)
  }

  function BuildsOf(db: Db, w: WorkspaceId): set<BuildId> {
    set b | b in db.builds && db.builds[b].workspace == w
  }

  function RunningOf(db: Db, worker: WorkerId): set<BuildId> {
    set b | b in db.builds && db.builds[b].status == BuildStatus.Running
            && db.builds[b].lease.Some? && db.builds[b].lease.value.worker == worker
  }

  // ---- largest elements -------------------------------------------------------

  lemma LargestExists(s: set<nat>)
    requires s != {}
    ensures exists m :: m in s && forall x :: x in s ==> x <= m
  {
    var x :| x in s;
    if s != {x} {
      LargestExists(s - {x});
      var m :| m in s - {x} && forall y :: y in s - {x} ==> y <= m;
      var top := if m < x then x else m;
      assert top in s && forall y :: y in s ==> y <= top by {
        forall y | y in s ensures y <= top {
          if y != x {
            assert y in s - {x};
          }
        }
      }
    } else {
      assert forall y :: y in s ==> y <= x;
    }
  }

  /** SQL's COALESCE(MAX(column), 0). */
  function MaxOrZero(s: set<nat>): (m: nat)
    ensures s == {} ==> m == 0
    ensures s != {} ==> m in s && forall x :: x in s ==> x <= m
  {
    if s == {} then 0
    else
      LargestExists(s);
      var m :| m in s && forall x :: x in s ==> x <= m;
      m
  }

  // ---- ORDER BY column, id LIMIT 1 --------------------------------------------

  /** b comes first when the keys of rank are ordered by value, then by key. */
  predicate Leads(rank: map<nat, int>, b: nat) {
    b in rank && forall c :: c in rank ==> rank[b] < rank[c] || (rank[b] == rank[c] && b <= c)
  }

  lemma LeaderExists(rank: map<nat, int>)
    requires rank != map[]
    ensures exists b :: Leads(rank, b)
    decreases |rank|
  {
    var x :| x in rank;
    var rest := rank - {x};
    if rest == map[] {
      assert forall c :: c in rank && c != x ==> c in rest;
      assert Leads(rank, x);
    } else {
      LeaderExists(rest);
      var m :| Leads(rest, m);
      var top := if rank[x] < rank[m] || (rank[x] == rank[m] && x <= m) then x else m;
      forall c | c in rank ensures rank[top] < rank[c] || (rank[top] == rank[c] && top <= c) {
        assert c != x ==> c in rest && rest[c] == rank[c];
      }
      assert Leads(rank, top);
    }
  }

  function First(rank: map<nat, int>): (r: Option<nat>)
    ensures r.None? <==> rank == map[]
    ensures r.Some? ==> Leads(rank, r.value)
  {
    if rank == map[] then None
    else
      LeaderExists(rank);
      var b :| Leads(rank, b);
      Some(b)
  }
}
