/** The shared database the services update in place, one field per table. */
module Database {
  import opened Tables

  class Store {
    var workspaces: map<WorkspaceId, Workspace>
    var builds: map<BuildId, Build>
    var provisioners: map<WorkerId, Provisioner>
    var agents: map<AgentId, Agent>
    var enrollments: map<Secret, Enrollment>
    var keys: map<(OwnerId, string), KeyRow>
    var logs: map<(BuildId, nat), LogRow>

    /** The tables as one value. */
    function View(): Db
      reads this
    {
      Db(workspaces, builds, provisioners, agents, enrollments, keys, logs)
    }

    constructor ()
      ensures View() == EMPTY_DB
    {
      workspaces, builds, provisioners := map[], map[], map[];
      agents, enrollments, keys, logs := map[], map[], map[], map[];
    }

    /** ROLLBACK: every table is again what it was when the transaction began. */
    method Rollback(began: Db)
      modifies this
      ensures View() == began
    {
      workspaces, builds, provisioners := began.workspaces, began.builds, began.provisioners;
      agents, enrollments, keys, logs := began.agents, began.enrollments, began.keys, began.logs;
    }
  }

  // What a transaction answers its caller.
  datatype Answer<+T> = Ok(value: T) | Err(error: Error)

  function Reply<T>(txn: Txn<T>): Answer<T> {
    match txn
    case Committed(_, value) => Ok(value)
    case RolledBack(error) => Err(error)
  }
}
