/** internal/server/agenthub/agenthub.go, statement by statement, against its specification. */
module Hubs {
  import opened Wrappers
  import opened Tables
  import opened Database
  import A = Agents

  function ConnectedAt(row: Agent): int {
    if row.session.Some? then row.session.value.connectedAt else -1
  }

  class Hub {
    const store: Store

    constructor (store: Store)
      ensures this.store == store
    {
      this.store := store;
    }

    method CreateEnrollment(w: WorkspaceId, b: BuildId, agent: AgentId, token: Secret, expiresAt: Time) returns (r: Answer<AgentId>)
      modifies store`agents, store`enrollments
      ensures var txn := A.CreateEnrollment(old(store.View()), w, b, agent, token, expiresAt);
              r == Reply(txn) && store.View() == txn.Or(old(store.View()))
    {
      var began := store.agents;
      if agent in store.agents || exists a :: a in store.agents && store.agents[a].workspace == w && store.agents[a].build == b {
        return Err(DuplicatedKey);
      }
      store.agents := store.agents[agent := Agent(w, b, AgentStatus.Starting, None, None, None)];
      if token in store.enrollments {
        store.agents := began;
        return Err(DuplicatedKey);
      }
      store.enrollments := store.enrollments[token := Enrollment(w, b, agent, expiresAt)];
      return Ok(agent);
    }

    method Register(token: Secret, publicKey: seq<bv8>, secret: Secret, now: Time) returns (r: Answer<AgentId>)
      modifies store`agents
      ensures var txn := A.Register(old(store.View()), token, publicKey, secret, now);
              r == Reply(txn) && store.View() == txn.Or(old(store.View()))
    {
      if |publicKey| != 32 {
        return Err(InvalidPublicKey);
      }
      if token !in store.enrollments || store.enrollments[token].expiresAt <= now {
        return Err(InvalidEnrollment);
      }
      var agent := store.enrollments[token].agent;
      if agent in store.agents {
        var row := store.agents[agent];
        store.agents := store.agents[agent := row.(status := AgentStatus.Starting, session := Some(Session(secret, publicKey, now)),
                                                   sessionExpires := Some(now + SESSION_TIME), lastHeartbeat := Some(now))];
      }
      return Ok(agent);
    }

    method Heartbeat(agent: AgentId, now: Time) returns (r: Answer<()>)
      modifies store`agents, store`workspaces
      ensures var txn := A.Heartbeat(old(store.View()), agent, now);
              r == Reply(txn) && store.View() == txn.Or(old(store.View()))
    {
      if agent !in store.agents {
        return Err(AgentGone);
      }
      var row := store.agents[agent];
      store.agents := store.agents[agent := row.(lastHeartbeat := Some(now), sessionExpires := Some(now + SESSION_TIME))];
      if row.status == AgentStatus.Starting {
        return Ok(());
      }
      store.agents := store.agents[agent := store.agents[agent].(status := AgentStatus.Ready)];
      store.workspaces := A.Report(store.workspaces, row.workspace, {Observed.Degraded}, Observed.Running);
      return Ok(());
    }

    method MarkReady(agent: AgentId, now: Time) returns (r: Answer<()>)
      modifies store`agents, store`workspaces
      ensures var txn := A.MarkReady(old(store.View()), agent, now);
              r == Reply(txn) && store.View() == txn.Or(old(store.View()))
    {
      if agent !in store.agents {
        return Err(AgentGone);
      }
      var row := store.agents[agent];
      store.agents := store.agents[agent := A.Seen(row, AgentStatus.Ready, now)];
      store.workspaces := A.Report(store.workspaces, row.workspace, {Observed.Starting, Observed.Degraded}, Observed.Running);
      return Ok(());
    }

    /** SELECT workspace_id FROM workspace_agents WHERE status = 'ready' AND last_heartbeat_at < deadline: a row per agent. */
    method SilentRows(deadline: Time) returns (workspaceIDs: seq<WorkspaceId>)
      ensures forall w :: w in workspaceIDs <==> w in A.SilentWorkspaces(store.View(), deadline)
    {
      var left := set a | a in store.agents && A.Silent(store.agents[a], deadline);
      workspaceIDs := [];
      while left != {}
        invariant forall a :: a in left ==> a in store.agents && A.Silent(store.agents[a], deadline)
        invariant forall a :: a in store.agents && A.Silent(store.agents[a], deadline) && a !in left ==> store.agents[a].workspace in workspaceIDs
        invariant forall w :: w in workspaceIDs ==> w in A.SilentWorkspaces(store.View(), deadline)
        decreases left
      {
        var a :| a in left;
        workspaceIDs := workspaceIDs + [store.agents[a].workspace];
        left := left - {a};
      }
    }

    /** Marks silent agents, then walks over their workspaces, repeated ones included. */
    method MarkStale(deadline: Time)
      modifies store`agents, store`workspaces
      ensures store.View() == A.MarkStale(old(store.View()), deadline)
    {
      hide A.SilentWorkspaces;
      ghost var began := store.View();
      var workspaceIDs := SilentRows(deadline);
      store.agents := map a | a in store.agents ::
        if A.Silent(store.agents[a], deadline) then store.agents[a].(status := AgentStatus.Degraded) else store.agents[a];
      for i := 0 to |workspaceIDs|
        invariant store.agents == A.MarkStale(began, deadline).agents
        invariant store.workspaces.Keys == began.workspaces.Keys
        invariant forall w :: w in began.workspaces ==>
                    store.workspaces[w] == if w in workspaceIDs[..i] then A.Degrade(began.workspaces[w]) else began.workspaces[w]
      {
        var w := workspaceIDs[i];
        store.workspaces := A.Report(store.workspaces, w, {Observed.Running}, Observed.Degraded);
      }
      assert workspaceIDs[..|workspaceIDs|] == workspaceIDs;
      assert store.workspaces == A.MarkStale(began, deadline).workspaces;
    }

    /** The most recently connected present agent of a workspace. */
    method ActiveAgent(w: WorkspaceId, now: Time) returns (r: Option<AgentId>)
      ensures r.None? <==> forall a :: !A.Present(store.View(), a, w, now)
      ensures r.Some? ==> A.Present(store.View(), r.value, w, now)
      ensures r.Some? ==> forall a :: A.Present(store.View(), a, w, now) && store.agents[a].session.Some? ==>
                store.agents[r.value].session.Some?
                && store.agents[a].session.value.connectedAt <= store.agents[r.value].session.value.connectedAt
    {
      var rank := map a | a in store.agents && A.Present(store.View(), a, w, now) :: -ConnectedAt(store.agents[a]);
      assert forall a :: A.Present(store.View(), a, w, now) ==> a in rank;
      r := First(rank);
    }
  }
}
