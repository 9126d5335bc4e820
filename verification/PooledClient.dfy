/**
 * The three wrappers of packages/api/src/lib/prisma.ts as the code runs them, on a
 * client object updated in place, each proved to be a schedule of the pool's protocol.
 * What the database answers is a parameter.
 */
module PooledClient {
  import opened Common
  import opened ActingScope
  import opened TenantPool

  class Client {
    const pool: PoolName
    /** The source's __acting. */
    var acting: Option<string>
    /** Postgres's session and transaction-local settings. */
    var session: string
    var local: Option<string>
    var phase: Phase

    constructor (pool: PoolName)
      ensures View() == Fresh(pool)
    {
      this.pool := pool;
      acting, session, local, phase := None, "", None, Idle;
    }

    function View(): Conn
      reads this
    {
      Conn(pool, acting, session, local, phase)
    }

    /** client.release, destroying the connection when given an error. */
    method Release(failed: bool)
      requires if failed then phase.Broken? else phase.Done?
      modifies this`phase
      ensures phase == if failed then Destroyed else Idle
    {
      phase := if failed then Destroyed else Idle;
    }
  }

  /** The connection after applyActingTenant: untouched, reset, or broken. */
  function Applied(c: Conn, task: nat, use: Use, scope: Scope, ok: bool, took: bool): Conn {
    var started := StartApply(true, c, task, use, scope);
    if started.phase.Setting? then FinishApply(true, started, ok, took) else started
  }

  /** A SET is sent exactly when the tag disagrees with the scope. */
  predicate Skips(c: Conn, scope: Scope) { c.tag == Some(Want(scope)) }

  method ApplyActingTenant(client: Client, task: nat, use: Use, scope: Scope, ok: bool, took: bool)
    returns (failed: bool)
    requires client.phase == CheckedOut(task, use)
    modifies client`acting, client`session, client`phase
    ensures client.View() == Applied(old(client.View()), task, use, scope, ok, took)
    ensures failed <==> client.phase == Broken(task)
    ensures !failed <==> client.phase == Ready(task, use) && client.acting == Some(Want(scope))
    ensures failed ==> client.acting == old(client.acting)
    ensures client.session ==
            if old(client.acting) == Some(Want(scope)) || (failed && !took) then old(client.session) else Want(scope)
  {
    var want := Want(scope);
    if client.acting == Some(want) {
      client.phase := Ready(task, use);
      return false;
    }
    client.phase := Setting(task, use, want);
    if ok || took { client.session := want; }
    if !ok {
      client.phase := Broken(task);
      return true;
    }
    client.acting := Some(want);
    client.phase := Ready(task, use);
    return false;
  }

  /** A connection between uses: no local setting, and a session value its tag tells the truth about. */
  predicate Settled(c: Conn) {
    c.phase == Idle && c.local == None && c.session == if c.tag.Some? then c.tag.value else ""
  }

  /** connectWithTenant, on the client the pool for this scope hands out. */
  method ConnectWithTenant(client: Client, task: nat, scope: Scope, ok: bool, took: bool) returns (failed: bool)
    requires Settled(client.View()) && client.pool == PoolFor(scope)
    modifies client
    ensures !failed ==> client.phase == Ready(task, Transaction) && client.View().Effective() == Want(scope)
    ensures failed ==> client.phase == Destroyed
    ensures failed <==> !Skips(old(client.View()), scope) && !ok
    ensures client.View() == AfterConnect(old(client.View()), task, scope, ok, took)
  {
    client.phase := CheckedOut(task, Transaction);
    failed := ApplyActingTenant(client, task, Transaction, scope, ok, took);
    if failed { client.Release(true); }
  }

  function AfterConnect(c: Conn, task: nat, scope: Scope, ok: bool, took: bool): Conn {
    var applied := Applied(c.(phase := CheckedOut(task, Transaction)), task, Transaction, scope, ok, took);
    if applied.phase.Broken? then applied.(phase := Destroyed) else applied
  }

  /** queryWithTenant; `seen` is the effective setting the statement ran under, if it was sent. */
  method QueryWithTenant(client: Client, task: nat, scope: Scope, ok: bool, took: bool, queryOk: bool)
    returns (failed: bool, seen: Option<string>)
    requires Settled(client.View()) && client.pool == PoolFor(scope)
    modifies client
    ensures seen.Some? ==> seen.value == Want(scope)
    ensures seen.Some? <==> Skips(old(client.View()), scope) || ok
    ensures failed <==> seen.None? || !queryOk
    ensures if failed then client.phase == Destroyed else Settled(client.View())
    ensures client.View() == AfterQuery(old(client.View()), task, scope, ok, took, queryOk)
  {
    client.phase := CheckedOut(task, Plain);
    seen := None;
    failed := ApplyActingTenant(client, task, Plain, scope, ok, took);
    if !failed {
      seen := Some(client.View().Effective());
      failed := !queryOk;
      client.phase := if failed then Broken(task) else Done(task);
    }
    client.Release(failed);
  }

  function AfterQuery(c: Conn, task: nat, scope: Scope, ok: bool, took: bool, queryOk: bool): Conn {
    var applied := Applied(c.(phase := CheckedOut(task, Plain)), task, Plain, scope, ok, took);
    if applied.phase.Broken? || !queryOk then applied.(phase := Destroyed) else applied.(phase := Idle)
  }

  // ---------------------------------------------------------------- the wrappers are schedules

  function ApplySchedule(c: Conn, conn: nat, scope: Scope, ok: bool, took: bool): seq<Action> {
    if Skips(c, scope) then [ApplyStart(conn)] else [ApplyStart(conn), ApplyDone(conn, ok, took)]
  }

  function QuerySchedule(c: Conn, task: nat, conn: nat, scope: Scope, ok: bool, took: bool,
                         statement: int, queryOk: bool): seq<Action>
  {
    [Connect(task, conn, Plain)] + ApplySchedule(c, conn, scope, ok, took)
    + (if Skips(c, scope) || ok then [Query(conn, statement, queryOk)] else []) + [Release(conn)]
  }

  function ConnectSchedule(c: Conn, task: nat, conn: nat, scope: Scope, ok: bool, took: bool): seq<Action> {
    [Connect(task, conn, Transaction)] + ApplySchedule(c, conn, scope, ok, took)
    + (if Skips(c, scope) || ok then [] else [Release(conn)])
  }

  lemma PutTwice(s: State, conn: nat, a: Conn, b: Conn)
    ensures Put(Put(s, conn, a), conn, b) == Put(s, conn, b)
    ensures Put(s, conn, a).conns[conn] == a
  {}

  lemma RunsOn(s: State, schedule: seq<Action>, mid: State, a: Action, end: State)
    requires Run(true, s, schedule) == Some(mid) && Next(true, mid, a) == Some(end)
    ensures Run(true, s, schedule + [a]) == Some(end)
  {
    RunOneMore(true, s, schedule, mid, a);
  }

  /** What the pool hands task `task` as `conn`: an idle connection of its role, or one it has just opened. */
  function HandedOut(s: State, task: nat, conn: nat): Option<Conn> {
    if task in s.tasks then Available(s, conn, PoolFor(s.tasks[task])) else None
  }

  /** That is exactly a connection nobody has opened, or an idle one of the role of the task's scope. */
  lemma HandedOutExactly(s: State, task: nat, conn: nat)
    ensures HandedOut(s, task, conn).Some? <==>
            && task in s.tasks
            && (conn in s.conns ==>
                  && s.conns[conn].phase == Idle
                  && (s.conns[conn].pool == PlatformRole <==> s.tasks[task] == Some(Platform)))
    ensures HandedOut(s, task, conn).Some? ==>
              var c := HandedOut(s, task, conn).value;
              if conn in s.conns then c == s.conns[conn]
              else c.tag.None? && c.session == "" && c.local.None? && c.phase == Idle
                   && (c.pool == PlatformRole <==> s.tasks[task] == Some(Platform))
  {}

  /** In every state a schedule reaches, what the pool hands out is as the two wrappers need it. */
  lemma HandedOutIsSettled(schedule: seq<Action>, task: nat, conn: nat)
    requires Run(true, EMPTY, schedule).Some?
    ensures var handed := HandedOut(Run(true, EMPTY, schedule).value, task, conn);
            handed.Some? ==> Settled(handed.value)
                             && handed.value.pool == PoolFor(Run(true, EMPTY, schedule).value.tasks[task])
  {
    PoolSafe(schedule);
  }

  lemma CheckoutRuns(s: State, task: nat, conn: nat, use: Use)
    requires HandedOut(s, task, conn).Some?
    ensures Run(true, s, [Connect(task, conn, use)]) ==
            Some(Put(s, conn, HandedOut(s, task, conn).value.(phase := CheckedOut(task, use))))
  {
    assert [Connect(task, conn, use)][1..] == [];
  }

  lemma ApplyRuns(s: State, task: nat, conn: nat, use: Use, ok: bool, took: bool)
    requires HandedOut(s, task, conn).Some?
    ensures var c, scope := HandedOut(s, task, conn).value, s.tasks[task];
            Run(true, s, [Connect(task, conn, use)] + ApplySchedule(c, conn, scope, ok, took)) ==
            Some(Put(s, conn, Applied(c.(phase := CheckedOut(task, use)), task, use, scope, ok, took)))
  {
    var c, scope := HandedOut(s, task, conn).value, s.tasks[task];
    var out := c.(phase := CheckedOut(task, use));
    var started := StartApply(true, out, task, use, scope);
    CheckoutRuns(s, task, conn, use);
    PutTwice(s, conn, out, started);
    RunsOn(s, [Connect(task, conn, use)], Put(s, conn, out), ApplyStart(conn), Put(s, conn, started));
    if !Skips(c, scope) {
      var finished := FinishApply(true, started, ok, took);
      PutTwice(s, conn, started, finished);
      RunsOn(s, [Connect(task, conn, use)] + [ApplyStart(conn)], Put(s, conn, started), ApplyDone(conn, ok, took),
             Put(s, conn, finished));
      assert [Connect(task, conn, use)] + [ApplyStart(conn)] + [ApplyDone(conn, ok, took)]
          == [Connect(task, conn, use)] + ApplySchedule(c, conn, scope, ok, took);
    }
  }

  /** Main result: connectWithTenant is a schedule of the protocol, ending in the connection the method leaves. */
  lemma ConnectIsASchedule(s: State, task: nat, conn: nat, ok: bool, took: bool)
    requires HandedOut(s, task, conn).Some? && Settled(HandedOut(s, task, conn).value)
    ensures var c, scope := HandedOut(s, task, conn).value, s.tasks[task];
            Run(true, s, ConnectSchedule(c, task, conn, scope, ok, took)) ==
            Some(Put(s, conn, AfterConnect(c, task, scope, ok, took)))
  {
    hide Run, Want, PoolFor;
    var c, scope := HandedOut(s, task, conn).value, s.tasks[task];
    ApplyRuns(s, task, conn, Transaction, ok, took);
    var applied := Applied(c.(phase := CheckedOut(task, Transaction)), task, Transaction, scope, ok, took);
    var prefix := [Connect(task, conn, Transaction)] + ApplySchedule(c, conn, scope, ok, took);
    if Skips(c, scope) || ok {
      assert prefix + [] == prefix;
    } else {
      PutTwice(s, conn, applied, applied.(phase := Destroyed));
      RunsOn(s, prefix, Put(s, conn, applied), Release(conn), Put(s, conn, applied.(phase := Destroyed)));
    }
  }

  /** A ready connection runs its statement and goes back, idle or destroyed. */
  lemma StatementRuns(s: State, schedule: seq<Action>, c: Conn, task: nat, conn: nat, statement: int, queryOk: bool)
    requires Run(true, s, schedule) == Some(Put(s, conn, c)) && c.phase == Ready(task, Plain)
    ensures Run(true, s, schedule + [Query(conn, statement, queryOk)] + [Release(conn)]) ==
            Some(Log(Put(s, conn, c.(phase := if queryOk then Idle else Destroyed)),
                     Ran(task, conn, c.pool, false, statement, c.Effective())))
  {
    hide Run;
    var ran := c.(phase := if queryOk then Done(task) else Broken(task));
    var end := c.(phase := if queryOk then Idle else Destroyed);
    var e := Ran(task, conn, c.pool, false, statement, c.Effective());
    PutTwice(s, conn, c, ran);
    RunsOn(s, schedule, Put(s, conn, c), Query(conn, statement, queryOk), Log(Put(s, conn, ran), e));
    PutTwice(s, conn, ran, end);
    RunsOn(s, schedule + [Query(conn, statement, queryOk)], Log(Put(s, conn, ran), e), Release(conn),
           Log(Put(s, conn, end), e));
  }

  /** Main result: so is queryWithTenant, and the one statement it logs saw the task's tenant. */
  lemma QueryIsASchedule(s: State, task: nat, conn: nat, ok: bool, took: bool, statement: int, queryOk: bool)
    requires HandedOut(s, task, conn).Some? && Settled(HandedOut(s, task, conn).value)
    ensures var c, scope := HandedOut(s, task, conn).value, s.tasks[task];
            var end := Put(s, conn, AfterQuery(c, task, scope, ok, took, queryOk));
            Run(true, s, QuerySchedule(c, task, conn, scope, ok, took, statement, queryOk)) ==
            Some(if Skips(c, scope) || ok
                 then Log(end, Ran(task, conn, c.pool, false, statement, Want(scope))) else end)
  {
    hide Run, Want, PoolFor;
    var c, scope := HandedOut(s, task, conn).value, s.tasks[task];
    ApplyRuns(s, task, conn, Plain, ok, took);
    var applied := Applied(c.(phase := CheckedOut(task, Plain)), task, Plain, scope, ok, took);
    var prefix := [Connect(task, conn, Plain)] + ApplySchedule(c, conn, scope, ok, took);
    if Skips(c, scope) || ok {
      StatementRuns(s, prefix, applied, task, conn, statement, queryOk);
    } else {
      var end := AfterQuery(c, task, scope, ok, took, queryOk);
      PutTwice(s, conn, applied, end);
      RunsOn(s, prefix, Put(s, conn, applied), Release(conn), Put(s, conn, end));
      assert prefix + [] == prefix;
    }
  }
}

/**
 * The audit wrapper of packages/api/src/lib/audit-wrap.ts: a mutation and its audit
 * row in one transaction, its own or the caller's.
 */
module AuditWrap {
  import opened Common
  import opened ActingScope

  /** A row written, with the effective setting its policy saw. */
  datatype Write =
    | Entity(id: string, seen: string)
    | AuditRow(utilityId: string, entityId: string, seen: string)

  class Connection {
    var session: string
    var local: Option<string>
    var open: bool
    var committed: seq<Write>
    var pending: seq<Write>

    function Effective(): string
      reads this
    {
      if local.Some? then local.value else session
    }

    /** Nothing transaction-local outlives the transaction. */
    predicate Valid()
      reads this
    {
      !open ==> local == None && pending == []
    }

    constructor (session: string)
      ensures Valid() && !open && committed == [] && this.session == session
    {
      this.session := session;
      local, open, committed, pending := None, false, [], [];
    }

    method Begin()
      requires Valid() && !open
      modifies this`open
      ensures Valid() && open && local == None && pending == []
    {
      open := true;
    }

    /** COMMIT when all went well, ROLLBACK otherwise. */
    method End(ok: bool)
      requires open
      modifies this
      ensures Valid() && !open && session == old(session)
      ensures committed == old(committed) + if ok then old(pending) else []
    {
      if ok { committed := committed + pending; }
      open, local, pending := false, None, [];
    }

    /** writeAuditRow: set_config(..., true), then the insert; false where a statement throws. */
    method WriteAuditRow(utilityId: string, entityId: string, ok: bool) returns (written: bool)
      requires open
      modifies this`local, this`pending
      ensures local == Some(utilityId) && written == ok
      ensures pending == old(pending) + if ok then [AuditRow(utilityId, entityId, utilityId)] else []
    {
      local := Some(utilityId);
      if ok { pending := pending + [AuditRow(utilityId, entityId, Effective())]; }
      written := ok;
    }

    /** The `run` closure: the mutation under the setting in force, then its audit row. */
    method RunAudited(utilityId: string, entityId: string, opOk: bool, auditOk: bool) returns (ok: bool)
      requires open
      modifies this`local, this`pending
      ensures ok == (opOk && auditOk)
      ensures ok ==>
                pending ==
                old(pending) + [Entity(entityId, old(Effective())), AuditRow(utilityId, entityId, utilityId)]
      ensures local == if opOk then Some(utilityId) else old(local)
    {
      if !opOk { return false; }
      pending := pending + [Entity(entityId, Effective())];
      ok := WriteAuditRow(utilityId, entityId, auditOk);
    }

    /**
     * auditCreate and auditUpdate without a transaction of the caller's: both rows
     * commit or neither does, and the session setting is what it was.
     */
    method AuditInOwnTransaction(utilityId: string, entityId: string, opOk: bool, auditOk: bool) returns (ok: bool)
      requires Valid() && !open
      modifies this
      ensures Valid() && !open && session == old(session)
      ensures ok == (opOk && auditOk)
      ensures committed == old(committed) +
              if ok then [Entity(entityId, old(session)), AuditRow(utilityId, entityId, utilityId)] else []
    {
      Begin();
      ok := RunAudited(utilityId, entityId, opOk, auditOk);
      End(ok);
    }

    /**
     * Joining the caller's transaction commits nothing by itself, and leaves the rest of
     * that transaction acting for the audited tenant.
     */
    method AuditInCallersTransaction(utilityId: string, entityId: string, opOk: bool, auditOk: bool) returns (ok: bool)
      requires Valid() && open
      modifies this`local, this`pending
      ensures Valid() && ok == (opOk && auditOk)
      ensures local == if opOk then Some(utilityId) else old(local)
      ensures ok ==>
                pending ==
                old(pending) + [Entity(entityId, old(Effective())), AuditRow(utilityId, entityId, utilityId)]
    {
      ok := RunAudited(utilityId, entityId, opOk, auditOk);
    }
  }
}
