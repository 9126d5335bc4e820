/**
 * The tenant-scoped connection pool of packages/api/src/lib/prisma.ts as a protocol of
 * interleaved steps over any number of tasks and connections.
 *
 * A task is one asynchronous context: its ambient scope is fixed when it starts, and
 * `runAsTenant` or `runAsPlatform` start a new one, so nested scopes of concurrent work
 * never disturb each other. `Next(true, ...)` is the pool as written, which skips the
 * SET or RESET when the connection's tag already matches; `Next(false, ...)` is the
 * same pool without tags, which sends one before every use.
 */
module TenantPool {
  import opened Common
  import opened ActingScope
  import opened RequestPipeline

  // ---------------------------------------------------------------- connections

  datatype PoolName = TenantRole | PlatformRole

  datatype Use = Plain | Transaction

  /** Where a connection is in its life; a checked-out one names the task that holds it. */
  datatype Phase =
    | Idle
    | CheckedOut(task: nat, use: Use)
    | Setting(task: nat, use: Use, want: string)
    | Ready(task: nat, use: Use)
    | InTransaction(task: nat)
    | Done(task: nat)
    | Broken(task: nat)
    | Destroyed

  /** `tag` is the source's __acting; `session` and `local` are Postgres's two settings. */
  datatype Conn = Conn(pool: PoolName, tag: Option<string>, session: string, local: Option<string>, phase: Phase) {
    /** What a row-level-security policy reads. */
    function Effective(): string { if local.Some? then local.value else session }
  }

  function PoolFor(scope: Scope): PoolName { if scope == Some(Platform) then PlatformRole else TenantRole }

  function Fresh(pool: PoolName): Conn { Conn(pool, None, "", None, Idle) }

  /** applyActingTenant up to its await: nothing to do when the tag matches. */
  function StartApply(memo: bool, c: Conn, task: nat, use: Use, scope: Scope): Conn {
    if memo && c.tag == Some(Want(scope)) then c.(phase := Ready(task, use))
    else c.(phase := Setting(task, use, Want(scope)))
  }

  /** The SET or RESET answered; one that failed may still have taken effect. */
  function FinishApply(memo: bool, c: Conn, ok: bool, took: bool): Conn
    requires c.phase.Setting?
  {
    var p := c.phase;
    if ok then c.(session := p.want, tag := if memo then Some(p.want) else None, phase := Ready(p.task, p.use))
    else c.(session := if took then p.want else c.session, phase := Broken(p.task))
  }

  // ---------------------------------------------------------------- steps

  /** How a task comes to exist. */
  datatype Entry =
    | Unscoped
    | Handler(env: Environment, bearer: Bearer, route: Route, look: Lookups)
    | Lookup(env: Environment, bearer: Bearer, route: Route)
    | Job(queue: QueueName, utilityId: Option<string>)
    | Inherit(parent: nat)
    | AsTenant(parent: nat, tenant: string)
    | AsPlatformFrom(parent: nat)

  datatype Event =
    | Ran(task: nat, conn: nat, pool: PoolName, inTransaction: bool, statement: int, effective: string)
    | LocalSet(conn: nat, value: string)
    | Began(task: nat, conn: nat)
    | Ended(conn: nat)

  datatype Action =
    | Start(task: nat, entry: Entry)
    | Connect(task: nat, conn: nat, use: Use)
    | ApplyStart(conn: nat)
    | ApplyDone(conn: nat, ok: bool, took: bool)
    | Query(conn: nat, statement: int, ok: bool)
    | Begin(conn: nat)
    | BeginFails(conn: nat)
    | SetLocal(conn: nat, value: string)
    | TxQuery(task: nat, conn: nat, statement: int)
    | End(conn: nat)
    | Lose(conn: nat)
    | Release(conn: nat)

  datatype State = State(tasks: map<nat, Scope>, conns: map<nat, Conn>, log: seq<Event>)

  const EMPTY := State(map[], map[], [])

  function ScopeOf(s: State, entry: Entry): Option<Scope> {
    match entry
    case Unscoped => Some(None)
    case Handler(env, bearer, route, look) => HandlerScope(env, bearer, route, look)
    case Lookup(env, bearer, route) => Some(AuthorizationScope(env, bearer, route))
    case Job(queue, utilityId) => ScopedJob(queue, utilityId)
    case Inherit(parent) => if parent in s.tasks then Some(s.tasks[parent]) else None
    case AsTenant(parent, tenant) => if parent in s.tasks then RunAsTenant(tenant) else None
    case AsPlatformFrom(parent) => if parent in s.tasks then Some(Some(Platform)) else None
  }

  function Put(s: State, conn: nat, c: Conn): State { s.(conns := s.conns[conn := c]) }

  function Log(s: State, e: Event): State { s.(log := s.log + [e]) }

  /** A connection the pool may hand to a task: a new one, or an idle one of the right role. */
  function Available(s: State, conn: nat, pool: PoolName): Option<Conn> {
    if conn !in s.conns then Some(Fresh(pool))
    else if s.conns[conn].phase == Idle && s.conns[conn].pool == pool then Some(s.conns[conn])
    else None
  }

  /** One step of the pool, or None when the action is not possible. */
  function Next(memo: bool, s: State, a: Action): Option<State> {
    match a
    case Start(task, entry) =>
      if task in s.tasks || ScopeOf(s, entry).None? then None
      else Some(s.(tasks := s.tasks[task := ScopeOf(s, entry).value]))
    case Connect(task, conn, use) =>
      if task !in s.tasks then None
      else
        var c := Available(s, conn, PoolFor(s.tasks[task]));
        if c.None? then None else Some(Put(s, conn, c.value.(phase := CheckedOut(task, use))))
    case TxQuery(task, conn, statement) =>
      if task !in s.tasks || conn !in s.conns || !s.conns[conn].phase.InTransaction? then None
      else
        var c := s.conns[conn];
        Some(Log(s, Ran(task, conn, c.pool, true, statement, c.Effective())))
    case _ =>
      if a.conn !in s.conns then None else ConnStep(memo, s, a, s.conns[a.conn])
  }

  /** The steps that concern one checked-out connection only. */
  function ConnStep(memo: bool, s: State, a: Action, c: Conn): Option<State>
    requires !a.Start? && !a.Connect? && !a.TxQuery? && a.conn in s.conns && c == s.conns[a.conn]
  {
    var p := c.phase;
    match a
    case ApplyStart(conn) =>
      if !p.CheckedOut? || p.task !in s.tasks then None
      else Some(Put(s, conn, StartApply(memo, c, p.task, p.use, s.tasks[p.task])))
    case ApplyDone(conn, ok, took) =>
      if !p.Setting? then None else Some(Put(s, conn, FinishApply(memo, c, ok, took)))
    case Query(conn, statement, ok) =>
      if p.Ready? && p.use == Plain then
        Some(Log(Put(s, conn, c.(phase := if ok then Done(p.task) else Broken(p.task))),
                 Ran(p.task, conn, c.pool, false, statement, c.Effective())))
      else None
    case Begin(conn) =>
      if p.Ready? && p.use == Transaction then
        Some(Log(Put(s, conn, c.(phase := InTransaction(p.task))), Began(p.task, conn)))
      else None
    case BeginFails(conn) =>
      if p.Ready? && p.use == Transaction then Some(Put(s, conn, c.(phase := Broken(p.task)))) else None
    case SetLocal(conn, value) =>
      if !p.InTransaction? then None else Some(Log(Put(s, conn, c.(local := Some(value))), LocalSet(conn, value)))
    case End(conn) =>
      if !p.InTransaction? then None
      else Some(Log(Put(s, conn, c.(local := None, phase := Done(p.task))), Ended(conn)))
    case Lose(conn) =>
      if p.InTransaction? then Some(Put(s, conn, c.(phase := Broken(p.task)))) else None
    case Release(conn) =>
      if p.Done? then Some(Put(s, conn, c.(phase := Idle)))
      else if p.Broken? then Some(Put(s, conn, c.(phase := Destroyed)))
      else None
  }

  // ---------------------------------------------------------------- what the log should say

  /** The task whose transaction is open on `conn`, according to the log. */
  function Opener(log: seq<Event>, conn: nat): Option<nat> {
    if log == [] then None
    else match log[|log| - 1]
      case Began(task, c) => if c == conn then Some(task) else Opener(log[..|log| - 1], conn)
      case Ended(c) => if c == conn then None else Opener(log[..|log| - 1], conn)
      case _ => Opener(log[..|log| - 1], conn)
  }

  /** The transaction-local setting in force on `conn`, according to the log. */
  function LocalInForce(log: seq<Event>, conn: nat): Option<string> {
    if log == [] then None
    else match log[|log| - 1]
      case Began(_, c) => if c == conn then None else LocalInForce(log[..|log| - 1], conn)
      case Ended(c) => if c == conn then None else LocalInForce(log[..|log| - 1], conn)
      case LocalSet(c, value) => if c == conn then Some(value) else LocalInForce(log[..|log| - 1], conn)
      case _ => LocalInForce(log[..|log| - 1], conn)
  }

  /**
   * What a statement should see: its own task's tenant, or inside a transaction the
   * opener's unless overridden there.
   */
  ghost predicate Faithful(tasks: map<nat, Scope>, before: seq<Event>, e: Event) {
    e.Ran? ==>
      && e.task in tasks
      && if !e.inTransaction then
           e.effective == Want(tasks[e.task]) && e.pool == PoolFor(tasks[e.task])
         else
           var opener := Opener(before, e.conn);
           && opener.Some? && opener.value in tasks
           && e.pool == PoolFor(tasks[opener.value])
           && e.effective == (if LocalInForce(before, e.conn).Some? then LocalInForce(before, e.conn).value
                              else Want(tasks[opener.value]))
  }

  ghost predicate FaithfulLog(tasks: map<nat, Scope>, log: seq<Event>) {
    forall i :: 0 <= i < |log| ==> Faithful(tasks, log[..i], log[i])
  }

  // ---------------------------------------------------------------- the invariant

  predicate Held(p: Phase) { !p.Idle? && !p.Destroyed? }

  ghost predicate GoodConn(tasks: map<nat, Scope>, log: seq<Event>, id: nat, c: Conn) {
    && (Held(c.phase) ==> c.phase.task in tasks && c.pool == PoolFor(tasks[c.phase.task]))
    && (!c.phase.Broken? && !c.phase.Destroyed? ==> c.session == if c.tag.Some? then c.tag.value else "")
    && (c.phase.Setting? ==> c.phase.want == Want(tasks[c.phase.task]))
    && (c.phase.Ready? || c.phase.InTransaction? || c.phase.Done? ==> c.session == Want(tasks[c.phase.task]))
    && (c.pool == PlatformRole ==> c.session == "")
    && (c.phase.InTransaction? ==>
          Opener(log, id) == Some(c.phase.task) && LocalInForce(log, id) == c.local)
    && (!c.phase.InTransaction? && !c.phase.Broken? && !c.phase.Destroyed? ==> c.local == None)
  }

  ghost predicate Inv(s: State) {
    && (forall id :: id in s.conns ==> GoodConn(s.tasks, s.log, id, s.conns[id]))
    && FaithfulLog(s.tasks, s.log)
  }

  lemma GoodConnMoreTasks(tasks: map<nat, Scope>, task: nat, scope: Scope, log: seq<Event>)
    requires task !in tasks
    ensures forall id, c :: GoodConn(tasks, log, id, c) ==> GoodConn(tasks[task := scope], log, id, c)
    ensures FaithfulLog(tasks, log) ==> FaithfulLog(tasks[task := scope], log)
  {
    if FaithfulLog(tasks, log) {
      forall i | 0 <= i < |log| ensures Faithful(tasks[task := scope], log[..i], log[i]) {
        assert Faithful(tasks, log[..i], log[i]);
      }
    }
  }

  lemma LogGrows(s: State, e: Event)
    requires FaithfulLog(s.tasks, s.log) && Faithful(s.tasks, s.log, e)
    ensures FaithfulLog(s.tasks, s.log + [e])
  {
    var log := s.log + [e];
    forall i | 0 <= i < |log| ensures Faithful(s.tasks, log[..i], log[i]) {
      if i < |s.log| { assert log[..i] == s.log[..i]; } else { assert log[..i] == s.log; }
    }
  }

  lemma OtherConnsKeep(tasks: map<nat, Scope>, log: seq<Event>, e: Event, id: nat, c: Conn)
    requires GoodConn(tasks, log, id, c) && (e.Ran? || e.conn != id)
    ensures GoodConn(tasks, log + [e], id, c)
  {
    assert (log + [e])[..|log + [e]| - 1] == log;
  }

  lemma LogReads(log: seq<Event>, e: Event, id: nat)
    ensures Opener(log + [e], id) ==
            match e
            case Began(task, c) => if c == id then Some(task) else Opener(log, id)
            case Ended(c) => if c == id then None else Opener(log, id)
            case _ => Opener(log, id)
    ensures LocalInForce(log + [e], id) ==
            match e
            case Began(_, c) => if c == id then None else LocalInForce(log, id)
            case Ended(c) => if c == id then None else LocalInForce(log, id)
            case LocalSet(c, value) => if c == id then Some(value) else LocalInForce(log, id)
            case _ => LocalInForce(log, id)
  {
    assert (log + [e])[..|log + [e]| - 1] == log;
  }

  lemma LoggedStep(s: State, id: nat, c: Conn, e: Event)
    requires Inv(s) && id in s.conns && Faithful(s.tasks, s.log, e) && (e.Ran? || e.conn == id)
    requires GoodConn(s.tasks, s.log + [e], id, c)
    ensures Inv(Log(Put(s, id, c), e))
  {
    LogGrows(s, e);
    forall other | other in s.conns && other != id ensures GoodConn(s.tasks, s.log + [e], other, s.conns[other]) {
      OtherConnsKeep(s.tasks, s.log, e, other, s.conns[other]);
    }
  }

  lemma ConnStepKeepsInv(s: State, a: Action)
    requires Inv(s) && !a.Start? && !a.Connect? && !a.TxQuery? && a.conn in s.conns
    requires ConnStep(true, s, a, s.conns[a.conn]).Some?
    ensures Inv(ConnStep(true, s, a, s.conns[a.conn]).value)
  {
    var c := s.conns[a.conn];
    assert GoodConn(s.tasks, s.log, a.conn, c);
    match a
    case Query(conn, statement, ok) =>
      var e := Ran(c.phase.task, conn, c.pool, false, statement, c.Effective());
      LogReads(s.log, e, conn);
      LoggedStep(s, conn, c.(phase := if ok then Done(c.phase.task) else Broken(c.phase.task)), e);
    case Begin(conn) =>
      var e := Began(c.phase.task, conn);
      LogReads(s.log, e, conn);
      LoggedStep(s, conn, c.(phase := InTransaction(c.phase.task)), e);
    case SetLocal(conn, value) =>
      LogReads(s.log, LocalSet(conn, value), conn);
      LoggedStep(s, conn, c.(local := Some(value)), LocalSet(conn, value));
    case End(conn) =>
      LogReads(s.log, Ended(conn), conn);
      LoggedStep(s, conn, c.(local := None, phase := Done(c.phase.task)), Ended(conn));
    case _ =>
  }

  /** Every step of every interleaving keeps the invariant. */
  lemma StepKeepsInv(s: State, a: Action)
    requires Inv(s) && Next(true, s, a).Some?
    ensures Inv(Next(true, s, a).value)
  {
    match a
    case Start(task, entry) => GoodConnMoreTasks(s.tasks, task, ScopeOf(s, entry).value, s.log);
    case Connect(task, conn, use) =>
    case TxQuery(task, conn, statement) =>
      var c := s.conns[conn];
      assert GoodConn(s.tasks, s.log, conn, c);
      var e := Ran(task, conn, c.pool, true, statement, c.Effective());
      LogReads(s.log, e, conn);
      LoggedStep(s, conn, c, e);
      assert Put(s, conn, c) == s;
    case _ => ConnStepKeepsInv(s, a);
  }

  // ---------------------------------------------------------------- runs

  /** The state a schedule leads to, or None when some step of it is impossible. */
  function Run(memo: bool, s: State, schedule: seq<Action>): Option<State>
    decreases |schedule|
  {
    if schedule == [] then Some(s)
    else
      var s' := Next(memo, s, schedule[0]);
      if s'.None? then None else Run(memo, s'.value, schedule[1..])
  }

  lemma {:induction false} RunKeepsInv(s: State, schedule: seq<Action>)
    requires Inv(s) && Run(true, s, schedule).Some?
    ensures Inv(Run(true, s, schedule).value)
    decreases |schedule|
  {
    if schedule != [] {
      StepKeepsInv(s, schedule[0]);
      RunKeepsInv(Next(true, s, schedule[0]).value, schedule[1..]);
    }
  }

  /**
   * Main result, safety over every interleaving: each statement that ever ran saw what
   * it should have, and every connection between uses is consistent with its tag.
   */
  lemma PoolSafe(schedule: seq<Action>)
    requires Run(true, EMPTY, schedule).Some?
    ensures var s := Run(true, EMPTY, schedule).value;
            && FaithfulLog(s.tasks, s.log)
            && (forall id :: id in s.conns ==>
                  var c := s.conns[id];
                  && (c.phase == Idle ==> c.local == None && c.session == if c.tag.Some? then c.tag.value else "")
                  && (Held(c.phase) ==> c.phase.task in s.tasks && c.pool == PoolFor(s.tasks[c.phase.task]))
                  && (c.pool == PlatformRole ==> c.session == ""))
  {
    RunKeepsInv(EMPTY, schedule);
  }

  /** A plain query carries exactly the tenant of the task that issued it, on that task's role. */
  lemma PlainQueriesCarryTheirTenant(schedule: seq<Action>, i: nat)
    requires Run(true, EMPTY, schedule).Some? && i < |Run(true, EMPTY, schedule).value.log|
    requires var e := Run(true, EMPTY, schedule).value.log[i]; e.Ran? && !e.inTransaction
    ensures var s := Run(true, EMPTY, schedule).value;
            var e := s.log[i];
            && e.task in s.tasks
            && e.effective == Want(s.tasks[e.task])
            && (e.pool == PlatformRole <==> s.tasks[e.task] == Some(Platform))
  {
    PoolSafe(schedule);
    var s := Run(true, EMPTY, schedule).value;
    assert Faithful(s.tasks, s.log[..i], s.log[i]);
  }

  /**
   * A statement in a transaction carries its own task's tenant exactly when the value
   * set in that transaction, or failing one the opener's tenant, is that tenant. In
   * particular the opener's statements do until something overrides it.
   */
  lemma TransactionStatementsExactly(schedule: seq<Action>, i: nat)
    requires Run(true, EMPTY, schedule).Some? && i < |Run(true, EMPTY, schedule).value.log|
    requires var e := Run(true, EMPTY, schedule).value.log[i]; e.Ran? && e.inTransaction
    ensures var s := Run(true, EMPTY, schedule).value;
            var e, before := s.log[i], s.log[..i];
            var opener, local := Opener(before, e.conn), LocalInForce(before, e.conn);
            && e.task in s.tasks && opener.Some? && opener.value in s.tasks
            && (local.None? && opener == Some(e.task) ==> e.effective == Want(s.tasks[e.task]))
            && (e.effective == Want(s.tasks[e.task]) <==>
                  if local.Some? then local.value == Want(s.tasks[e.task])
                  else Want(s.tasks[opener.value]) == Want(s.tasks[e.task]))
            && (e.pool == PlatformRole ==> (e.effective != "" <==> local.Some? && local.value != ""))
  {
    PoolSafe(schedule);
    var s := Run(true, EMPTY, schedule).value;
    assert Faithful(s.tasks, s.log[..i], s.log[i]);
  }

  lemma RunOneMore(memo: bool, s0: State, schedule: seq<Action>, s: State, a: Action)
    requires Run(memo, s0, schedule) == Some(s) && Next(memo, s, a).Some?
    ensures Run(memo, s0, schedule + [a]) == Next(memo, s, a)
  {
    RunConcat(memo, s0, schedule, [a]);
    assert [a][1..] == [];
  }

  /** A platform connection carries a tenant exactly in a transaction that has set one locally. */
  lemma PlatformStatementsExactly(schedule: seq<Action>, i: nat)
    requires Run(true, EMPTY, schedule).Some? && i < |Run(true, EMPTY, schedule).value.log|
    requires var e := Run(true, EMPTY, schedule).value.log[i]; e.Ran? && e.pool == PlatformRole
    ensures var log := Run(true, EMPTY, schedule).value.log;
            var e, local := log[i], LocalInForce(log[..i], log[i].conn);
            e.effective != "" <==> e.inTransaction && local.Some? && local.value != ""
  {
    PoolSafe(schedule);
    var s := Run(true, EMPTY, schedule).value;
    assert Faithful(s.tasks, s.log[..i], s.log[i]);
  }

  const PLATFORM_TASK: map<nat, Scope> := map[0 := Some(Platform)]

  lemma PlatformTransactionOpens(env: Environment, bearer: Bearer, route: Route, look: Lookups)
    returns (schedule: seq<Action>)
    requires AsPlatform(env, bearer, route, look)
    ensures Run(true, EMPTY, schedule) ==
            Some(State(PLATFORM_TASK, map[0 := Conn(PlatformRole, Some(""), "", None, InTransaction(0))],
                       [Began(0, 0)]))
    ensures schedule != [] && schedule[0] == Start(0, Handler(env, bearer, route, look))
  {
    var c := Conn(PlatformRole, None, "", None, CheckedOut(0, Transaction));
    schedule := [];
    var handler := Start(0, Handler(env, bearer, route, look));
    RunOneMore(true, EMPTY, schedule, EMPTY, handler);
    schedule := schedule + [handler];
    RunOneMore(true, EMPTY, schedule, State(PLATFORM_TASK, map[], []), Connect(0, 0, Transaction));
    schedule := schedule + [Connect(0, 0, Transaction)];
    RunOneMore(true, EMPTY, schedule, State(PLATFORM_TASK, map[0 := c], []), ApplyStart(0));
    schedule := schedule + [ApplyStart(0)];
    var setting := c.(phase := Setting(0, Transaction, ""));
    assert map[0 := c][0 := setting] == map[0 := setting];
    RunOneMore(true, EMPTY, schedule, State(PLATFORM_TASK, map[0 := setting], []), ApplyDone(0, true, true));
    schedule := schedule + [ApplyDone(0, true, true)];
    var ready := c.(tag := Some(""), phase := Ready(0, Transaction));
    assert map[0 := setting][0 := ready] == map[0 := ready];
    RunOneMore(true, EMPTY, schedule, State(PLATFORM_TASK, map[0 := ready], []), Begin(0));
    schedule := schedule + [Begin(0)];
    var began: seq<Event> := [Began(0, 0)];
    assert [] + began == began;
    assert map[0 := ready][0 := ready.(phase := InTransaction(0))] == map[0 := ready.(phase := InTransaction(0))];
  }

  /**
   * And such a transaction is one the platform's routes open: whichever actor's request it
   * is, auditing a change to tenant `t` runs the audit insert as `t` on the platform's role.
   */
  lemma PlatformAuditCarriesItsTenant(env: Environment, bearer: Bearer, route: Route, look: Lookups, t: string)
    returns (schedule: seq<Action>, s: State)
    requires AsPlatform(env, bearer, route, look) && IsUuid(t)
    ensures Run(true, EMPTY, schedule) == Some(s)
    ensures schedule != [] && schedule[0] == Start(0, Handler(env, bearer, route, look))
    ensures |s.log| == 3 && s.log[1] == LocalSet(0, t) && s.log[2] == Ran(0, 0, PlatformRole, true, 7, t)
  {
    var c := Conn(PlatformRole, Some(""), "", None, InTransaction(0));
    schedule := PlatformTransactionOpens(env, bearer, route, look);
    RunOneMore(true, EMPTY, schedule, State(PLATFORM_TASK, map[0 := c], [Began(0, 0)]), SetLocal(0, t));
    schedule := schedule + [SetLocal(0, t)];
    var local := c.(local := Some(t));
    assert map[0 := c][0 := local] == map[0 := local];
    s := State(PLATFORM_TASK, map[0 := local], [Began(0, 0), LocalSet(0, t)]);
    assert [Began(0, 0)] + [LocalSet(0, t)] == s.log;
    RunOneMore(true, EMPTY, schedule, s, TxQuery(0, 0, 7));
    schedule := schedule + [TxQuery(0, 0, 7)];
    s := Log(s, Ran(0, 0, PlatformRole, true, 7, t));
  }

  /** A task keeps for good the scope it was started in. */
  lemma {:induction false} ScopesAreFixed(memo: bool, s: State, schedule: seq<Action>)
    requires Run(memo, s, schedule).Some?
    ensures forall t :: t in s.tasks ==>
              t in Run(memo, s, schedule).value.tasks && Run(memo, s, schedule).value.tasks[t] == s.tasks[t]
    decreases |schedule|
  {
    if schedule != [] {
      ScopesAreFixed(memo, Next(memo, s, schedule[0]).value, schedule[1..]);
    }
  }

  // ---------------------------------------------------------------- what each way of starting a task leads to

  /** A run in which `task` starts by `entry` after `before`, and everything goes on with `after`. */
  ghost function RunStarting(before: seq<Action>, task: nat, entry: Entry, after: seq<Action>): Option<State> {
    Run(true, EMPTY, before + [Start(task, entry)] + after)
  }

  /** The tenant a request's token names, when a tenant's lookups may run in its name. */
  ghost predicate LookedUpAs(env: Environment, bearer: Bearer, route: Route, t: string) {
    && !(route.skipAuth || route.pattern == "/health")
    && AcceptedClaims(env, bearer).Some?
    && var p := AcceptedClaims(env, bearer).value;
       !p.platform && (p.sub != "" || p.id != "") && IsUuid(t)
       && t == if p.utility_id != "" then p.utility_id else p.utilityId
  }

  /** What a plain query of a task started by `entry` may carry, said of the entry alone. */
  ghost predicate CarriesFor(entry: Entry, pool: PoolName, effective: string) {
    match entry
    case Unscoped => pool == TenantRole && effective == ""
    case Handler(env, bearer, route, look) =>
      && (pool == PlatformRole <==> AsPlatform(env, bearer, route, look))
      && effective == if AsUser(env, bearer, route, look) && IsUuid(AcceptedClaims(env, bearer).value.TenantId())
                      then AcceptedClaims(env, bearer).value.TenantId() else ""
    case Lookup(env, bearer, route) =>
      && pool == TenantRole
      && (effective != "" ==> LookedUpAs(env, bearer, route, effective))
      && (forall t :: LookedUpAs(env, bearer, route, t) ==> effective == t)
    case Job(DelinquencyTenant, id) => pool == TenantRole && id == Some(effective) && IsUuid(effective)
    case Job(Imports, id) => pool == TenantRole && id == Some(effective) && IsUuid(effective)
    case Job(BillingRuns, id) => pool == TenantRole && id == Some(effective) && IsUuid(effective)
    case Job(_, _) => pool == PlatformRole && effective == ""
    case Inherit(_) => true
    case AsTenant(_, t) => pool == TenantRole && effective == t && IsUuid(t)
    case AsPlatformFrom(_) => pool == PlatformRole && effective == ""
  }

  lemma StartsInRun(before: seq<Action>, task: nat, entry: Entry, after: seq<Action>)
    requires RunStarting(before, task, entry, after).Some?
    ensures Run(true, EMPTY, before).Some?
    ensures var mid := Run(true, EMPTY, before).value;
            && Inv(mid) && task !in mid.tasks && ScopeOf(mid, entry).Some?
            && var s := RunStarting(before, task, entry, after).value;
               && Inv(s) && task in s.tasks && s.tasks[task] == ScopeOf(mid, entry).value
               && forall t :: t in mid.tasks ==> t in s.tasks && s.tasks[t] == mid.tasks[t]
  {
    var start := Start(task, entry);
    RunConcat(true, EMPTY, before + [start], after);
    RunConcat(true, EMPTY, before, [start]);
    assert [start][1..] == [];
    var mid := Run(true, EMPTY, before).value;
    RunKeepsInv(EMPTY, before);
    RunKeepsInv(EMPTY, before + [start] + after);
    ScopesAreFixed(true, Next(true, mid, start).value, after);
  }

  /**
   * Main result: whatever else is running, each plain query of a task carries what the way
   * the task was started says: the tenant `runAsTenant` was given, none for
   * `runAsPlatform`, and the tenant of a job's payload on its three queues only.
   */
  lemma QueriesCarryForTheirEntry(before: seq<Action>, task: nat, entry: Entry, after: seq<Action>, i: nat)
    requires RunStarting(before, task, entry, after).Some?
    requires i < |RunStarting(before, task, entry, after).value.log|
    requires var e := RunStarting(before, task, entry, after).value.log[i];
             e.Ran? && !e.inTransaction && e.task == task
    ensures var e := RunStarting(before, task, entry, after).value.log[i];
            CarriesFor(entry, e.pool, e.effective)
  {
    var s := RunStarting(before, task, entry, after).value;
    StartsInRun(before, task, entry, after);
    assert Faithful(s.tasks, s.log[..i], s.log[i]);
    ScopeCarriesFor(Run(true, EMPTY, before).value, entry);
  }

  /**
   * Main result, request to row: whatever else is running, every plain query of a
   * request's handler sees the tenant its token names if that is a uuid and the route is
   * a tenant's, and no tenant at all otherwise.
   */
  lemma HandlerQueriesSeeTheirTenant(before: seq<Action>, task: nat, env: Environment, bearer: Bearer, route: Route,
                                     look: Lookups, after: seq<Action>, i: nat)
    requires RunStarting(before, task, Handler(env, bearer, route, look), after).Some?
    requires var log := RunStarting(before, task, Handler(env, bearer, route, look), after).value.log;
             i < |log| && log[i].Ran? && !log[i].inTransaction && log[i].task == task
    ensures var e := RunStarting(before, task, Handler(env, bearer, route, look), after).value.log[i];
            && (e.pool == PlatformRole <==> AsPlatform(env, bearer, route, look))
            && e.effective ==
               if AsUser(env, bearer, route, look) && IsUuid(AcceptedClaims(env, bearer).value.TenantId())
               then AcceptedClaims(env, bearer).value.TenantId() else ""
  {
    QueriesCarryForTheirEntry(before, task, Handler(env, bearer, route, look), after, i);
  }

  lemma ScopeCarriesFor(s: State, entry: Entry)
    requires ScopeOf(s, entry).Some?
    ensures CarriesFor(entry, PoolFor(ScopeOf(s, entry).value), Want(ScopeOf(s, entry).value))
  {
    if entry.Lookup? { LookupCarriesFor(entry.env, entry.bearer, entry.route); }
    hide IsUuid, AcceptedClaims;
  }

  lemma LookupCarriesFor(env: Environment, bearer: Bearer, route: Route)
    ensures var scope := AuthorizationScope(env, bearer, route);
            CarriesFor(Lookup(env, bearer, route), PoolFor(scope), Want(scope))
  {
    hide AcceptedClaims;
  }

  /** A task that inherits its scope sees exactly what its parent sees. */
  lemma InheritedQueriesSeeAlike(before: seq<Action>, task: nat, parent: nat, after: seq<Action>, i: nat, j: nat)
    requires RunStarting(before, task, Inherit(parent), after).Some?
    requires var log := RunStarting(before, task, Inherit(parent), after).value.log;
             && i < |log| && log[i].Ran? && !log[i].inTransaction && log[i].task == task
             && j < |log| && log[j].Ran? && !log[j].inTransaction && log[j].task == parent
    ensures var log := RunStarting(before, task, Inherit(parent), after).value.log;
            log[i].effective == log[j].effective && log[i].pool == log[j].pool
  {
    var s := RunStarting(before, task, Inherit(parent), after).value;
    StartsInRun(before, task, Inherit(parent), after);
    assert Faithful(s.tasks, s.log[..i], s.log[i]);
    assert Faithful(s.tasks, s.log[..j], s.log[j]);
  }

  /** A task starts only under a name not taken, from a parent that runs, and under a tenant only if that is a uuid. */
  lemma StartsExactly(s: State, task: nat, entry: Entry)
    ensures Next(true, s, Start(task, entry)).Some? <==>
            task !in s.tasks
            && match entry
               case Unscoped => true
               case Handler(env, bearer, route, look) =>
                 AsPlatform(env, bearer, route, look) || AsUser(env, bearer, route, look)
                 || ((route.skipAuth || route.pattern == "/health")
                     && !route.platform && !("/admin/queues" <= route.url))
               case Lookup(_, _, _) => true
               case Job(DelinquencyTenant, id) => id.Some? && IsUuid(id.value)
               case Job(Imports, id) => id.Some? && IsUuid(id.value)
               case Job(BillingRuns, id) => id.Some? && IsUuid(id.value)
               case Job(_, _) => true
               case Inherit(parent) => parent in s.tasks
               case AsTenant(parent, t) => parent in s.tasks && IsUuid(t)
               case AsPlatformFrom(parent) => parent in s.tasks
  {
    hide AcceptedClaims;
  }

  // ---------------------------------------------------------------- refinement

  function Untagged(s: State): State {
    s.(conns := map id | id in s.conns :: s.conns[id].(tag := None))
  }

  /** The steps the unmemoised pool takes for one of the memoised pool's. */
  function Expanded(s: State, a: Action): seq<Action> {
    if a.ApplyStart? && Next(true, s, a).Some? && Next(true, s, a).value.conns[a.conn].phase.Ready?
    then [a, ApplyDone(a.conn, true, true)] else [a]
  }

  function ExpandedRun(s: State, schedule: seq<Action>): seq<Action>
    decreases |schedule|
  {
    if schedule == [] || Next(true, s, schedule[0]).None? then []
    else Expanded(s, schedule[0]) + ExpandedRun(Next(true, s, schedule[0]).value, schedule[1..])
  }

  lemma UntaggedPut(s: State, id: nat, c: Conn)
    ensures Untagged(Put(s, id, c)) == Put(Untagged(s), id, c.(tag := None))
  {}

  lemma UntaggedConn(s: State, id: nat)
    requires id in s.conns
    ensures id in Untagged(s).conns && Untagged(s).conns[id] == s.conns[id].(tag := None)
  {}

  /** A step that is not a skipped SET is the same step of the naive pool. */
  lemma ConnStepRefines(s: State, a: Action)
    requires !a.Start? && !a.Connect? && !a.TxQuery? && a.conn in s.conns
    requires ConnStep(true, s, a, s.conns[a.conn]).Some?
    requires a.ApplyStart? ==> !ConnStep(true, s, a, s.conns[a.conn]).value.conns[a.conn].phase.Ready?
    ensures Next(false, Untagged(s), a) == Some(Untagged(ConnStep(true, s, a, s.conns[a.conn]).value))
  {
    UntaggedConn(s, a.conn);
    var s' := ConnStep(true, s, a, s.conns[a.conn]).value;
    UntaggedPut(s, a.conn, s'.conns[a.conn]);
    assert s'.conns == Put(s, a.conn, s'.conns[a.conn]).conns;
    assert Untagged(s').conns == Untagged(Put(s, a.conn, s'.conns[a.conn])).conns;
  }

  lemma OtherStepRefines(s: State, a: Action)
    requires a.Start? || a.Connect? || a.TxQuery?
    requires Next(true, s, a).Some?
    ensures Next(false, Untagged(s), a) == Some(Untagged(Next(true, s, a).value))
  {
    var s' := Next(true, s, a).value;
    if a.Connect? {
      UntaggedPut(s, a.conn, s'.conns[a.conn]);
    } else {
      assert Untagged(s').conns == Untagged(s).conns;
    }
  }

  /** Where the tag matches, the naive pool's SET changes nothing. */
  lemma SkippedSetRefines(s: State, conn: nat)
    requires Inv(s) && Next(true, s, ApplyStart(conn)).Some?
    requires Next(true, s, ApplyStart(conn)).value.conns[conn].phase.Ready?
    ensures var mid := Next(false, Untagged(s), ApplyStart(conn));
            mid.Some? && Next(false, mid.value, ApplyDone(conn, true, true))
                      == Some(Untagged(Next(true, s, ApplyStart(conn)).value))
  {
    var c := s.conns[conn];
    assert GoodConn(s.tasks, s.log, conn, c);
    UntaggedConn(s, conn);
    var s' := Next(true, s, ApplyStart(conn)).value;
    UntaggedPut(s, conn, s'.conns[conn]);
    var mid := Next(false, Untagged(s), ApplyStart(conn)).value;
    var last := Next(false, mid, ApplyDone(conn, true, true)).value;
    assert last.conns == Untagged(s').conns;
  }

  lemma StepRefines(s: State, a: Action)
    requires Inv(s) && Next(true, s, a).Some?
    ensures Run(false, Untagged(s), Expanded(s, a)) == Some(Untagged(Next(true, s, a).value))
  {
    if a.ApplyStart? && Next(true, s, a).value.conns[a.conn].phase.Ready? {
      SkippedSetRefines(s, a.conn);
      var mid := Next(false, Untagged(s), a).value;
      assert [a][1..] == [];
      assert Run(false, Untagged(s), [a]) == Some(mid);
      RunOneMore(false, Untagged(s), [a], mid, ApplyDone(a.conn, true, true));
      assert Expanded(s, a) == [a] + [ApplyDone(a.conn, true, true)];
    } else {
      if a.Start? || a.Connect? || a.TxQuery? { OtherStepRefines(s, a); } else { ConnStepRefines(s, a); }
      assert Expanded(s, a)[1..] == [];
    }
  }

  lemma {:induction false} RunConcat(memo: bool, s: State, a: seq<Action>, b: seq<Action>)
    ensures Run(memo, s, a + b) == if Run(memo, s, a).None? then None else Run(memo, Run(memo, s, a).value, b)
    decreases |a|
  {
    if a == [] {
      assert a + b == b;
    } else {
      assert (a + b)[1..] == a[1..] + b;
      if Next(memo, s, a[0]).Some? { RunConcat(memo, Next(memo, s, a[0]).value, a[1..], b); }
    }
  }

  lemma {:induction false} RunRefines(s: State, schedule: seq<Action>)
    requires Inv(s) && Run(true, s, schedule).Some?
    ensures Run(false, Untagged(s), ExpandedRun(s, schedule)) == Some(Untagged(Run(true, s, schedule).value))
    decreases |schedule|
  {
    if schedule != [] {
      var s' := Next(true, s, schedule[0]).value;
      StepKeepsInv(s, schedule[0]);
      StepRefines(s, schedule[0]);
      RunRefines(s', schedule[1..]);
      RunConcat(false, Untagged(s), Expanded(s, schedule[0]), ExpandedRun(s', schedule[1..]));
    }
  }

  /**
   * Main result, refinement: for every schedule, setting the tenant before every use
   * instead of remembering it yields the same statements, in the same order, with the
   * same effective settings.
   */
  lemma MemoisedPoolRefinesNaive(schedule: seq<Action>)
    requires Run(true, EMPTY, schedule).Some?
    ensures var naive := Run(false, EMPTY, ExpandedRun(EMPTY, schedule));
            naive.Some? && naive.value.log == Run(true, EMPTY, schedule).value.log
            && naive.value.tasks == Run(true, EMPTY, schedule).value.tasks
  {
    assert Untagged(EMPTY) == EMPTY;
    RunRefines(EMPTY, schedule);
  }

  // ---------------------------------------------------------------- and conversely

  /**
   * A naive step that the memoised pool in state `m` does without: the answer to a SET it
   * skipped, or giving up the connection that such a SET broke, which it still has in hand.
   */
  predicate Needless(m: State, a: Action) {
    (a.ApplyDone? || a.Release?) && a.conn in m.conns && m.conns[a.conn].phase.Ready?
  }

  /** The memoised pool's schedule for a naive one: the same, less what it does without. */
  function Compressed(m: State, schedule: seq<Action>): seq<Action>
    decreases |schedule|
  {
    if schedule == [] then []
    else if Needless(m, schedule[0]) then Compressed(m, schedule[1..])
    else if Next(true, m, schedule[0]).None? then []
    else [schedule[0]] + Compressed(Next(true, m, schedule[0]).value, schedule[1..])
  }

  /**
   * The same connection in both pools, but for its tag; or a SET is under way that the
   * memoised pool skipped; or such a SET has failed.
   */
  predicate Paired(m: Conn, n: Conn) {
    || n == m.(tag := None)
    || (m.phase.Ready? && m.tag.Some?
        && n == m.(tag := None, phase := Setting(m.phase.task, m.phase.use, m.tag.value)))
    || (m.phase.Ready? && (n.phase.Broken? || n.phase.Destroyed?))
  }

  ghost predicate Matched(m: State, n: State) {
    && m.tasks == n.tasks && m.log == n.log && m.conns.Keys == n.conns.Keys
    && forall id :: id in m.conns ==> Paired(m.conns[id], n.conns[id])
  }

  lemma PutMatched(m: State, n: State, id: nat, c: Conn, d: Conn)
    requires Matched(m, n) && Paired(c, d)
    ensures Matched(Put(m, id, c), Put(n, id, d))
  {}

  /** The answer to a skipped SET leaves the session as it was, or costs the naive pool its connection. */
  lemma NeedlessStepMatches(m: State, n: State, a: Action)
    requires Inv(m) && Matched(m, n) && Needless(m, a) && Next(false, n, a).Some?
    ensures Matched(m, Next(false, n, a).value)
  {
    assert GoodConn(m.tasks, m.log, a.conn, m.conns[a.conn]);
    PutMatched(m, n, a.conn, m.conns[a.conn], Next(false, n, a).value.conns[a.conn]);
    assert Put(m, a.conn, m.conns[a.conn]) == m;
  }

  lemma ConnStepMatches(m: State, n: State, a: Action)
    requires Matched(m, n) && !a.Start? && !a.Connect? && !a.TxQuery? && !Needless(m, a)
    requires Next(false, n, a).Some?
    ensures Next(true, m, a).Some? && Matched(Next(true, m, a).value, Next(false, n, a).value)
  {
    assert Paired(m.conns[a.conn], n.conns[a.conn]);
    var m', n' := Next(true, m, a).value, Next(false, n, a).value;
    PutMatched(m, n, a.conn, m'.conns[a.conn], n'.conns[a.conn]);
  }

  lemma OtherStepMatches(m: State, n: State, a: Action)
    requires Matched(m, n) && (a.Start? || a.Connect? || a.TxQuery?) && Next(false, n, a).Some?
    ensures Next(true, m, a).Some? && Matched(Next(true, m, a).value, Next(false, n, a).value)
  {
    if !a.Start? && a.conn in m.conns { assert Paired(m.conns[a.conn], n.conns[a.conn]); }
    if a.Connect? {
      var m', n' := Next(true, m, a).value, Next(false, n, a).value;
      PutMatched(m, n, a.conn, m'.conns[a.conn], n'.conns[a.conn]);
    }
  }

  lemma {:induction false} RunMatches(m: State, n: State, schedule: seq<Action>)
    requires Inv(m) && Matched(m, n) && Run(false, n, schedule).Some?
    ensures Run(true, m, Compressed(m, schedule)).Some?
    ensures Matched(Run(true, m, Compressed(m, schedule)).value, Run(false, n, schedule).value)
    decreases |schedule|
  {
    if schedule != [] {
      var a := schedule[0];
      var n' := Next(false, n, a).value;
      if Needless(m, a) {
        NeedlessStepMatches(m, n, a);
        RunMatches(m, n', schedule[1..]);
      } else {
        if a.Start? || a.Connect? || a.TxQuery? { OtherStepMatches(m, n, a); } else { ConnStepMatches(m, n, a); }
        var m' := Next(true, m, a).value;
        StepKeepsInv(m, a);
        RunMatches(m', n', schedule[1..]);
        assert ([a] + Compressed(m', schedule[1..]))[1..] == Compressed(m', schedule[1..]);
      }
    }
  }

  /**
   * Main result, the converse: every schedule of the naive pool, with whatever SETs failing,
   * is matched by one of the memoised pool with the same log, so the two pools can show
   * exactly the same runs.
   */
  lemma NaiveIsMatchedByMemoised(schedule: seq<Action>)
    requires Run(false, EMPTY, schedule).Some?
    ensures var memoised := Run(true, EMPTY, Compressed(EMPTY, schedule));
            memoised.Some? && memoised.value.log == Run(false, EMPTY, schedule).value.log
            && memoised.value.tasks == Run(false, EMPTY, schedule).value.tasks
  {
    RunMatches(EMPTY, EMPTY, schedule);
  }
}
