/**
 * Who a piece of work acts for: the ambient scope of
 * packages/api/src/lib/tenant-context.ts and the queue wrapper of queue-scope.ts.
 */
module ActingScope {
  import opened Common

  datatype Acting = Tenant(utilityId: string) | Platform

  type Scope = Option<Acting>

  predicate HexDigit(c: char) { '0' <= c <= '9' || 'a' <= c <= 'f' || 'A' <= c <= 'F' }

  /** UUID_RE, case-insensitively. */
  predicate IsUuid(s: string) {
    |s| == 36 && forall i :: 0 <= i < 36 ==> if i in {8, 13, 18, 23} then s[i] == '-' else HexDigit(s[i])
  }

  lemma HexDigits(c: char)
    ensures HexDigit(c) <==> c in "0123456789abcdefABCDEF"
  {}

  ghost predicate AllHex(s: string) { forall i :: 0 <= i < |s| ==> s[i] in "0123456789abcdefABCDEF" }

  lemma HexSlice(s: string, from: nat, end: nat)
    requires from <= end <= |s| && forall i :: from <= i < end ==> HexDigit(s[i])
    ensures AllHex(s[from..end])
  {
    forall i | 0 <= i < end - from ensures s[from..end][i] in "0123456789abcdefABCDEF" { HexDigits(s[from + i]); }
  }

  ghost predicate FiveGroups(s: string, a: string, b: string, c: string, d: string, e: string) {
    && |a| == 8 && |b| == 4 && |c| == 4 && |d| == 4 && |e| == 12
    && AllHex(a) && AllHex(b) && AllHex(c) && AllHex(d) && AllHex(e)
    && s == a + "-" + b + "-" + c + "-" + d + "-" + e
  }

  lemma GroupsMakeUuid(s: string, a: string, b: string, c: string, d: string, e: string)
    requires FiveGroups(s, a, b, c, d, e)
    ensures IsUuid(s)
  {
    forall i | 0 <= i < 36 ensures if i in {8, 13, 18, 23} then s[i] == '-' else HexDigit(s[i]) {
      HexDigits(s[i]);
      assert 0 <= i < 8 ==> s[i] == a[i];
      assert 8 < i < 13 ==> s[i] == b[i - 9];
      assert 13 < i < 18 ==> s[i] == c[i - 14];
      assert 18 < i < 23 ==> s[i] == d[i - 19];
      assert 23 < i ==> s[i] == e[i - 24];
    }
  }

  lemma UuidSplits(s: string)
    requires IsUuid(s)
    ensures FiveGroups(s, s[0..8], s[9..13], s[14..18], s[19..23], s[24..36])
  {
    HexSlice(s, 0, 8);
    HexSlice(s, 9, 13);
    HexSlice(s, 14, 18);
    HexSlice(s, 19, 23);
    HexSlice(s, 24, 36);
    assert s == s[0..8] + "-" + s[9..13] + "-" + s[14..18] + "-" + s[19..23] + "-" + s[24..36];
  }

  /** A uuid is five groups of hex digits, of 8, 4, 4, 4 and 12, joined by hyphens. */
  lemma UuidIsFiveGroups(s: string)
    ensures IsUuid(s) <==> exists a, b, c, d, e :: FiveGroups(s, a, b, c, d, e)
  {
    if IsUuid(s) { UuidSplits(s); }
    if a, b, c, d, e :| FiveGroups(s, a, b, c, d, e) { GroupsMakeUuid(s, a, b, c, d, e); }
  }

  /** The session value a scope asks for; nothing for the platform and for no scope. */
  function Want(scope: Scope): string {
    match scope
    case Some(Tenant(id)) => id
    case _ => ""
  }

  /** Rejected (None) unless the id is a uuid; otherwise the scope `fn` runs in. */
  function RunAsTenant(utilityId: string): Option<Scope> {
    if IsUuid(utilityId) then Some(Some(Tenant(utilityId))) else None
  }

  datatype Tenancy = AllTenants | PerTenant

  datatype QueueName =
    | SuspensionTransitions | NotificationSend | SlaBreachSweep | DelinquencyDispatch | BillingDispatch
    | DelinquencyTenant | AuditRetention | Imports | BillingRuns | IntervalCoverageSweep

  function QueueTenancy(queue: QueueName): Tenancy {
    if queue in {DelinquencyTenant, Imports, BillingRuns} then PerTenant else AllTenants
  }

  /** scopedJob: the scope of a job's handler, or None when the job is refused. */
  function ScopedJob(queue: QueueName, utilityId: Option<string>): Option<Scope> {
    if QueueTenancy(queue) == AllTenants then Some(Some(Platform))
    else if utilityId.None? || utilityId.value == "" then None
    else RunAsTenant(utilityId.value)
  }

  /** A job never runs unscoped: it is the platform's by declaration, its own tenant's, or refused. */
  lemma JobsAreNeverUnscoped(queue: QueueName, utilityId: Option<string>)
    ensures var scope := ScopedJob(queue, utilityId);
            && (scope.Some? ==> scope.value.Some?)
            && (scope == Some(Some(Platform)) <==> QueueTenancy(queue) == AllTenants)
            && (forall t :: scope == Some(Some(Tenant(t))) <==>
                  QueueTenancy(queue) == PerTenant && utilityId == Some(t) && IsUuid(t))
  {}
}

/**
 * The request hooks, in the order packages/api/src/app.ts adds them: auth, tenant
 * scope, tenant, authorization, platform scope. A hook that sends a reply ends the
 * pipeline.
 */
module RequestPipeline {
  import opened Common
  import opened ActingScope

  // ---------------------------------------------------------------- what a request brings

  /** Token claims; an absent claim is the empty string, which JavaScript treats the same way here. */
  datatype Payload = Payload(sub: string, id: string, utility_id: string, utilityId: string, platform: bool,
                             customerId: Option<string>)
  {
    function UserId(): string { if sub != "" then sub else id }

    function TenantId(): string { if utility_id != "" then utility_id else utilityId }
  }

  /**
   * `unsigned` means that the token's header says its algorithm is "none"; a token without a
   * header, such as a bare JSON object, is not `unsigned`. `verified` is what checking the
   * signature yields and `decoded` what reading without checking yields.
   */
  datatype Bearer = NoBearer | Bearer(unsigned: bool, verified: Option<Payload>, decoded: Option<Payload>)

  datatype Environment = Environment(production: bool, hasSecret: bool)

  datatype Route = Route(pattern: string, url: string, skipAuth: bool, platform: bool, moduleName: string,
                         permission: string, refusedInOverlay: bool, refusedWhenMirrored: bool)
  {
    predicate Public() { skipAuth || pattern == "/health" }

    predicate IsPlatform() { platform || "/admin/queues" <= url }
  }

  datatype UtilityGuards = UtilityGuards(suspended: bool, overlay: bool)

  datatype Role = Role(isActive: bool, permissions: map<string, set<string>>)

  /** What the database answers about the identity. */
  datatype Lookups =
    Lookups(isPlatformActor: bool, guards: Option<UtilityGuards>, modules: set<string>, role: Option<Role>) {
    predicate Suspended() { guards.Some? && guards.value.suspended }

    predicate Overlay() { guards.Some? && guards.value.overlay }

    predicate Permits(moduleName: string, permission: string) {
      && role.Some?
      && role.value.isActive
      && (permission != "" ==>
            moduleName in role.value.permissions && permission in role.value.permissions[moduleName])
    }
  }

  datatype User = User(id: string, utilityId: string, customerId: Option<string>)

  datatype Reply = Reply(status: nat, code: string)

  // ---------------------------------------------------------------- what should happen

  /**
   * The claims the request is entitled to: verified when a secret is set, unverified only
   * outside production or without one.
   */
  function AcceptedClaims(env: Environment, bearer: Bearer): Option<Payload> {
    if bearer.NoBearer? || (bearer.unsigned && env.production) then None
    else if !bearer.unsigned && env.hasSecret then bearer.verified
    else bearer.decoded
  }

  predicate NamesTenant(p: Payload) { p.UserId() != "" && !p.platform && p.TenantId() != "" }

  predicate NamesPlatform(p: Payload) { p.UserId() != "" && p.platform && p.TenantId() == "" }

  // ---------------------------------------------------------------- guards

  datatype Guard = Guard(passes: bool, refusal: Reply)

  predicate Granted(route: Route, role: Role) {
    route.permission == ""
    || (route.moduleName in role.permissions && route.permission in role.permissions[route.moduleName])
  }

  /** What authorization insists on, in the order it answers. */
  function GuardsOf(route: Route, look: Lookups, user: Option<User>, actor: Option<string>): seq<Guard> {
    if route.IsPlatform() then
      [Guard(actor.Some?, Reply(403, "PLATFORM_REQUIRED")), Guard(look.isPlatformActor, Reply(403, "FORBIDDEN"))]
    else if actor.Some? || route.moduleName == "" || user.None? then
      [Guard(actor.None?, Reply(403, "TENANT_CONTEXT_REQUIRED"))]
    else
      [Guard(!look.Suspended(), Reply(403, "UTILITY_SUSPENDED")),
       Guard(route.moduleName in look.modules, Reply(403, "MODULE_DISABLED")),
       Guard(!(route.refusedWhenMirrored && look.Overlay()), Reply(409, "RECORD_MIRRORED_FROM_LEGACY")),
       Guard(!(route.refusedInOverlay && look.Overlay()), Reply(409, "UTILITY_IN_OVERLAY_MODE")),
       Guard(look.role.Some?, Reply(403, "USER_NOT_PROVISIONED")),
       Guard(look.role.Some? && look.role.value.isActive, Reply(403, "USER_INACTIVE")),
       Guard(look.role.Some? && Granted(route, look.role.value), Reply(403, "FORBIDDEN"))]
  }

  function FirstRefusal(guards: seq<Guard>): Option<Reply> {
    if guards == [] then None
    else if !guards[0].passes then Some(guards[0].refusal)
    else FirstRefusal(guards[1..])
  }

  ghost predicate AllPass(guards: seq<Guard>) { forall i :: 0 <= i < |guards| ==> guards[i].passes }

  /** No refusal exactly when every guard passes; otherwise that of a failing guard all of whose predecessors passed. */
  lemma {:induction false} FirstRefusalIs(guards: seq<Guard>)
    ensures FirstRefusal(guards).None? <==> AllPass(guards)
    ensures FirstRefusal(guards).Some? ==>
              exists i :: 0 <= i < |guards| && !guards[i].passes && AllPass(guards[..i])
                          && FirstRefusal(guards) == Some(guards[i].refusal)
  {
    if guards != [] {
      FirstRefusalIs(guards[1..]);
      if guards[0].passes && FirstRefusal(guards).Some? {
        var i :| 0 <= i < |guards| - 1 && !guards[1..][i].passes && AllPass(guards[1..][..i])
                 && FirstRefusal(guards[1..]) == Some(guards[1..][i].refusal);
        forall j | 0 <= j < i + 1 ensures guards[j].passes {
          if j > 0 { assert guards[1..][..i][j - 1].passes; }
        }
        assert !guards[i + 1].passes;
      } else {
        assert AllPass(guards[..0]);
      }
      assert AllPass(guards[1..]) ==> forall i :: 1 <= i < |guards| ==> guards[i] == guards[1..][i - 1];
    }
  }

  lemma {:induction false} FirstRefusalAt(guards: seq<Guard>, i: nat)
    requires i < |guards| && !guards[i].passes && forall j :: 0 <= j < i ==> guards[j].passes
    ensures FirstRefusal(guards) == Some(guards[i].refusal)
  {
    if i > 0 { FirstRefusalAt(guards[1..], i - 1); }
  }

  lemma RefusalsDiffer(route: Route, look: Lookups, user: Option<User>, actor: Option<string>)
    ensures var guards := GuardsOf(route, look, user, actor);
            forall i, j :: 0 <= i < j < |guards| ==> guards[i].refusal != guards[j].refusal
  {}

  /** The guards a module route puts in front of a tenant's user. */
  predicate ModuleAdmits(route: Route, look: Lookups) {
    && !look.Suspended()
    && route.moduleName in look.modules
    && !(look.Overlay() && (route.refusedWhenMirrored || route.refusedInOverlay))
    && look.Permits(route.moduleName, route.permission)
  }

  predicate AsPlatform(env: Environment, bearer: Bearer, route: Route, look: Lookups) {
    var claims := AcceptedClaims(env, bearer);
    !route.Public() && route.IsPlatform() && claims.Some? && NamesPlatform(claims.value) && look.isPlatformActor
  }

  predicate AsUser(env: Environment, bearer: Bearer, route: Route, look: Lookups) {
    var claims := AcceptedClaims(env, bearer);
    && !route.Public() && !route.IsPlatform() && claims.Some? && NamesTenant(claims.value)
    && (route.moduleName != "" ==> ModuleAdmits(route, look))
  }

  predicate AsNobody(route: Route) { route.Public() && !route.IsPlatform() }

  /** The scope the handler runs in, or None when no handler runs. */
  function HandlerScope(env: Environment, bearer: Bearer, route: Route, look: Lookups): Option<Scope> {
    if AsPlatform(env, bearer, route, look) then Some(Some(Platform))
    else if AsUser(env, bearer, route, look) then
      var t := AcceptedClaims(env, bearer).value.TenantId();
      Some(if IsUuid(t) then Some(Tenant(t)) else None)
    else if AsNobody(route) then Some(None)
    else None
  }

  /** The scope of the lookups authorization makes. */
  function AuthorizationScope(env: Environment, bearer: Bearer, route: Route): Scope {
    var claims := AcceptedClaims(env, bearer);
    if route.Public() || claims.None? || !NamesTenant(claims.value) then None
    else if IsUuid(claims.value.TenantId()) then Some(Tenant(claims.value.TenantId())) else None
  }

  // ---------------------------------------------------------------- the hooks as steps

  /**
   * A lookup authorization made: the scope it ran in, whether an actor was confirmed by
   * then, and whose tenant it was about.
   */
  datatype Access = Access(scope: Scope, confirmed: bool, tenant: string)

  datatype RequestState = RequestState(user: Option<User>, platformActor: Option<string>, reply: Option<Reply>,
                                       scope: Scope, confirmed: bool, lookups: seq<Access>)

  const FRESH := RequestState(None, None, None, None, false, [])

  datatype Hook = Auth | TenantScope | TenantCheck | Authorization | PlatformScope

  /** The order of packages/api/src/app.ts. */
  const APP_ORDER: seq<Hook> := [Auth, TenantScope, TenantCheck, Authorization, PlatformScope]

  datatype Incoming = Incoming(env: Environment, bearer: Bearer, route: Route, look: Lookups)

  function AuthStep(env: Environment, bearer: Bearer, route: Route, r: RequestState): RequestState {
    if route.Public() then r
    else
      var claims := AcceptedClaims(env, bearer);
      if claims.Some? && NamesTenant(claims.value) then r.(user := Some(UserOf(claims.value)))
      else if claims.Some? && NamesPlatform(claims.value) then r.(platformActor := Some(claims.value.UserId()))
      else r.(reply := Some(Reply(401, "UNAUTHORIZED")))
  }

  function UserOf(p: Payload): User { User(p.UserId(), p.TenantId(), p.customerId) }

  function TenantScopeStep(r: RequestState): RequestState {
    if r.user.Some? && IsUuid(r.user.value.utilityId) then r.(scope := Some(Tenant(r.user.value.utilityId))) else r
  }

  function TenantCheckStep(route: Route, r: RequestState): RequestState {
    if route.Public() || r.platformActor.Some? || (r.user.Some? && r.user.value.utilityId != "") then r
    else r.(reply := Some(Reply(400, "BAD_REQUEST")))
  }

  function AuthorizationStep(route: Route, look: Lookups, r: RequestState): RequestState {
    var forActor := route.IsPlatform() && r.platformActor.Some?;
    var forTenant := !route.IsPlatform() && r.platformActor.None? && route.moduleName != "" && r.user.Some?;
    var lookups := if forActor then r.lookups + [Access(r.scope, r.confirmed, "")]
                   else if forTenant then r.lookups + [Access(r.scope, r.confirmed, r.user.value.utilityId)]
                   else r.lookups;
    r.(reply := FirstRefusal(GuardsOf(route, look, r.user, r.platformActor)),
       confirmed := r.confirmed || (forActor && look.isPlatformActor), lookups := lookups)
  }

  /** Authorization replies with a refusal exactly when its guard fails and every earlier one passes. */
  lemma RefusalsInOrder(route: Route, look: Lookups, r: RequestState, i: nat)
    requires i < |GuardsOf(route, look, r.user, r.platformActor)|
    ensures var guards := GuardsOf(route, look, r.user, r.platformActor);
            AuthorizationStep(route, look, r).reply == Some(guards[i].refusal) <==>
            !guards[i].passes && AllPass(guards[..i])
  {
    var guards := GuardsOf(route, look, r.user, r.platformActor);
    FirstRefusalIs(guards);
    RefusalsDiffer(route, look, r.user, r.platformActor);
    hide GuardsOf, FirstRefusal;
    if FirstRefusal(guards).Some? {
      var k :| 0 <= k < |guards| && !guards[k].passes && AllPass(guards[..k])
               && FirstRefusal(guards) == Some(guards[k].refusal);
      assert k < i ==> guards[..i][k] == guards[k];
      assert i < k ==> guards[..k][i] == guards[i];
    }
  }

  /** A tenant's user on a module route of a tenant whose switch is on. */
  ghost predicate OnModule(route: Route, r: RequestState) {
    && !route.platform && !("/admin/queues" <= route.url) && r.platformActor.None?
    && route.moduleName != "" && r.user.Some?
  }

  ghost predicate Enabled(route: Route, look: Lookups) {
    !(look.guards.Some? && look.guards.value.suspended) && route.moduleName in look.modules
  }

  ghost predicate Mirrored(look: Lookups) { look.guards.Some? && look.guards.value.overlay }

  /** The one guard that answers, on a module route. */
  lemma ModuleReply(route: Route, look: Lookups, r: RequestState)
    requires OnModule(route, r)
    ensures var guards := GuardsOf(route, look, r.user, r.platformActor);
            && |guards| == 7
            && FirstRefusal(guards) ==
               if !guards[0].passes then Some(guards[0].refusal) else if !guards[1].passes then Some(guards[1].refusal)
               else if !guards[2].passes then Some(guards[2].refusal)
               else if !guards[3].passes then Some(guards[3].refusal)
               else if !guards[4].passes then Some(guards[4].refusal)
               else if !guards[5].passes then Some(guards[5].refusal)
               else if !guards[6].passes then Some(guards[6].refusal) else None
  {
    var guards := GuardsOf(route, look, r.user, r.platformActor);
    FirstRefusalIs(guards);
    if i :| 0 <= i < 7 && !guards[i].passes && forall j :: 0 <= j < i ==> guards[j].passes {
      FirstRefusalAt(guards, i);
    }
    hide FirstRefusal;
  }

  /** Main result: when authorization answers with each of its replies, and that it has no others. */
  lemma RepliesExactly(route: Route, look: Lookups, r: RequestState)
    ensures var reply := AuthorizationStep(route, look, r).reply;
            var forPlatform, onModule := route.platform || "/admin/queues" <= route.url, OnModule(route, r);
            var admitted := onModule && Enabled(route, look)
                            && !(Mirrored(look) && (route.refusedWhenMirrored || route.refusedInOverlay));
            && (reply == Some(Reply(403, "PLATFORM_REQUIRED")) <==> forPlatform && r.platformActor.None?)
            && (reply == Some(Reply(403, "TENANT_CONTEXT_REQUIRED")) <==> !forPlatform && r.platformActor.Some?)
            && (reply == Some(Reply(403, "UTILITY_SUSPENDED")) <==>
                onModule && look.guards.Some? && look.guards.value.suspended)
            && (reply == Some(Reply(403, "MODULE_DISABLED")) <==>
                onModule && !(look.guards.Some? && look.guards.value.suspended)
                && route.moduleName !in look.modules)
            && (reply == Some(Reply(409, "RECORD_MIRRORED_FROM_LEGACY")) <==>
                onModule && Enabled(route, look) && Mirrored(look) && route.refusedWhenMirrored)
            && (reply == Some(Reply(409, "UTILITY_IN_OVERLAY_MODE")) <==>
                onModule && Enabled(route, look) && Mirrored(look) && !route.refusedWhenMirrored
                && route.refusedInOverlay)
            && (reply == Some(Reply(403, "USER_NOT_PROVISIONED")) <==> admitted && look.role.None?)
            && (reply == Some(Reply(403, "USER_INACTIVE")) <==>
                admitted && look.role.Some? && !look.role.value.isActive)
            && (reply == Some(Reply(403, "FORBIDDEN")) <==>
                || (forPlatform && r.platformActor.Some? && !look.isPlatformActor)
                || (admitted && look.role.Some? && look.role.value.isActive && route.permission != ""
                    && !(route.moduleName in look.role.value.permissions
                         && route.permission in look.role.value.permissions[route.moduleName])))
            && (reply.Some? ==> reply.value in {
                  Reply(403, "PLATFORM_REQUIRED"), Reply(403, "TENANT_CONTEXT_REQUIRED"),
                  Reply(403, "UTILITY_SUSPENDED"), Reply(403, "MODULE_DISABLED"),
                  Reply(409, "RECORD_MIRRORED_FROM_LEGACY"), Reply(409, "UTILITY_IN_OVERLAY_MODE"),
                  Reply(403, "USER_NOT_PROVISIONED"), Reply(403, "USER_INACTIVE"), Reply(403, "FORBIDDEN")})
  {
    var guards := GuardsOf(route, look, r.user, r.platformActor);
    if OnModule(route, r) {
      ModuleReply(route, look, r);
    } else if guards[0].passes && |guards| == 2 && !guards[1].passes {
      FirstRefusalAt(guards, 1);
    } else if guards[0].passes {
      FirstRefusalIs(guards);
    }
  }

  function PlatformScopeStep(r: RequestState): RequestState {
    if r.platformActor.Some? then r.(scope := Some(Platform)) else r
  }

  /** One hook; none runs once a reply has been sent. */
  function Step(h: Hook, q: Incoming, r: RequestState): RequestState {
    if r.reply.Some? then r
    else match h
      case Auth => AuthStep(q.env, q.bearer, q.route, r)
      case TenantScope => TenantScopeStep(r)
      case TenantCheck => TenantCheckStep(q.route, r)
      case Authorization => AuthorizationStep(q.route, q.look, r)
      case PlatformScope => PlatformScopeStep(r)
  }

  /** The request after the first `i` hooks of an order. */
  function After(order: seq<Hook>, q: Incoming, i: nat): RequestState
    requires i <= |order|
  {
    if i == 0 then FRESH else Step(order[i - 1], q, After(order, q, i - 1))
  }

  lemma {:induction false} NothingAfterAReply(order: seq<Hook>, q: Incoming, i: nat, j: nat)
    requires i <= j <= |order| && After(order, q, i).reply.Some?
    ensures After(order, q, j) == After(order, q, i)
    decreases j
  {
    if i < j { NothingAfterAReply(order, q, i, j - 1); }
  }

  lemma InAppOrder(q: Incoming)
    ensures After(APP_ORDER, q, 5) ==
            Step(PlatformScope, q,
                 Step(Authorization, q, Step(TenantCheck, q, Step(TenantScope, q, Step(Auth, q, FRESH)))))
  {
    assert After(APP_ORDER, q, 1) == Step(Auth, q, FRESH);
    assert After(APP_ORDER, q, 2) == Step(TenantScope, q, After(APP_ORDER, q, 1));
    assert After(APP_ORDER, q, 3) == Step(TenantCheck, q, After(APP_ORDER, q, 2));
    assert After(APP_ORDER, q, 4) == Step(Authorization, q, After(APP_ORDER, q, 3));
  }

  /** A module route's guards all pass exactly when it admits the user. */
  lemma GuardsAdmit(route: Route, look: Lookups, user: Option<User>, actor: Option<string>)
    ensures FirstRefusal(GuardsOf(route, look, user, actor)).None? <==>
            if route.IsPlatform() then actor.Some? && look.isPlatformActor
            else actor.None? && (route.moduleName == "" || user.None? || ModuleAdmits(route, look))
  {
    var guards := GuardsOf(route, look, user, actor);
    FirstRefusalIs(guards);
    if !route.IsPlatform() && actor.None? && route.moduleName != "" && user.Some? {
      assert AllPass(guards) <==> guards[0].passes && guards[1].passes && guards[2].passes && guards[3].passes
                                  && guards[4].passes && guards[5].passes && guards[6].passes;
    } else if route.IsPlatform() {
      assert AllPass(guards) <==> guards[0].passes && guards[1].passes;
    } else {
      assert AllPass(guards) <==> guards[0].passes;
    }
  }

  /** What the pipeline in its own order comes to. */
  lemma PipelineIs(q: Incoming)
    ensures var r := After(APP_ORDER, q, 5);
            && HandlerScope(q.env, q.bearer, q.route, q.look) == (if r.reply.None? then Some(r.scope) else None)
            && (forall a :: a in r.lookups ==>
                  && a.scope == AuthorizationScope(q.env, q.bearer, q.route)
                  && (a.tenant != "" ==> AcceptedClaims(q.env, q.bearer).Some?
                                         && a.tenant == AcceptedClaims(q.env, q.bearer).value.TenantId()))
  {
    InAppOrder(q);
    hide IsUuid, GuardsOf, FirstRefusal, ModuleAdmits;
    var before := Step(TenantCheck, q, Step(TenantScope, q, Step(Auth, q, FRESH)));
    GuardsAdmit(q.route, q.look, before.user, before.platformActor);
  }

  // ---------------------------------------------------------------- the hooks as the code runs them

  class Request {
    const route: Route
    var user: Option<User>
    var platformActor: Option<string>
    var reply: Option<Reply>
    /** The ambient scope the rest of the lifecycle inherits. */
    var scope: Scope
    /** What authorization has read so far, and whether it found an active actor. */
    ghost var confirmed: bool
    ghost var lookups: seq<Access>

    constructor (route: Route)
      ensures this.route == route && View() == FRESH
    {
      this.route := route;
      user, platformActor, reply, scope, confirmed, lookups := None, None, None, None, false, [];
    }

    ghost function View(): RequestState
      reads this
    {
      RequestState(user, platformActor, reply, scope, confirmed, lookups)
    }

    /** assignIdentity; false where the source throws. */
    method AssignIdentity(p: Payload) returns (ok: bool)
      requires user == None && platformActor == None
      modifies this`user, this`platformActor
      ensures ok <==> NamesTenant(p) || NamesPlatform(p)
      ensures user.None? || platformActor.None?
      ensures user == if NamesTenant(p) then Some(UserOf(p)) else None
      ensures platformActor == if NamesPlatform(p) then Some(p.UserId()) else None
    {
      var userId := p.UserId();
      var utilityId := p.TenantId();
      if userId == "" { return false; }
      if p.platform {
        if utilityId != "" { return false; }
        platformActor := Some(userId);
        return true;
      }
      if utilityId == "" { return false; }
      user := Some(User(userId, utilityId, p.customerId));
      return true;
    }

    method AuthMiddleware(env: Environment, bearer: Bearer)
      requires user == None && platformActor == None && reply == None
      modifies this`user, this`platformActor, this`reply
      ensures View() == AuthStep(env, bearer, route, old(View()))
      ensures var claims := AcceptedClaims(env, bearer);
              && (user.Some? <==> !route.Public() && claims.Some? && NamesTenant(claims.value))
              && (user.Some? ==> user.value == UserOf(claims.value))
              && (platformActor.Some? <==> !route.Public() && claims.Some? && NamesPlatform(claims.value))
              && (reply.None? <==> route.Public() || user.Some? || platformActor.Some?)
      ensures route.skipAuth || route.pattern == "/health" ==> View() == old(View())
      ensures reply.Some? ==> reply.value == Reply(401, "UNAUTHORIZED")
    {
      if route.Public() { return; }
      if bearer.NoBearer? {
        reply := Some(Reply(401, "UNAUTHORIZED"));
        return;
      }
      var accepted := false;
      if bearer.unsigned && env.production {
      } else if !bearer.unsigned && env.hasSecret {
        if bearer.verified.Some? { accepted := AssignIdentity(bearer.verified.value); }
      } else {
        if bearer.decoded.Some? { accepted := AssignIdentity(bearer.decoded.value); }
      }
      if !accepted { reply := Some(Reply(401, "UNAUTHORIZED")); }
    }

    method TenantScopeMiddleware()
      modifies this`scope
      ensures View() == TenantScopeStep(old(View()))
    {
      if user.Some? && user.value.utilityId != "" {
        var entered := RunAsTenant(user.value.utilityId);
        if entered.Some? { scope := entered.value; }
      }
    }

    method TenantMiddleware()
      requires reply == None
      modifies this`reply
      ensures View() == TenantCheckStep(route, old(View()))
      ensures if !(route.skipAuth || route.pattern == "/health") && platformActor.None?
                 && (user.None? || user.value.utilityId == "") then reply == Some(Reply(400, "BAD_REQUEST"))
              else reply.None?
    {
      if route.Public() || platformActor.Some? { return; }
      if user.None? || user.value.utilityId == "" { reply := Some(Reply(400, "BAD_REQUEST")); }
    }

    /** Early returns in the order of the source; `lookups` records what it reads and in which scope. */
    method AuthorizationMiddleware(look: Lookups)
      requires reply == None
      modifies this`reply, this`confirmed, this`lookups
      ensures View() == AuthorizationStep(route, look, old(View()))
      ensures reply.None? <==>
              if route.IsPlatform() then platformActor.Some? && look.isPlatformActor
              else platformActor.None? && (route.moduleName == "" || user.None? || ModuleAdmits(route, look))
      ensures lookups == old(lookups)
              || exists tenant :: lookups == old(lookups) + [Access(scope, old(confirmed), tenant)]
    {
      GuardsAdmit(route, look, user, platformActor);
      if route.IsPlatform() {
        if platformActor.None? {
          reply := Some(Reply(403, "PLATFORM_REQUIRED"));
          return;
        }
        lookups, confirmed := lookups + [Access(scope, confirmed, "")], confirmed || look.isPlatformActor;
        if !look.isPlatformActor { reply := Some(Reply(403, "FORBIDDEN")); }
        return;
      }
      if platformActor.Some? {
        reply := Some(Reply(403, "TENANT_CONTEXT_REQUIRED"));
        return;
      }
      if route.moduleName == "" || user.None? { return; }
      lookups := lookups + [Access(scope, confirmed, user.value.utilityId)];
      ModuleGuards(look);
    }

    method ModuleGuards(look: Lookups)
      requires reply == None && !route.IsPlatform() && platformActor == None && route.moduleName != "" && user.Some?
      modifies this`reply
      ensures reply == FirstRefusal(GuardsOf(route, look, user, platformActor))
    {
      ghost var guards := GuardsOf(route, look, user, platformActor);
      FirstRefusalIs(guards);
      hide FirstRefusal;
      if look.Suspended() {
        FirstRefusalAt(guards, 0);
        reply := Some(Reply(403, "UTILITY_SUSPENDED"));
      } else if route.moduleName !in look.modules {
        FirstRefusalAt(guards, 1);
        reply := Some(Reply(403, "MODULE_DISABLED"));
      } else if route.refusedWhenMirrored && look.Overlay() {
        FirstRefusalAt(guards, 2);
        reply := Some(Reply(409, "RECORD_MIRRORED_FROM_LEGACY"));
      } else if route.refusedInOverlay && look.Overlay() {
        FirstRefusalAt(guards, 3);
        reply := Some(Reply(409, "UTILITY_IN_OVERLAY_MODE"));
      } else if look.role.None? {
        FirstRefusalAt(guards, 4);
        reply := Some(Reply(403, "USER_NOT_PROVISIONED"));
      } else if !look.role.value.isActive {
        FirstRefusalAt(guards, 5);
        reply := Some(Reply(403, "USER_INACTIVE"));
      } else if route.permission != "" {
        var permissions := look.role.value.permissions;
        var granted := if route.moduleName in permissions then permissions[route.moduleName] else {};
        if route.permission !in granted {
          FirstRefusalAt(guards, 6);
          reply := Some(Reply(403, "FORBIDDEN"));
        }
      }
    }

    method PlatformScopeMiddleware()
      modifies this`scope
      ensures View() == PlatformScopeStep(old(View()))
    {
      if platformActor.Some? { scope := Some(Platform); }
    }

    /** The hook sequence; the handler is reached, in ambient scope `scope`, unless some hook replied. */
    method Run(env: Environment, bearer: Bearer, look: Lookups) returns (handled: bool)
      requires View() == FRESH
      modifies this
      ensures View() == After(APP_ORDER, Incoming(env, bearer, route, look), 5) && (handled <==> reply.None?)
      ensures handled && scope == Some(Platform) <==>
              && !route.Public() && route.IsPlatform() && look.isPlatformActor
              && AcceptedClaims(env, bearer).Some? && NamesPlatform(AcceptedClaims(env, bearer).value)
      ensures forall t :: handled && scope == Some(Tenant(t)) <==>
              && !route.Public() && !route.IsPlatform() && IsUuid(t)
              && AcceptedClaims(env, bearer).Some? && NamesTenant(AcceptedClaims(env, bearer).value)
              && AcceptedClaims(env, bearer).value.TenantId() == t
              && (route.moduleName != "" ==> ModuleAdmits(route, look))
      ensures handled && scope == None <==>
              || (route.Public() && !route.IsPlatform())
              || (AsUser(env, bearer, route, look) && !IsUuid(AcceptedClaims(env, bearer).value.TenantId()))
      ensures HandlerScope(env, bearer, route, look) == if handled then Some(scope) else None
      ensures forall a :: a in lookups ==>
                a.scope == AuthorizationScope(env, bearer, route) && a.scope != Some(Platform)
                && (a.tenant != "" ==> AcceptedClaims(env, bearer).Some?
                                       && a.tenant == AcceptedClaims(env, bearer).value.TenantId())
    {
      PipelineIs(Incoming(env, bearer, route, look));
      InAppOrder(Incoming(env, bearer, route, look));
      hide After, GuardsOf, FirstRefusal, ModuleAdmits, AcceptedClaims, NamesTenant, NamesPlatform, IsUuid;
      AuthMiddleware(env, bearer);
      if reply.Some? { return false; }
      TenantScopeMiddleware();
      TenantMiddleware();
      if reply.Some? { return false; }
      AuthorizationMiddleware(look);
      if reply.Some? { return false; }
      PlatformScopeMiddleware();
      return true;
    }
  }
}
