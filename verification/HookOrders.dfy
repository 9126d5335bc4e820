/**
 * Why the request hooks come in the order they do: the argument at the head of
 * packages/api/src/middleware/acting-context.ts, over every order of the five hooks,
 * every route, every token and every answer of the database.
 */
module HookOrders {
  import opened Common
  import opened ActingScope
  import opened RequestPipeline

  // ---------------------------------------------------------------- one identity

  /** Whatever hooks run, however often and in whatever order, a request never has both identities. */
  lemma {:induction false} NeverTwoIdentities(hooks: seq<Hook>, q: Incoming, i: nat)
    requires i <= |hooks|
    ensures var r := After(hooks, q, i);
            && (r.user.Some? ==>
                  Identified(q) && IsUsers(q) && r.user == Some(UserOf(AcceptedClaims(q.env, q.bearer).value)))
            && (r.platformActor.Some? ==> Identified(q) && !IsUsers(q))
            && (r.user.None? || r.platformActor.None?)
  {
    if i > 0 { NeverTwoIdentities(hooks, q, i - 1); }
  }

  /** The request's token identifies somebody. */
  predicate Identified(q: Incoming) {
    var claims := AcceptedClaims(q.env, q.bearer);
    !q.route.Public() && claims.Some? && (NamesTenant(claims.value) || NamesPlatform(claims.value))
  }

  predicate IsUsers(q: Incoming) {
    var claims := AcceptedClaims(q.env, q.bearer);
    claims.Some? && NamesTenant(claims.value)
  }

  // ---------------------------------------------------------------- orders

  ghost predicate IsOrder(order: seq<Hook>) {
    && (forall h: Hook :: h in order)
    && (forall i, j :: 0 <= i < j < |order| ==> order[i] != order[j])
  }

  function Pos(order: seq<Hook>, h: Hook): (i: nat)
    requires h in order
    ensures i < |order| && order[i] == h
  {
    if order[0] == h then 0 else 1 + Pos(order[1..], h)
  }

  /** Hook `a` comes before hook `b`. */
  predicate Before(order: seq<Hook>, a: Hook, b: Hook)
    requires a in order && b in order
  {
    Pos(order, a) < Pos(order, b)
  }

  /** By the time `i` hooks have run, `h` is one of them. */
  predicate Ran(order: seq<Hook>, h: Hook, i: nat)
    requires h in order
  {
    Pos(order, h) < i
  }

  lemma RanOneMore(order: seq<Hook>, h: Hook, i: nat)
    requires IsOrder(order) && 0 < i <= |order|
    ensures Ran(order, h, i) <==> Ran(order, h, i - 1) || order[i - 1] == h
    ensures order[i - 1] == h ==> Pos(order, h) == i - 1
  {
    var p := Pos(order, h);
    assert order[i - 1] == h ==> p == i - 1;
  }

  // ---------------------------------------------------------------- what every reachable state satisfies

  /** The reply-free states: who is identified, and which scope is in force. */
  ghost predicate Open(order: seq<Hook>, q: Incoming, i: nat, r: RequestState)
    requires IsOrder(order)
  {
    var authenticated := Ran(order, Auth, i);
    && (authenticated ==> q.route.Public() || Identified(q))
    && r.user == (if authenticated && Identified(q) && IsUsers(q)
                  then Some(UserOf(AcceptedClaims(q.env, q.bearer).value))
                  else None)
    && (r.platformActor.Some? <==> authenticated && Identified(q) && !IsUsers(q))
    && (Ran(order, TenantCheck, i) && Before(order, TenantCheck, Auth) ==> q.route.Public())
    && r.scope == (if r.platformActor.Some? && Ran(order, PlatformScope, i) && Before(order, Auth, PlatformScope)
                   then Some(Platform)
                   else if r.user.Some? && IsUuid(r.user.value.utilityId) && Ran(order, TenantScope, i)
                           && Before(order, Auth, TenantScope) then Some(Tenant(r.user.value.utilityId))
                   else None)
    && (r.confirmed ==> Ran(order, Authorization, i) && q.look.isPlatformActor)
    && (r.platformActor.Some? && Ran(order, Authorization, i) && Before(order, Auth, Authorization) ==> r.confirmed)
    && (!Ran(order, Authorization, i) ==> r.lookups == [])
  }

  lemma OpenAfterAuth(order: seq<Hook>, q: Incoming, i: nat, r: RequestState)
    requires IsOrder(order) && 0 < i <= |order| && order[i - 1] == Auth
    requires r.reply.None? && Open(order, q, i - 1, r) && Step(Auth, q, r).reply.None?
    ensures Open(order, q, i, Step(Auth, q, r))
  {
    forall h: Hook { RanOneMore(order, h, i); }
    hide IsUuid, Pos;
  }

  lemma OpenAfterTenantScope(order: seq<Hook>, q: Incoming, i: nat, r: RequestState)
    requires IsOrder(order) && 0 < i <= |order| && order[i - 1] == TenantScope
    requires r.reply.None? && Open(order, q, i - 1, r) && Step(TenantScope, q, r).reply.None?
    ensures Open(order, q, i, Step(TenantScope, q, r))
  {
    forall h: Hook { RanOneMore(order, h, i); }
    hide IsUuid, AcceptedClaims, NamesTenant, NamesPlatform, Pos;
  }

  lemma OpenAfterTenantCheck(order: seq<Hook>, q: Incoming, i: nat, r: RequestState)
    requires IsOrder(order) && 0 < i <= |order| && order[i - 1] == TenantCheck
    requires r.reply.None? && Open(order, q, i - 1, r) && Step(TenantCheck, q, r).reply.None?
    ensures Open(order, q, i, Step(TenantCheck, q, r))
  {
    forall h: Hook { RanOneMore(order, h, i); }
    hide IsUuid, AcceptedClaims, NamesPlatform, Pos;
  }

  lemma OpenAfterAuthorization(order: seq<Hook>, q: Incoming, i: nat, r: RequestState)
    requires IsOrder(order) && 0 < i <= |order| && order[i - 1] == Authorization
    requires r.reply.None? && Open(order, q, i - 1, r) && Step(Authorization, q, r).reply.None?
    ensures Open(order, q, i, Step(Authorization, q, r))
  {
    forall h: Hook { RanOneMore(order, h, i); }
    hide IsUuid, AcceptedClaims, NamesTenant, NamesPlatform, GuardsOf, FirstRefusal, ModuleAdmits, Pos;
    GuardsAdmit(q.route, q.look, r.user, r.platformActor);
  }

  lemma OpenAfterPlatformScope(order: seq<Hook>, q: Incoming, i: nat, r: RequestState)
    requires IsOrder(order) && 0 < i <= |order| && order[i - 1] == PlatformScope
    requires r.reply.None? && Open(order, q, i - 1, r) && Step(PlatformScope, q, r).reply.None?
    ensures Open(order, q, i, Step(PlatformScope, q, r))
  {
    forall h: Hook { RanOneMore(order, h, i); }
    hide IsUuid, AcceptedClaims, NamesTenant, NamesPlatform, Pos;
  }

  lemma {:induction false} OpenStates(order: seq<Hook>, q: Incoming, i: nat)
    requires IsOrder(order) && i <= |order| && After(order, q, i).reply.None?
    ensures Open(order, q, i, After(order, q, i))
  {
    if i > 0 {
      OpenStates(order, q, i - 1);
      var r := After(order, q, i - 1);
      hide Open;
      match order[i - 1]
      case Auth => OpenAfterAuth(order, q, i, r);
      case TenantScope => OpenAfterTenantScope(order, q, i, r);
      case TenantCheck => OpenAfterTenantCheck(order, q, i, r);
      case Authorization => OpenAfterAuthorization(order, q, i, r);
      case PlatformScope => OpenAfterPlatformScope(order, q, i, r);
    }
  }

  /** In production no order of the hooks lets a token whose algorithm is "none" past a route that wants a token. */
  lemma AlgNoneRefusedInProduction(order: seq<Hook>, q: Incoming)
    requires IsOrder(order) && q.env.production && q.bearer.Bearer? && q.bearer.unsigned
    ensures After(order, q, |order|).reply.None? ==> q.route.Public()
  {
    if After(order, q, |order|).reply.None? { OpenStates(order, q, |order|); }
  }

  // ---------------------------------------------------------------- what authorization read, and in which scope

  lemma OnlyAuthorizationLooks(h: Hook, q: Incoming, r: RequestState)
    requires h != Authorization
    ensures Step(h, q, r).lookups == r.lookups && Step(h, q, r).confirmed == r.confirmed
  {}

  lemma {:induction false} NoLookupsBefore(order: seq<Hook>, q: Incoming, i: nat)
    requires IsOrder(order) && i <= Pos(order, Authorization)
    ensures After(order, q, i).lookups == [] && !After(order, q, i).confirmed
  {
    if i > 0 {
      RanOneMore(order, Authorization, i);
      NoLookupsBefore(order, q, i - 1);
      OnlyAuthorizationLooks(order[i - 1], q, After(order, q, i - 1));
      hide Pos, Step;
    }
  }

  lemma {:induction false} LookupsStay(order: seq<Hook>, q: Incoming, i: nat)
    requires IsOrder(order) && Pos(order, Authorization) < i <= |order|
    ensures After(order, q, i).lookups == After(order, q, Pos(order, Authorization) + 1).lookups
  {
    if i > Pos(order, Authorization) + 1 {
      RanOneMore(order, Authorization, i);
      LookupsStay(order, q, i - 1);
      OnlyAuthorizationLooks(order[i - 1], q, After(order, q, i - 1));
      hide Pos, Step;
    }
  }

  /** All that is ever looked up, and the state it is looked up in. */
  lemma LookupsAre(order: seq<Hook>, q: Incoming)
    requires IsOrder(order)
    ensures var r := After(order, q, Pos(order, Authorization));
            After(order, q, |order|).lookups ==
            if r.reply.Some? then []
            else if q.route.IsPlatform() then if r.platformActor.Some? then [Access(r.scope, false, "")] else []
            else if r.platformActor.None? && q.route.moduleName != "" && r.user.Some? then
              [Access(r.scope, false, r.user.value.utilityId)]
            else []
  {
    var p := Pos(order, Authorization);
    NoLookupsBefore(order, q, p);
    LookupsStay(order, q, |order|);
    assert After(order, q, p + 1) == Step(Authorization, q, After(order, q, p));
  }

  // ---------------------------------------------------------------- requests that get far enough to tell orders apart

  /** Authorization, wherever it stands, refuses nothing. */
  ghost predicate Passes(order: seq<Hook>, q: Incoming)
    requires IsOrder(order)
  {
    var known := Before(order, Auth, Authorization);
    if q.route.IsPlatform() then known && !IsUsers(q) && q.look.isPlatformActor
    else (known ==> IsUsers(q)) && q.route.moduleName == ""
  }

  lemma NothingRefused(order: seq<Hook>, q: Incoming, i: nat, r: RequestState)
    requires IsOrder(order) && Identified(q) && Before(order, Auth, TenantCheck) && 0 < i <= |order|
    requires i <= Pos(order, Authorization) || Passes(order, q)
    requires r.reply.None? && Open(order, q, i - 1, r)
    ensures Step(order[i - 1], q, r).reply.None?
  {
    RanOneMore(order, order[i - 1], i);
    hide IsUuid, AcceptedClaims, NamesTenant, NamesPlatform, GuardsOf, FirstRefusal, ModuleAdmits, Pos;
    hide TenantScopeStep, PlatformScopeStep;
    if order[i - 1] == Authorization { GuardsAdmit(q.route, q.look, r.user, r.platformActor); }
  }

  lemma {:induction false} Proceeds(order: seq<Hook>, q: Incoming, i: nat)
    requires IsOrder(order) && Identified(q) && Before(order, Auth, TenantCheck) && i <= |order|
    requires i <= Pos(order, Authorization) || Passes(order, q)
    ensures After(order, q, i).reply.None?
  {
    if i > 0 {
      Proceeds(order, q, i - 1);
      OpenStates(order, q, i - 1);
      NothingRefused(order, q, i, After(order, q, i - 1));
    }
  }

  const SIGNED := Environment(true, true)
  const UUID := "00000000-0000-0000-0000-000000000000"
  const ACTOR_TOKEN := Bearer(false, Some(Payload("actor", "", "", "", true, None)), None)
  const USER_TOKEN := Bearer(false, Some(Payload("user", "", UUID, "", false, None)), None)
  const PLATFORM_ROUTE := Route("/platform", "/platform", false, true, "", "", false, false)
  const TENANT_ROUTE := Route("/tenant", "/tenant", false, false, "", "", false, false)
  const MODULE_ROUTE := Route("/module", "/module", false, false, "billing", "", false, false)

  function Database(actorExists: bool): Lookups { Lookups(actorExists, None, {}, None) }

  // ---------------------------------------------------------------- nobody is served on an unverified token

  /** The handler of a route that wants a token is reached only for one whose signature was verified, as its claims. */
  ghost predicate OnlyVerified(order: seq<Hook>, q: Incoming) {
    After(order, q, |order|).reply.None? && !q.route.Public() ==>
      && q.bearer.Bearer? && q.bearer.verified.Some?
      && AcceptedClaims(q.env, q.bearer) == q.bearer.verified
  }

  /** A user's claims that nobody verified, in the form the environment reads without verifying. */
  function UnverifiedToken(env: Environment): Bearer {
    Bearer(!env.production, None, Some(Payload("user", "", UUID, "", false, None)))
  }

  lemma UnverifiedTokenNamesAUser(env: Environment)
    requires !(env.production && env.hasSecret)
    ensures var claims := AcceptedClaims(env, UnverifiedToken(env));
            claims.Some? && NamesTenant(claims.value)
    ensures !TENANT_ROUTE.Public() && !TENANT_ROUTE.IsPlatform()
  {
    hide IsUuid;
  }

  /** Without a secret, or outside production, every order that serves anybody serves this request. */
  lemma UnverifiedTokenIsServed(order: seq<Hook>, env: Environment)
    requires IsOrder(order) && Before(order, Auth, TenantCheck) && !(env.production && env.hasSecret)
    ensures var q := Incoming(env, UnverifiedToken(env), TENANT_ROUTE, Database(false));
            After(order, q, |order|).reply.None? && !OnlyVerified(order, q)
  {
    var q := Incoming(env, UnverifiedToken(env), TENANT_ROUTE, Database(false));
    hide After, Pos, IsUuid, AcceptedClaims, NamesTenant, NamesPlatform, Route.Public, Route.IsPlatform;
    UnverifiedTokenNamesAUser(env);
    Proceeds(order, q, |order|);
  }

  /**
   * Main result: in production, only verified tokens are served exactly when a secret is
   * configured, or the order serves nobody. Outside production having a secret is not enough.
   */
  lemma OnlyVerifiedExactly(order: seq<Hook>, env: Environment)
    requires IsOrder(order)
    ensures (forall q: Incoming :: q.env == env ==> OnlyVerified(order, q)) <==>
            (env.production && env.hasSecret) || Before(order, TenantCheck, Auth)
    ensures (forall q: Incoming :: q.env == env ==> OnlyVerified(APP_ORDER, q)) <==> env.production && env.hasSecret
  {
    OnlyVerifiedIn(order, env);
    AppOrderIsOne();
    OnlyVerifiedIn(APP_ORDER, env);
  }

  lemma OnlyVerifiedIn(order: seq<Hook>, env: Environment)
    requires IsOrder(order)
    ensures (forall q: Incoming :: q.env == env ==> OnlyVerified(order, q)) <==>
            (env.production && env.hasSecret) || Before(order, TenantCheck, Auth)
  {
    if (env.production && env.hasSecret) || Before(order, TenantCheck, Auth) {
      forall q: Incoming | q.env == env ensures OnlyVerified(order, q) {
        if After(order, q, |order|).reply.None? { OpenStates(order, q, |order|); }
      }
    } else {
      assert Pos(order, TenantCheck) != Pos(order, Auth);
      UnverifiedTokenIsServed(order, env);
    }
  }

  // ---------------------------------------------------------------- nothing runs above tenants on a claim alone

  /** Every lookup and every handler that runs above tenants does so for an actor found in the database. */
  ghost predicate ActorsConfirmed(order: seq<Hook>, q: Incoming) {
    var r := After(order, q, |order|);
    && (forall a :: a in r.lookups && a.scope == Some(Platform) ==> a.confirmed)
    && (r.reply.None? && r.scope == Some(Platform) ==> r.confirmed)
  }

  predicate Confirming(order: seq<Hook>)
    requires Auth in order && TenantCheck in order && Authorization in order && PlatformScope in order
  {
    || Before(order, TenantCheck, Auth) || Before(order, PlatformScope, Auth)
    || (Before(order, Auth, Authorization) && Before(order, Authorization, PlatformScope))
  }

  lemma LookupsConfirmed(order: seq<Hook>, q: Incoming)
    requires IsOrder(order) && Confirming(order)
    ensures forall a :: a in After(order, q, |order|).lookups && a.scope == Some(Platform) ==> a.confirmed
  {
    var p := Pos(order, Authorization);
    LookupsAre(order, q);
    hide AcceptedClaims, IsUuid, Pos, After;
    if After(order, q, p).reply.None? { OpenStates(order, q, p); }
  }

  lemma HandlersConfirmed(order: seq<Hook>, q: Incoming)
    requires IsOrder(order) && Confirming(order)
    ensures var r := After(order, q, |order|); r.reply.None? && r.scope == Some(Platform) ==> r.confirmed
  {
    hide AcceptedClaims, IsUuid, Pos, After;
    if After(order, q, |order|).reply.None? { OpenStates(order, q, |order|); }
  }

  /** An order that enters the platform's scope on the token's word, and a request that shows it. */
  lemma TrustingOrders(order: seq<Hook>) returns (q: Incoming)
    requires IsOrder(order) && Before(order, Auth, TenantCheck) && Before(order, Auth, PlatformScope)
    requires !(Before(order, Auth, Authorization) && Before(order, Authorization, PlatformScope))
    ensures !ActorsConfirmed(order, q)
  {
    var p := Pos(order, Authorization);
    if Before(order, PlatformScope, Authorization) {
      q := Incoming(SIGNED, ACTOR_TOKEN, PLATFORM_ROUTE, Database(false));
      Proceeds(order, q, p);
      OpenStates(order, q, p);
      LookupsAre(order, q);
      assert Access(Some(Platform), false, "") in After(order, q, |order|).lookups;
    } else {
      assert Pos(order, Authorization) != Pos(order, PlatformScope) && Pos(order, Auth) != Pos(order, Authorization);
      q := Incoming(SIGNED, ACTOR_TOKEN, TENANT_ROUTE, Database(false));
      Proceeds(order, q, |order|);
      OpenStates(order, q, |order|);
    }
  }

  /**
   * Main result: exactly the orders in which no token can act above tenants before its
   * actor is found. Given that authentication comes before the other two hooks that read
   * it, authorization must come before the platform's scope.
   */
  lemma ActorsConfirmedExactly(order: seq<Hook>)
    requires IsOrder(order)
    ensures (forall q :: ActorsConfirmed(order, q)) <==>
            || Before(order, TenantCheck, Auth) || Before(order, PlatformScope, Auth)
            || (Before(order, Auth, Authorization) && Before(order, Authorization, PlatformScope))
  {
    if Confirming(order) {
      forall q ensures ActorsConfirmed(order, q) {
        LookupsConfirmed(order, q);
        HandlersConfirmed(order, q);
      }
    } else {
      assert Pos(order, TenantCheck) != Pos(order, Auth) && Pos(order, PlatformScope) != Pos(order, Auth);
      var q := TrustingOrders(order);
    }
  }

  // ---------------------------------------------------------------- a tenant's lookups carry its tenant

  ghost predicate TenantLookupsScoped(order: seq<Hook>, q: Incoming) {
    forall a :: a in After(order, q, |order|).lookups && IsUuid(a.tenant) ==> a.scope == Some(Tenant(a.tenant))
  }

  lemma ScopingOrders(order: seq<Hook>, q: Incoming)
    requires IsOrder(order)
    requires Before(order, TenantCheck, Auth) || Before(order, Authorization, Auth)
             || (Before(order, Auth, TenantScope) && Before(order, TenantScope, Authorization))
    ensures TenantLookupsScoped(order, q)
  {
    var p := Pos(order, Authorization);
    LookupsAre(order, q);
    EmptyIsNoUuid();
    hide IsUuid;
    if After(order, q, p).reply.None? { OpenStates(order, q, p); }
  }

  lemma EmptyIsNoUuid()
    ensures !IsUuid("")
  {}

  /** An order in which authorization reads a tenant's tables without its scope, and a request that shows it. */
  lemma UnscopedOrders(order: seq<Hook>) returns (q: Incoming)
    requires IsOrder(order) && Before(order, Auth, TenantCheck) && Before(order, Auth, Authorization)
    requires !(Before(order, Auth, TenantScope) && Before(order, TenantScope, Authorization))
    ensures !TenantLookupsScoped(order, q)
  {
    var p := Pos(order, Authorization);
    UuidIsOne();
    hide IsUuid;
    q := Incoming(SIGNED, USER_TOKEN, MODULE_ROUTE, Database(false));
    Proceeds(order, q, p);
    OpenStates(order, q, p);
    LookupsAre(order, q);
    assert Access(None, false, UUID) in After(order, q, |order|).lookups;
  }

  lemma UuidIsOne()
    ensures IsUuid(UUID)
  {}

  /** Main result: exactly the orders in which authorization reads a tenant's tables under that tenant. */
  lemma TenantLookupsScopedExactly(order: seq<Hook>)
    requires IsOrder(order)
    ensures (forall q :: TenantLookupsScoped(order, q)) <==>
            || Before(order, TenantCheck, Auth) || Before(order, Authorization, Auth)
            || (Before(order, Auth, TenantScope) && Before(order, TenantScope, Authorization))
  {
    if Before(order, TenantCheck, Auth) || Before(order, Authorization, Auth)
       || (Before(order, Auth, TenantScope) && Before(order, TenantScope, Authorization)) {
      forall q ensures TenantLookupsScoped(order, q) { ScopingOrders(order, q); }
    } else {
      assert Pos(order, TenantCheck) != Pos(order, Auth) && Pos(order, Authorization) != Pos(order, Auth);
      var q := UnscopedOrders(order);
    }
  }

  // ---------------------------------------------------------------- the platform's handlers run above tenants

  ghost predicate ActorsServed(order: seq<Hook>, q: Incoming) {
    var r := After(order, q, |order|);
    r.reply.None? && r.platformActor.Some? ==> r.scope == Some(Platform)
  }

  /** Main result: exactly the orders in which every platform actor's handler runs above tenants. */
  lemma ActorsServedExactly(order: seq<Hook>)
    requires IsOrder(order)
    ensures (forall q :: ActorsServed(order, q)) <==>
            Before(order, TenantCheck, Auth) || Before(order, Auth, PlatformScope)
  {
    if Before(order, TenantCheck, Auth) || Before(order, Auth, PlatformScope) {
      forall q ensures ActorsServed(order, q) {
        if After(order, q, |order|).reply.None? { OpenStates(order, q, |order|); }
      }
    } else {
      assert Pos(order, TenantCheck) != Pos(order, Auth) && Pos(order, PlatformScope) != Pos(order, Auth);
      var route := if Before(order, Auth, Authorization) then PLATFORM_ROUTE else TENANT_ROUTE;
      var q := Incoming(SIGNED, ACTOR_TOKEN, route, Database(true));
      Proceeds(order, q, |order|);
      OpenStates(order, q, |order|);
      assert !ActorsServed(order, q);
    }
  }

  /** Every request that identifies somebody is turned away. */
  ghost predicate NobodyServed(order: seq<Hook>) {
    forall q :: Identified(q) ==> After(order, q, |order|).reply.Some?
  }

  /**
   * Main result, "the split is forced": over every order of the five hooks, all three hold
   * exactly when authorization stands after the tenant's scope and before the platform's,
   * with authentication before them all, so that no single scope hook could take both
   * places; or when the tenant check comes before authentication and nobody is served.
   * The order of the code is one of the former.
   */
  lemma SplitIsForced(order: seq<Hook>)
    requires IsOrder(order)
    ensures (forall q :: ActorsConfirmed(order, q) && TenantLookupsScoped(order, q) && ActorsServed(order, q)) <==>
            || Before(order, TenantCheck, Auth)
            || (Before(order, Auth, TenantScope) && Before(order, TenantScope, Authorization)
                && Before(order, Authorization, PlatformScope))
    ensures Before(order, TenantCheck, Auth) ==> NobodyServed(order)
    ensures IsOrder(APP_ORDER) && !NobodyServed(APP_ORDER)
            && Before(APP_ORDER, Auth, TenantScope) && Before(APP_ORDER, TenantScope, Authorization)
            && Before(APP_ORDER, Authorization, PlatformScope)
  {
    ActorsConfirmedExactly(order);
    TenantLookupsScopedExactly(order);
    ActorsServedExactly(order);
    if Before(order, TenantCheck, Auth) {
      forall q | Identified(q) ensures After(order, q, |order|).reply.Some? {
        if After(order, q, |order|).reply.None? { OpenStates(order, q, |order|); }
      }
    }
    AppOrderIsOne();
    var q := Incoming(SIGNED, ACTOR_TOKEN, PLATFORM_ROUTE, Database(true));
    Proceeds(APP_ORDER, q, |APP_ORDER|);
    assert Identified(q);
  }

  lemma AppOrderIsOne()
    ensures IsOrder(APP_ORDER)
    ensures Before(APP_ORDER, Auth, TenantScope) && Before(APP_ORDER, Auth, TenantCheck)
    ensures Before(APP_ORDER, TenantScope, Authorization) && Before(APP_ORDER, Authorization, PlatformScope)
  {
    assert APP_ORDER[0] == Auth && APP_ORDER[1] == TenantScope && APP_ORDER[2] == TenantCheck
        && APP_ORDER[3] == Authorization && APP_ORDER[4] == PlatformScope;
    forall h: Hook ensures h in APP_ORDER {
      match h
      case Auth =>
      case TenantScope =>
      case TenantCheck =>
      case Authorization =>
      case PlatformScope =>
    }
  }
}
