/**
 * Whose identity a request ends up with, said of the token's own fields: over every
 * environment and every order of the hooks of packages/api/src/middleware/auth.ts and
 * those around it.
 */
module Identity {
  import opened Common
  import opened ActingScope
  import opened RequestPipeline
  import opened HookOrders

  /** The request acts for the claims' user or platform actor, or for nobody if they name neither or both. */
  ghost predicate ActsFor(r: RequestState, claims: Option<Payload>) {
    && (r.user.Some? <==>
        claims.Some? && !claims.value.platform && (claims.value.sub != "" || claims.value.id != "")
        && (claims.value.utility_id != "" || claims.value.utilityId != ""))
    && (r.user.Some? ==>
          && r.user.value.id == (if claims.value.sub != "" then claims.value.sub else claims.value.id)
          && r.user.value.customerId == claims.value.customerId
          && r.user.value.utilityId ==
             (if claims.value.utility_id != "" then claims.value.utility_id else claims.value.utilityId))
    && (r.platformActor.Some? <==>
        claims.Some? && claims.value.platform && (claims.value.sub != "" || claims.value.id != "")
        && claims.value.utility_id == "" && claims.value.utilityId == "")
    && (r.platformActor.Some? ==>
          r.platformActor.value == if claims.value.sub != "" then claims.value.sub else claims.value.id)
  }

  /** Authentication runs before anything can refuse a request nobody is known for. */
  predicate AuthReached(order: seq<Hook>, route: Route)
    requires Auth in order && TenantCheck in order && Authorization in order
  {
    && Before(order, Auth, TenantCheck)
    && (Before(order, Auth, Authorization) || !(route.platform || "/admin/queues" <= route.url))
  }

  lemma OnlyAuthIdentifies(h: Hook, q: Incoming, r: RequestState)
    requires h != Auth
    ensures Step(h, q, r).user == r.user && Step(h, q, r).platformActor == r.platformActor
  {}

  /** What the hooks before authentication make of a request nobody is known for yet. */
  lemma StrangerStep(h: Hook, q: Incoming, r: RequestState)
    requires h != Auth && r.user.None? && r.platformActor.None? && r.reply.None?
    requires !(q.route.skipAuth || q.route.pattern == "/health")
    ensures Step(h, q, r).reply.None? <==>
            h != TenantCheck && !(h == Authorization && (q.route.platform || "/admin/queues" <= q.route.url))
  {
    hide FirstRefusal, GuardsOf, ModuleAdmits;
    GuardsAdmit(q.route, q.look, None, None);
  }

  lemma {:induction false} NobodyBeforeAuth(order: seq<Hook>, q: Incoming, i: nat)
    requires IsOrder(order) && i <= Pos(order, Auth) && !(q.route.skipAuth || q.route.pattern == "/health")
    ensures var r := After(order, q, i);
            && r.user.None? && r.platformActor.None?
            && (r.reply.None? <==>
                !Ran(order, TenantCheck, i)
                && !(Ran(order, Authorization, i) && (q.route.platform || "/admin/queues" <= q.route.url)))
  {
    if i > 0 {
      NobodyBeforeAuth(order, q, i - 1);
      RanOneMore(order, TenantCheck, i);
      RanOneMore(order, Authorization, i);
      RanOneMore(order, Auth, i);
      var r := After(order, q, i - 1);
      OnlyAuthIdentifies(order[i - 1], q, r);
      if r.reply.None? { StrangerStep(order[i - 1], q, r); }
      hide Pos, Step;
    }
  }

  lemma {:induction false} IdentityStays(order: seq<Hook>, q: Incoming, i: nat)
    requires IsOrder(order) && Pos(order, Auth) < i <= |order|
    ensures var known := After(order, q, Pos(order, Auth) + 1);
            && After(order, q, i).user == known.user && After(order, q, i).platformActor == known.platformActor
            && (known.reply.Some? ==> After(order, q, i).reply.Some?)
  {
    if i > Pos(order, Auth) + 1 {
      IdentityStays(order, q, i - 1);
      RanOneMore(order, Auth, i);
      OnlyAuthIdentifies(order[i - 1], q, After(order, q, i - 1));
    }
  }

  /** The whole order, seen from where authentication stands in it. */
  lemma IdentityIsAuths(order: seq<Hook>, q: Incoming)
    requires IsOrder(order) && !(q.route.skipAuth || q.route.pattern == "/health")
    ensures var r, before := After(order, q, |order|), After(order, q, Pos(order, Auth));
            && before.user.None? && before.platformActor.None?
            && (before.reply.None? <==> AuthReached(order, q.route))
            && r.user == Step(Auth, q, before).user && r.platformActor == Step(Auth, q, before).platformActor
            && (Step(Auth, q, before).reply.Some? ==> r.reply.Some?)
  {
    var p := Pos(order, Auth);
    NobodyBeforeAuth(order, q, p);
    IdentityStays(order, q, |order|);
    AuthTakesItsTurn(order, q);
    assert order[p] == Auth;
    assert p != Pos(order, TenantCheck) && p != Pos(order, Authorization);
    hide After, Pos, Step, IsOrder;
  }

  lemma AuthTakesItsTurn(order: seq<Hook>, q: Incoming)
    requires Auth in order
    ensures After(order, q, Pos(order, Auth) + 1) == Step(Auth, q, After(order, q, Pos(order, Auth)))
  {
    hide Step;
  }

  /** Authentication of a request nobody is known for yet, on a route that wants a token. */
  lemma AuthTrusts(q: Incoming, r: RequestState)
    requires !(q.route.skipAuth || q.route.pattern == "/health")
    requires r.user.None? && r.platformActor.None? && r.reply.None?
    ensures var trusted := if q.bearer.NoBearer? then None
                           else if !q.bearer.unsigned && q.env.hasSecret then q.bearer.verified
                           else if q.bearer.unsigned && q.env.production then None
                           else q.bearer.decoded;
            && ActsFor(Step(Auth, q, r), trusted)
            && (Step(Auth, q, r).reply.None? <==>
                Step(Auth, q, r).user.Some? || Step(Auth, q, r).platformActor.Some?)
  {}

  /** The whole order trusts what authentication does, if it gets that far. */
  lemma OrderTrusts(order: seq<Hook>, q: Incoming, trusted: Option<Payload>)
    requires IsOrder(order) && !(q.route.skipAuth || q.route.pattern == "/health")
    requires trusted == if q.bearer.NoBearer? then None
                        else if !q.bearer.unsigned && q.env.hasSecret then q.bearer.verified
                        else if q.bearer.unsigned && q.env.production then None
                        else q.bearer.decoded
    ensures var r := After(order, q, |order|);
            && ActsFor(r, if AuthReached(order, q.route) then trusted else None)
            && (r.reply.None? ==> r.user.Some? || r.platformActor.Some?)
  {
    IdentityIsAuths(order, q);
    var before := After(order, q, Pos(order, Auth));
    hide Pos, After, IsOrder, AuthReached;
    if before.reply.None? {
      AuthTrusts(q, before);
      hide Step;
    }
  }

  /**
   * Main result: with a secret a token that claims a signature counts for what its
   * signature verifies to and for nothing else, in production and outside it, whatever the
   * order of the hooks.
   */
  lemma SignedTokensAreVerified(order: seq<Hook>, q: Incoming)
    requires IsOrder(order) && !(q.route.skipAuth || q.route.pattern == "/health")
    requires q.env.hasSecret && q.bearer.Bearer? && !q.bearer.unsigned
    ensures var r := After(order, q, |order|);
            && ActsFor(r, if AuthReached(order, q.route) then q.bearer.verified else None)
            && (r.reply.None? ==> q.bearer.verified.Some? && (r.user.Some? || r.platformActor.Some?))
  {
    OrderTrusts(order, q, q.bearer.verified);
    hide Pos, After, IsOrder, AuthReached;
  }

  /**
   * Main result: every other token counts for the claims it carries, verified or not,
   * except one that says it is unsigned in production, which counts for nothing.
   */
  lemma DecodedClaimsExactly(order: seq<Hook>, q: Incoming)
    requires IsOrder(order) && !(q.route.skipAuth || q.route.pattern == "/health")
    requires q.bearer.Bearer? && (q.bearer.unsigned || !q.env.hasSecret)
    ensures var r := After(order, q, |order|);
            && ActsFor(r, if AuthReached(order, q.route) && !(q.bearer.unsigned && q.env.production)
                          then q.bearer.decoded else None)
            && (r.reply.None? ==> r.user.Some? || r.platformActor.Some?)
  {
    OrderTrusts(order, q, if q.bearer.unsigned && q.env.production then None else q.bearer.decoded);
    hide Pos, After, IsOrder, AuthReached;
  }

  /** No token, no identity and no handler. */
  lemma NoTokenNobody(order: seq<Hook>, q: Incoming)
    requires IsOrder(order) && !(q.route.skipAuth || q.route.pattern == "/health") && q.bearer.NoBearer?
    ensures ActsFor(After(order, q, |order|), None) && After(order, q, |order|).reply.Some?
  {
    OrderTrusts(order, q, None);
    hide Pos, After, IsOrder;
  }

  /** On a public route the token is not read: no identity, and authentication refuses nothing. */
  lemma {:induction false} PublicRoutesReadNoToken(hooks: seq<Hook>, q: Incoming, i: nat)
    requires i <= |hooks| && (q.route.skipAuth || q.route.pattern == "/health")
    ensures After(hooks, q, i).user.None? && After(hooks, q, i).platformActor.None?
    ensures After(hooks, q, i).reply.Some? ==> q.route.platform || "/admin/queues" <= q.route.url
  {
    if i > 0 {
      PublicRoutesReadNoToken(hooks, q, i - 1);
      GuardsAdmit(q.route, q.look, None, None);
      hide FirstRefusal, GuardsOf, ModuleAdmits;
    }
  }
}
