/** Every run of the broker: tokens it minted come back as subject tokens, so what a
    token says is a statement about the whole chain of exchanges behind it. */
module BrokerRuns {
  import opened Wrappers
  import opened Text
  import opened Json
  import opened ActorChain
  import opened Dpop
  import opened Tokens
  import opened Broker
  import A = DpopAcceptance
  import P = DpopProtocol
  import R = Redis

  // What identifies a user along the chain.
  datatype Identity = Identity(sub: string, roles: seq<string>, groups: seq<string>, issuer: string)

  function IdentityOf(u: UserContext): Identity {
    Identity(u.sub, u.roles, u.groups, u.issuer)
  }

  /** How a token came about: a user's token, or an exchange of an earlier token. */
  datatype Lineage =
    | FromUser(token: string, user: Identity)
    | Hop(previous: Lineage, actor: string, audience: string, scopes: seq<string>, request: Request, world: World)

  // Oldest first.
  function Actors(l: Lineage): seq<string> {
    match l
    case FromUser(_, _) => []
    case Hop(p, actor, _, _, _, _) => Actors(p) + [actor]
  }

  // The last actor ends outermost.
  function ChainOf(l: Lineage): Option<Chain> {
    match l
    case FromUser(_, _) => None
    case Hop(p, actor, _, _, _, _) => Some(Compose(actor, ChainOf(p)))
  }

  /** Actors a1..an exchanging in turn leave a chain that flattens to [a1..an]. */
  lemma {:induction false} ChainListsActors(l: Lineage)
    ensures Reverse(Subs(ChainOf(l))) == Actors(l)
    ensures |Subs(ChainOf(l))| == |Actors(l)|
  {
    if l.Hop? {
      ChainListsActors(l.previous);
    }
  }

  // The user at the start.
  function Principal(l: Lineage): Identity {
    match l
    case FromUser(_, user) => user
    case Hop(p, _, _, _, _, _) => Principal(p)
  }

  function UserToken(l: Lineage): string {
    match l
    case FromUser(t, _) => t
    case Hop(p, _, _, _, _, _) => UserToken(p)
  }

  function Token(l: Lineage): string {
    match l
    case FromUser(t, _) => t
    case Hop(_, _, _, _, _, w) => w.raw
  }

  // The tokens handed out so far.
  type Ledger = map<string, Lineage>

  // One grant: the request, what it was approved for, and what it met outside the handler.
  datatype Event = Event(request: Request, world: World, approval: Approval)

  function SubjectToken(req: Request): string {
    var t := TextField(req.body, "subject_token");
    if t.Some? then t.value else ""
  }

  // Where the subject token came from.
  function Origin(g: Ledger, e: Event): Lineage {
    var token := SubjectToken(e.request);
    if token in g then g[token] else FromUser(token, IdentityOf(e.approval.subject.user))
  }

  // The lineage a grant extends.
  function HopFor(g: Ledger, e: Event): Lineage {
    Hop(Origin(g, e), e.approval.actor, e.approval.audience, e.approval.scopes, e.request, e.world)
  }

  function After(g: Ledger, e: Event): Ledger {
    g[e.world.raw := HopFor(g, e)]
  }

  /** What the request shows and asks: an actor of the catalog by its secret, a proof in
      order, and exactly this audience and these scopes, within the actor's lists. */
  predicate Permitted(env: Env, crypto: Crypto, cfg: Broker.Config, req: Request, w: World, actor: string,
                      audience: string, scopes: seq<string>)
  {
    var basic, scope := ParseBasicAuth(env, req.authorization), TextField(req.body, "scope");
    && basic.Some? && basic.value.0 == actor && Authenticates(env, cfg, actor, basic.value.1)
    && TextField(req.body, "audience") == Some(audience) && audience in cfg.catalog[actor].audiences
    && scope.Some? && scopes == Words(scope.value) && scopes != []
    && (forall s :: s in scopes ==> s in cfg.catalog[actor].scopes)
    && req.proof.Some? && A.Honest(cfg.dpop, crypto, ExchangeInput(req), w.moments.checkMs)
  }

  // What steps 1 to 5 have checked when they approve.
  predicate Approved(env: Env, crypto: Crypto, cfg: Broker.Config, req: Request, w: World, a: Approval) {
    && Permitted(env, crypto, cfg, req, w, a.actor, a.audience, a.scopes)
    && a.jkt == crypto.thumbprint(req.proof.value.jwk.value)
    && TextField(req.body, "subject_token").Some? && Derives(env, cfg, SubjectToken(req), w.validateSec, a.subject)
  }

  // A live token of the broker or of the user issuer, and what it says of the subject.
  predicate Derives(env: Env, cfg: Broker.Config, token: string, nowSec: int, subject: Subject) {
    && env.decode(token).Some?
    && var Jwt(signer, c) := env.decode(token).value;
    && NumberOr0(Field(c, "exp")) > nowSec as real
    && if signer.Broker?
       then subject == Subject(ReentryUser(env, cfg, c), PreviousChain(c), true)
       else && UserIssued(env, cfg, token) && IdentityOf(subject.user) == UserIdentity(env, cfg, c)
            && subject.previous.None? && !subject.reentry
  }

  // A token that verifies under the broker's keys was handed out by the broker.
  predicate Unforged(env: Env, g: Ledger, token: string) {
    env.decode(token).Some? && env.decode(token).value.signer.Broker? ==> token in g
  }

  /** The two facts about signatures: the subject token is not forged, and the token
      handed out reads back as the claims signed. */
  predicate Signed(env: Env, cfg: Broker.Config, g: Ledger, e: Event) {
    && Unforged(env, g, SubjectToken(e.request))
    && env.decode(e.world.raw) == Some(Jwt(Signer.Broker, ClaimsFor(cfg, e.approval, e.world)))
  }

  predicate SignedRun(env: Env, cfg: Broker.Config, g: Ledger, es: seq<Event>)
    decreases es
  {
    es == [] || (Signed(env, cfg, g, es[0]) && SignedRun(env, cfg, After(g, es[0]), es[1..]))
  }

  // What the runs rest on: an approval, and a token that carries it.
  predicate Genuine(env: Env, crypto: Crypto, cfg: Broker.Config, g: Ledger, e: Event) {
    && Approved(env, crypto, cfg, e.request, e.world, e.approval)
    && Unforged(env, g, SubjectToken(e.request))
    && env.decode(e.world.raw).Some? && env.decode(e.world.raw).value.signer.Broker?
    && ReadsAs(env, cfg, e.approval, e.world.mintSec, env.decode(e.world.raw).value.claims)
  }

  // A run: the grants in order. Refused requests hand out nothing.
  predicate GenuineRun(env: Env, crypto: Crypto, cfg: Broker.Config, g: Ledger, es: seq<Event>)
    decreases es
  {
    es == [] || (Genuine(env, crypto, cfg, g, es[0]) && GenuineRun(env, crypto, cfg, After(g, es[0]), es[1..]))
  }

  function Run(g: Ledger, es: seq<Event>): Ledger
    decreases es
  {
    if es == [] then g else Run(After(g, es[0]), es[1..])
  }

  // ---------- The endpoint's grants are such events ----------

  // The two branches of the subject validator, told apart by the signature.
  lemma SubjectBySigner(env: Env, cfg: Broker.Config, token: string, audience: string, nowSec: int)
    requires cfg.issuer != cfg.userIssuer && ValidateSubject(env, cfg, token, audience, nowSec).Success?
    ensures Derives(env, cfg, token, nowSec, ValidateSubject(env, cfg, token, audience, nowSec).value)
  {
  }

  // A verified proof is all that the later steps need from the verifier.
  lemma ApprovalMeans(env: Env, crypto: Crypto, cfg: Broker.Config, req: Request, w: World, proved: Verified)
    requires cfg.issuer != cfg.userIssuer && Precheck(env, cfg, req).None?
    requires A.Honest(cfg.dpop, crypto, ExchangeInput(req), w.moments.checkMs)
    requires proved.thumbprint == crypto.thumbprint(req.proof.value.jwk.value)
    requires AfterProof(env, cfg, req, w, proved).Success?
    ensures Approved(env, crypto, cfg, req, w, AfterProof(env, cfg, req, w, proved).value)
  {
    var a := AfterProof(env, cfg, req, w, proved).value;
    SubjectBySigner(env, cfg, SubjectToken(req), a.audience, w.validateSec);
  }

  lemma UndisturbedApprovalMeans(env: Env, crypto: Crypto, cfg: Broker.Config, store: R.Store, req: Request, w: World)
    requires cfg.issuer != cfg.userIssuer && Approve(env, crypto, cfg, store, req, w).0.Success?
    ensures Approved(env, crypto, cfg, req, w, Approve(env, crypto, cfg, store, req, w).0.value)
  {
    A.AcceptedMeans(cfg.dpop, crypto, ExchangeInput(req), store, w.moments);
    ApprovalMeans(env, crypto, cfg, req, w,
                  Undisturbed(cfg.dpop, crypto, ExchangeInput(req), store, w.moments).0.result);
  }

  // The grants of a history of requests, served in turn on one store.
  function Grants(env: Env, crypto: Crypto, cfg: Broker.Config, store: R.Store, calls: seq<(Request, World)>)
      : seq<Event>
    decreases calls
  {
    if calls == [] then []
    else
      var (req, w) := calls[0];
      var (response, store1) := Exchange(env, crypto, cfg, store, req, w);
      (if response.Granted? then [Event(req, w, Approve(env, crypto, cfg, store, req, w).0.value)] else [])
      + Grants(env, crypto, cfg, store1, calls[1..])
  }

  /** Every grant of the endpoint, over any history of requests, was approved. */
  lemma {:induction false} GrantsAreApproved(env: Env, crypto: Crypto, cfg: Broker.Config, store: R.Store,
                                             calls: seq<(Request, World)>, e: Event)
    requires cfg.issuer != cfg.userIssuer && e in Grants(env, crypto, cfg, store, calls)
    ensures Approved(env, crypto, cfg, e.request, e.world, e.approval)
    decreases calls
  {
    var (req, w) := calls[0];
    var store1 := Exchange(env, crypto, cfg, store, req, w).1;
    if e in Grants(env, crypto, cfg, store1, calls[1..]) {
      GrantsAreApproved(env, crypto, cfg, store1, calls[1..], e);
    } else {
      UndisturbedApprovalMeans(env, crypto, cfg, store, req, w);
    }
  }

  lemma {:induction false} ApprovedAndSigned(env: Env, crypto: Crypto, cfg: Broker.Config, g: Ledger, es: seq<Event>)
    requires SignedRun(env, cfg, g, es)
    requires forall e :: e in es ==> Approved(env, crypto, cfg, e.request, e.world, e.approval)
    ensures GenuineRun(env, crypto, cfg, g, es)
    decreases es
  {
    if es != [] {
      assert es[0] in es;
      ApprovedIsNamed(env, crypto, cfg, es[0].request, es[0].world, es[0].approval);
      WordsAreWords(TextField(es[0].request.body, "scope").value);
      MintedReadsBack(env, cfg, es[0].approval, es[0].world);
      ApprovedAndSigned(env, crypto, cfg, After(g, es[0]), es[1..]);
    }
  }

  /** So any history of requests to the endpoint is a run, given the facts about
      signatures and two different issuers. */
  lemma EndpointHistoryIsARun(env: Env, crypto: Crypto, cfg: Broker.Config, store: R.Store,
                              calls: seq<(Request, World)>)
    requires cfg.issuer != cfg.userIssuer && SignedRun(env, cfg, map[], Grants(env, crypto, cfg, store, calls))
    ensures GenuineRun(env, crypto, cfg, map[], Grants(env, crypto, cfg, store, calls))
  {
    var es := Grants(env, crypto, cfg, store, calls);
    forall e | e in es
      ensures Approved(env, crypto, cfg, e.request, e.world, e.approval)
    {
      GrantsAreApproved(env, crypto, cfg, store, calls, e);
    }
    ApprovedAndSigned(env, crypto, cfg, map[], es);
  }

  // ---------- Overlapping handlers ----------

  /** The handler of e got this far beside others: some verifier call of u brought its
      proof, was checked when the event says, and was accepted, and the steps after the
      proof approved e with its result. */
  ghost predicate CompletedIn(env: Env, cfg: Broker.Config, u: P.Sys, e: Event) {
    && Precheck(env, cfg, e.request).None?
    && exists c :: CompletedBy(env, cfg, u, e, c)
  }

  predicate CompletedBy(env: Env, cfg: Broker.Config, u: P.Sys, e: Event, c: nat)
    requires Precheck(env, cfg, e.request).None?
  {
    && c in u.calls && u.calls[c].input == ExchangeInput(e.request) && u.calls[c].phase.Accepted?
    && c in u.records && e.world.moments.checkMs == u.records[c].checkedAtMs
    && AfterProof(env, cfg, e.request, e.world, u.calls[c].phase.result) == Success(e.approval)
  }

  lemma CompletedMeans(env: Env, crypto: Crypto, cfg: Broker.Config, delay: Option<nat>, s: P.Sys, ps: seq<P.Event>,
                       e: Event)
    requires cfg.issuer != cfg.userIssuer && s.calls == map[] && P.Admissible(cfg.dpop, crypto, delay, s, ps)
    requires CompletedIn(env, cfg, P.Run(cfg.dpop, crypto, delay, s, ps), e)
    ensures Approved(env, crypto, cfg, e.request, e.world, e.approval)
  {
    var u := P.Run(cfg.dpop, crypto, delay, s, ps);
    var c :| CompletedBy(env, cfg, u, e, c);
    A.AcceptedOnRun(cfg.dpop, crypto, delay, s, ps, c);
    ApprovalMeans(env, crypto, cfg, e.request, e.world, u.calls[c].phase.result);
  }

  /** The same of overlapping handlers: their verifier calls interleave at every await,
      with each other and with other clients of the Redis, and the tokens are handed out
      in any order in which the subject tokens were handed out before. */
  lemma OverlappingHistoryIsARun(env: Env, crypto: Crypto, cfg: Broker.Config, delay: Option<nat>, s: P.Sys,
                                 ps: seq<P.Event>, es: seq<Event>)
    requires cfg.issuer != cfg.userIssuer && s.calls == map[] && P.Admissible(cfg.dpop, crypto, delay, s, ps)
    requires forall e :: e in es ==> CompletedIn(env, cfg, P.Run(cfg.dpop, crypto, delay, s, ps), e)
    requires SignedRun(env, cfg, map[], es)
    ensures GenuineRun(env, crypto, cfg, map[], es)
  {
    forall e | e in es
      ensures Approved(env, crypto, cfg, e.request, e.world, e.approval)
    {
      CompletedMeans(env, crypto, cfg, delay, s, ps, e);
    }
    ApprovedAndSigned(env, crypto, cfg, map[], es);
  }

  // ---------- What a lineage guarantees ----------

  predicate UserIssued(env: Env, cfg: Broker.Config, token: string) {
    var jwt := env.decode(token);
    && jwt.Some? && jwt.value.signer.UserIssuer?
    && TextOf(env, Field(jwt.value.claims, "iss")) == cfg.userIssuer
    && NamesAudience(jwt.value.claims, cfg.userAudience)
  }

  /** Each hop: a permitted request whose subject token, then unexpired, was the token of
      the lineage before it and, when that was minted too, says so. */
  predicate WellGrown(env: Env, crypto: Crypto, cfg: Broker.Config, l: Lineage) {
    match l
    case FromUser(token, user) =>
      UserIssued(env, cfg, token) && user == UserIdentity(env, cfg, env.decode(token).value.claims)
    case Hop(p, actor, audience, scopes, req, w) =>
      && WellGrown(env, crypto, cfg, p)
      && actor != "" && Permitted(env, crypto, cfg, req, w, actor, audience, scopes)
      && Presented(env, crypto, cfg, p, req, w.validateSec)
  }

  predicate Presented(env: Env, crypto: Crypto, cfg: Broker.Config, p: Lineage, req: Request, validateSec: int) {
    var jwt := env.decode(Token(p));
    && TextField(req.body, "subject_token") == Some(Token(p)) && jwt.Some?
    && NumberOr0(Field(jwt.value.claims, "exp")) > validateSec as real
    && (p.Hop? ==> jwt.value.signer.Broker? && Reflects(env, crypto, cfg, p, jwt.value.claims))
  }

  // The user a token of the user issuer names.
  function UserIdentity(env: Env, cfg: Broker.Config, c: Claims): Identity {
    Identity(TextOf(env, Field(c, "sub")), NormaliseStringList(Field(c, "roles")),
             NormaliseStringList(Field(c, "groups")), cfg.userIssuer)
  }

  lemma {:induction false} WellGrownUser(env: Env, crypto: Crypto, cfg: Broker.Config, l: Lineage)
    requires WellGrown(env, crypto, cfg, l)
    ensures UserIssued(env, cfg, UserToken(l))
    ensures Principal(l) == UserIdentity(env, cfg, env.decode(UserToken(l)).value.claims)
  {
    if l.Hop? {
      WellGrownUser(env, crypto, cfg, l.previous);
    }
  }

  // The claims of a token with this lineage, as its readers see them.
  predicate Reflects(env: Env, crypto: Crypto, cfg: Broker.Config, l: Lineage, c: Claims)
    requires l.Hop?
  {
    && l.request.proof.Some? && l.request.proof.value.Proof? && l.request.proof.value.jwk.Some?
    && PreviousChain(c) == ChainOf(l)
    && Reads(env, c, Principal(l))
    && ConfirmedKey(c) == Some(crypto.thumbprint(l.request.proof.value.jwk.value))
    && ScopeList(TextOf(env, Field(c, "scope"))) == l.scopes
    && Field(c, "aud") == Some(Str(l.audience))
    && Field(c, "iss") == Some(Str(cfg.issuer))
    && Dated(c, l.world.mintSec, l.world.mintSec + cfg.ttlSeconds)
  }

  // Valid from the start, up to its expiry.
  predicate Dated(c: Claims, mintSec: int, expSec: int) {
    && Field(c, "iat") == Some(Num(mintSec as real)) && "nbf" !in c
    && Field(c, "exp") == Some(Num(expSec as real))
  }

  // The user, as a broker token names it.
  predicate Reads(env: Env, c: Claims, user: Identity) {
    && TextOf(env, Field(c, "sub")) == user.sub
    && OnlyStrings(Field(c, "roles")) == user.roles && OnlyStrings(Field(c, "groups")) == user.groups
    && Field(c, "user_issuer") == Some(Str(user.issuer))
  }

  predicate Vouched(env: Env, crypto: Crypto, cfg: Broker.Config, raw: string, l: Lineage) {
    && l.Hop? && Token(l) == raw && WellGrown(env, crypto, cfg, l)
    && env.decode(raw).Some? && env.decode(raw).value.signer.Broker?
    && Reflects(env, crypto, cfg, l, env.decode(raw).value.claims)
  }

  predicate Inv(env: Env, crypto: Crypto, cfg: Broker.Config, g: Ledger) {
    forall raw :: raw in g ==> Vouched(env, crypto, cfg, raw, g[raw])
  }

  // ---------- One exchange ----------

  // Re-entry reads back the user the token names.
  lemma ReentryReads(env: Env, cfg: Broker.Config, c: Claims, user: Identity)
    requires Reads(env, c, user)
    ensures IdentityOf(ReentryUser(env, cfg, c)) == user
  {
    assert CustomClaims(c)["user_issuer"] == c["user_issuer"];
  }

  // The subject of a grant carries on where its token's lineage stands.
  lemma SubjectContinues(env: Env, crypto: Crypto, cfg: Broker.Config, g: Ledger, e: Event)
    requires Inv(env, crypto, cfg, g) && Unforged(env, g, SubjectToken(e.request))
    requires TextField(e.request.body, "subject_token").Some?
    requires Derives(env, cfg, SubjectToken(e.request), e.world.validateSec, e.approval.subject)
    ensures WellGrown(env, crypto, cfg, Origin(g, e))
    ensures Presented(env, crypto, cfg, Origin(g, e), e.request, e.world.validateSec)
    ensures IdentityOf(e.approval.subject.user) == Principal(Origin(g, e))
    ensures e.approval.subject.previous == ChainOf(Origin(g, e))
  {
    var token := SubjectToken(e.request);
    if token in g {
      assert Vouched(env, crypto, cfg, token, g[token]);
      ReentryReads(env, cfg, env.decode(token).value.claims, Principal(g[token]));
    }
  }

  // What readers find in the claims an approval is minted into.
  predicate ReadsAs(env: Env, cfg: Broker.Config, a: Approval, mintSec: int, c: Claims) {
    && PreviousChain(c) == Some(Compose(a.actor, a.subject.previous))
    && Reads(env, c, IdentityOf(a.subject.user))
    && ConfirmedKey(c) == Some(a.jkt)
    && ScopeList(TextOf(env, Field(c, "scope"))) == a.scopes
    && Field(c, "aud") == Some(Str(a.audience))
    && Field(c, "iss") == Some(Str(cfg.issuer))
    && Dated(c, mintSec, mintSec + cfg.ttlSeconds)
  }

  // The minted claims, member by member.
  predicate Holds(cfg: Broker.Config, a: Approval, w: World, c: Claims) {
    && Field(c, "act") == Some(ToJson(Compose(a.actor, a.subject.previous)))
    && Field(c, "sub") == Some(Str(a.subject.user.sub))
    && Field(c, "roles") == Some(FromStrings(a.subject.user.roles))
    && Field(c, "groups") == Some(FromStrings(a.subject.user.groups))
    && Field(c, "user_issuer") == Some(Str(a.subject.user.issuer))
    && Field(c, "cnf") == Some(Obj(map["jkt" := Str(a.jkt)]))
    && Field(c, "scope") == Some(Str(Join(a.scopes, ' ')))
    && Field(c, "aud") == Some(Str(a.audience))
    && Field(c, "iss") == Some(Str(cfg.issuer))
    && Dated(c, w.mintSec, w.mintSec + cfg.ttlSeconds)
    && Field(c, "jti") == Some(Str(w.jti))
  }

  lemma MintedMembers(cfg: Broker.Config, a: Approval, w: World)
    ensures Holds(cfg, a, w, ClaimsFor(cfg, a, w))
  {
  }

  lemma ChainReadsBack(c: Claims, actor: string, previous: Option<Chain>)
    requires actor != "" && Named(previous) && Field(c, "act") == Some(ToJson(Compose(actor, previous)))
    ensures PreviousChain(c) == Some(Compose(actor, previous))
  {
    ReadBackWhole(Compose(actor, previous));
  }

  lemma UserReadsBack(env: Env, c: Claims, user: Identity)
    requires Field(c, "sub") == Some(Str(user.sub)) && Field(c, "user_issuer") == Some(Str(user.issuer))
    requires Field(c, "roles") == Some(FromStrings(user.roles))
    requires Field(c, "groups") == Some(FromStrings(user.groups))
    ensures Reads(env, c, user)
  {
    StringsBack(user.roles);
    StringsBack(user.groups);
  }

  lemma MembersReadBack(env: Env, cfg: Broker.Config, a: Approval, w: World, c: Claims)
    requires a.actor != "" && Named(a.subject.previous) && AllWords(a.scopes) && Holds(cfg, a, w, c)
    ensures ReadsAs(env, cfg, a, w.mintSec, c)
  {
    ChainReadsBack(c, a.actor, a.subject.previous);
    UserReadsBack(env, c, IdentityOf(a.subject.user));
    ScopesSurvive(a.scopes);
  }

  /** What is minted reads back: the chain with the new actor outermost, the user, the
      proof key, the scope list, audience, issuer and dates. */
  lemma MintedReadsBack(env: Env, cfg: Broker.Config, a: Approval, w: World)
    requires a.actor != "" && Named(a.subject.previous) && AllWords(a.scopes)
    ensures ReadsAs(env, cfg, a, w.mintSec, ClaimsFor(cfg, a, w))
  {
    MintedMembers(cfg, a, w);
    MembersReadBack(env, cfg, a, w, ClaimsFor(cfg, a, w));
  }

  lemma ApprovedIsNamed(env: Env, crypto: Crypto, cfg: Broker.Config, req: Request, w: World, a: Approval)
    requires Approved(env, crypto, cfg, req, w, a)
    ensures a.actor != "" && Named(a.subject.previous)
  {
    var c := env.decode(SubjectToken(req)).value.claims;
    if "act" in c {
      ReadChainsAreNamed(c["act"]);
    }
  }

  lemma HopIsWellGrown(env: Env, crypto: Crypto, cfg: Broker.Config, g: Ledger, e: Event)
    requires Approved(env, crypto, cfg, e.request, e.world, e.approval) && WellGrown(env, crypto, cfg, Origin(g, e))
    requires Presented(env, crypto, cfg, Origin(g, e), e.request, e.world.validateSec)
    ensures WellGrown(env, crypto, cfg, HopFor(g, e))
  {
    ApprovedIsNamed(env, crypto, cfg, e.request, e.world, e.approval);
  }

  // What the claims read as is what the lineage says.
  lemma HopReflects(env: Env, crypto: Crypto, cfg: Broker.Config, previous: Lineage, e: Event, c: Claims)
    requires ReadsAs(env, cfg, e.approval, e.world.mintSec, c)
    requires e.request.proof.Some? && e.request.proof.value.Proof? && e.request.proof.value.jwk.Some?
    requires e.approval.jkt == crypto.thumbprint(e.request.proof.value.jwk.value)
    requires IdentityOf(e.approval.subject.user) == Principal(previous)
    requires e.approval.subject.previous == ChainOf(previous)
    ensures Reflects(env, crypto, cfg, Hop(previous, e.approval.actor, e.approval.audience, e.approval.scopes,
                                           e.request, e.world), c)
  {
  }

  /** One grant: the new token is as well grown as its subject token, and reads as its lineage. */
  lemma HopIsVouched(env: Env, crypto: Crypto, cfg: Broker.Config, g: Ledger, e: Event)
    requires Inv(env, crypto, cfg, g) && Genuine(env, crypto, cfg, g, e)
    ensures Vouched(env, crypto, cfg, e.world.raw, HopFor(g, e))
  {
    SubjectContinues(env, crypto, cfg, g, e);
    HopIsWellGrown(env, crypto, cfg, g, e);
    HopReflects(env, crypto, cfg, Origin(g, e), e, env.decode(e.world.raw).value.claims);
  }

  lemma VouchedExtends(env: Env, crypto: Crypto, cfg: Broker.Config, g: Ledger, raw: string, l: Lineage)
    requires Inv(env, crypto, cfg, g) && Vouched(env, crypto, cfg, raw, l)
    ensures Inv(env, crypto, cfg, g[raw := l])
  {
  }

  lemma {:induction false} RunKeepsInv(env: Env, crypto: Crypto, cfg: Broker.Config, g: Ledger, es: seq<Event>)
    requires Inv(env, crypto, cfg, g) && GenuineRun(env, crypto, cfg, g, es)
    ensures Inv(env, crypto, cfg, Run(g, es))
    decreases es
  {
    if es != [] {
      HopIsVouched(env, crypto, cfg, g, es[0]);
      VouchedExtends(env, crypto, cfg, g, es[0].world.raw, HopFor(g, es[0]));
      RunKeepsInv(env, crypto, cfg, After(g, es[0]), es[1..]);
    }
  }

  // ---------- The main results ----------

  /** Provenance: on every run, every minted token descends by finitely many
      exchanges from a token of the user issuer; at each hop the actor is a catalog
      entry that authenticated with its secret and proved a key, and the audience
      and scopes lie within that actor's lists. */
  lemma EveryTokenDescendsFromAUser(env: Env, crypto: Crypto, cfg: Broker.Config, es: seq<Event>, raw: string)
    requires GenuineRun(env, crypto, cfg, map[], es)
    requires raw in Run(map[], es)
    ensures var l := Run(map[], es)[raw];
            && l.Hop? && WellGrown(env, crypto, cfg, l) && UserIssued(env, cfg, UserToken(l))
            && Principal(l) == UserIdentity(env, cfg, env.decode(UserToken(l)).value.claims)
            && Vouched(env, crypto, cfg, raw, l)
  {
    RunKeepsInv(env, crypto, cfg, map[], es);
    WellGrownUser(env, crypto, cfg, Run(map[], es)[raw]);
  }

  // What the receiver reads from a vouched token.
  predicate Tells(env: Env, l: Lineage, c: Claims) {
    var chain := ExtractActorChain(c);
    && chain.Some? && Reverse(Subs(chain)) == Actors(l) && |Subs(chain)| == |Actors(l)|
    && Reads(env, c, Principal(l))
    && ScopeList(TextOf(env, Field(c, "scope"))) == l.scopes
  }

  lemma VouchedTells(env: Env, crypto: Crypto, cfg: Broker.Config, raw: string, l: Lineage)
    requires Vouched(env, crypto, cfg, raw, l)
    ensures Tells(env, l, env.decode(raw).value.claims)
  {
    ReadersAgree(env.decode(raw).value.claims);
    ChainListsActors(l);
  }

  /** Identity and chain: on every run, however many actors a1..an exchanged in turn,
      the receiver reads exactly [a1..an] with depth n from the n-th token, and the
      subject, roles, groups and user issuer are those of the user at the start;
      the scope claim reads back as the list granted. */
  lemma ChainAndPrincipalSurvive(env: Env, crypto: Crypto, cfg: Broker.Config, es: seq<Event>, raw: string)
    requires GenuineRun(env, crypto, cfg, map[], es)
    requires raw in Run(map[], es)
    ensures var l := Run(map[], es)[raw];
            && WellGrown(env, crypto, cfg, l) && env.decode(raw).Some?
            && Tells(env, l, env.decode(raw).value.claims)
  {
    EveryTokenDescendsFromAUser(env, crypto, cfg, es, raw);
    VouchedTells(env, crypto, cfg, raw, Run(map[], es)[raw]);
  }

  /** Both results of the endpoint itself: over any history of requests, refused ones
      included, from any store, with only the facts about signatures assumed. */
  lemma EndpointTokensTellTheirLineage(env: Env, crypto: Crypto, cfg: Broker.Config, store: R.Store,
                                       calls: seq<(Request, World)>, raw: string)
    requires cfg.issuer != cfg.userIssuer && SignedRun(env, cfg, map[], Grants(env, crypto, cfg, store, calls))
    requires raw in Run(map[], Grants(env, crypto, cfg, store, calls))
    ensures var l := Run(map[], Grants(env, crypto, cfg, store, calls))[raw];
            && Vouched(env, crypto, cfg, raw, l) && UserIssued(env, cfg, UserToken(l))
            && Tells(env, l, env.decode(raw).value.claims)
  {
    EndpointHistoryIsARun(env, crypto, cfg, store, calls);
    EveryTokenDescendsFromAUser(env, crypto, cfg, Grants(env, crypto, cfg, store, calls), raw);
    VouchedTells(env, crypto, cfg, raw, Run(map[], Grants(env, crypto, cfg, store, calls))[raw]);
  }
}
