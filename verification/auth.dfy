/** The authorization gates placed in front of the routes. Each takes the `Authorization`
    header and the access-token cookie, requires a Bearer header whose second word equals
    the cookie, verifies that word as an access token, routes on the role claim, and asks
    the user or admin status check for an Active account; the identity it attaches is the
    record that check returns. Every refusal is `Unathenticated`, with the status of the
    error that caused it or 403. The guest gate lets requests without a Bearer header
    through as a guest. */
module Auth {
  import opened Base
  import opened Types
  import opened Jwt
  import opened UserModel
  import Credentials

  datatype Request = Request(authorization: Option<string>, accessCookie: Option<string>)

  /** The identity a gate attaches to the request. */
  datatype Identity = Identity(id: string, name: string, status: AccountStatus, role: Option<Role>)

  datatype Verdict = Next(identity: Identity) | NextError(failure: Failure) | Hangs

  /** A gate's verdict and the two collections it leaves behind (the status check saves). */
  datatype GateOutcome = GateOutcome(users: seq<Principal>, admins: seq<Principal>, verdict: Verdict)

  datatype GatePolicy = SuperAdminOnly | AdminOrAbove | UserOnly | AnyRole

  /** `new ErrorResponse('Unathenticated', statusCode || 403)` */
  function Refuse(status: Option<int>): (f: Failure)
    ensures f.message == "Unathenticated" && f.statusCode.Some?
    ensures status.None? ==> f.statusCode == Some(Forbidden)
  {
    Failure("Unathenticated", Some(StatusOr(status, Forbidden)), NoCode)
  }

  /** The piece of `s` before its first space. */
  function BeforeSpace(s: string): (r: string)
    ensures r <= s && ' ' !in r
    ensures |r| < |s| ==> s[|r|] == ' '
  {
    if |s| == 0 || s[0] == ' ' then "" else [s[0]] + BeforeSpace(s[1..])
  }

  /** `header.split(' ')[1]`: the second space-separated piece, or undefined when the
      header has no space. */
  function SplitSecond(h: string): (r: Option<string>)
    ensures r.None? <==> ' ' !in h
    ensures r.Some? ==> ' ' !in r.value
  {
    if ' ' !in h then None
    else
      var i := BeforeSpace(h);
      Some(BeforeSpace(h[|i| + 1..]))
  }

  lemma {:induction false} BeforeSpaceOfWord(w: string, rest: string)
    requires ' ' !in w
    requires |rest| == 0 || rest[0] == ' '
    ensures BeforeSpace(w + rest) == w
  {
    if |w| > 0 {
      assert (w + rest)[1..] == w[1..] + rest;
      BeforeSpaceOfWord(w[1..], rest);
    } else {
      assert w + rest == rest;
    }
  }

  /** A header built as `Bearer <token>` yields the token, provided it has no space. */
  lemma {:induction false} SplitBearer(t: string)
    requires ' ' !in t
    ensures SplitSecond("Bearer " + t) == Some(t)
  {
    var h := "Bearer " + t;
    assert h[6] == ' ';
    BeforeSpaceOfWord("Bearer", h[6..]);
    assert h == "Bearer" + h[6..];
    assert h[7..] == t;
    BeforeSpaceOfWord(t, "");
    assert t + "" == t;
  }

  predicate HasBearer(r: Request)
  {
    r.authorization.Some? && r.authorization.value != "" && Contains(r.authorization.value, "Bearer")
  }

  /** The header word and the cookie are both present and equal. */
  predicate TokensAgree(r: Request)
    requires HasBearer(r)
  {
    var t := SplitSecond(r.authorization.value);
    t.Some? && t.value != "" && r.accessCookie.Some? && r.accessCookie.value != "" && t.value == r.accessCookie.value
  }

  /** The word the gate verifies. */
  function Presented(r: Request): (t: string)
    requires HasBearer(r) && TokensAgree(r)
    ensures t != "" && r.accessCookie == Some(t)
  {
    SplitSecond(r.authorization.value).value
  }

  /** The store a role claim is checked against under a policy, if any. */
  function Route(policy: GatePolicy, role: string): (r: Option<Credentials.Kind>)
    ensures r == Some(Credentials.AdminKind) ==> role in ["SuperAdmin", "DeveloperAdmin", "Admin"]
    ensures r == Some(Credentials.UserKind) ==> role == "User"
  {
    match policy
    case SuperAdminOnly => if role in ["SuperAdmin", "DeveloperAdmin"] then Some(Credentials.AdminKind) else None
    case AdminOrAbove => if role in ["SuperAdmin", "DeveloperAdmin", "Admin"] then Some(Credentials.AdminKind) else None
    case UserOnly => if role == "User" then Some(Credentials.UserKind) else None
    case AnyRole =>
      if role in ["SuperAdmin", "DeveloperAdmin", "Admin"] then Some(Credentials.AdminKind)
      else if role == "User" then Some(Credentials.UserKind) else None
  }

  /** The steps after verification: route on the role, check the account is Active in
      the store the role names, and attach the checked record. */
  function Admit(policy: GatePolicy, claims: Claims, users: seq<Principal>, admins: seq<Principal>, now: int): (o: GateOutcome)
    ensures o.verdict != Hangs
    ensures Route(policy, claims.role).None? ==> o == GateOutcome(users, admins, NextError(Refuse(None)))
    ensures o.verdict.Next? ==>
      Route(policy, claims.role).Some? && o.verdict.identity.id == claims.id && o.verdict.identity.status == Active
  {
    match Route(policy, claims.role)
    case None => GateOutcome(users, admins, NextError(Refuse(None)))
    case Some(k) =>
      var store := if k == Credentials.UserKind then users else admins;
      var c := Credentials.CheckStatus(k, store, Some(claims.id), [Active], now);
      var users' := if k == Credentials.UserKind then c.store else users;
      var admins' := if k == Credentials.AdminKind then c.store else admins;
      match c.result
      case Resolves(v) => GateOutcome(users', admins', Next(Identity(v.id, v.name, v.status, v.role)))
      case Rejects(f) => GateOutcome(users', admins', NextError(Refuse(f.statusCode)))
      case NeverSettles => GateOutcome(users', admins', Hangs)
  }

  /** `superAdminAccess`, `adminAccess`, `userAccess` and `allRoleAccess`. A verification
      that never settles leaves the request hanging. */
  function Gate(policy: GatePolicy, r: Request, users: seq<Principal>, admins: seq<Principal>, cfg: JwtConfig,
                now: int, decode: string -> Option<Token>): (o: GateOutcome)
    ensures !HasBearer(r) || !TokensAgree(r) ==> o == GateOutcome(users, admins, NextError(Refuse(None)))
    ensures o.verdict.Next? <==>
      HasBearer(r) && TokensAgree(r)
      && VerifyToken(Presented(r), AccessToken, cfg, now, decode).Resolves?
      && Admit(policy, VerifyToken(Presented(r), AccessToken, cfg, now, decode).value, users, admins, now).verdict.Next?
    ensures o.verdict.Hangs? <==>
      HasBearer(r) && TokensAgree(r) && VerifyToken(Presented(r), AccessToken, cfg, now, decode).NeverSettles?
    ensures o.verdict.NextError? ==> o.verdict.failure.message == "Unathenticated"
  {
    if !HasBearer(r) || !TokensAgree(r) then GateOutcome(users, admins, NextError(Refuse(None)))
    else match VerifyToken(Presented(r), AccessToken, cfg, now, decode)
      case NeverSettles => GateOutcome(users, admins, Hangs)
      case Rejects(f) => GateOutcome(users, admins, NextError(Refuse(f.statusCode)))
      case Resolves(claims) => Admit(policy, claims, users, admins, now)
  }

  /** The guest identity, with the fresh object id it is given as a parameter. */
  function GuestIdentity(guestId: string): Identity
  {
    Identity(guestId, "Guest", Active, Some(Role.Guest))
  }

  /** `guestAccess` as written: it reads `.payload` of the verified claims, which do not
      have one, so reading the role throws and every request with a verified token is
      refused with 403. */
  function GuestGate(r: Request, users: seq<Principal>, admins: seq<Principal>, cfg: JwtConfig,
                     now: int, decode: string -> Option<Token>, guestId: string): (o: GateOutcome)
    ensures o.users == users && o.admins == admins
    ensures !HasBearer(r) ==> o.verdict == Next(GuestIdentity(guestId))
    ensures HasBearer(r) ==> !o.verdict.Next?
    ensures HasBearer(r) ==>
      (o.verdict.Hangs? <==> TokensAgree(r) && VerifyToken(Presented(r), AccessToken, cfg, now, decode).NeverSettles?)
    ensures o.verdict.NextError? ==> o.verdict.failure == Refuse(None)
  {
    if !HasBearer(r) then GateOutcome(users, admins, Next(GuestIdentity(guestId)))
    else if !TokensAgree(r) then GateOutcome(users, admins, NextError(Refuse(None)))
    else match VerifyToken(Presented(r), AccessToken, cfg, now, decode)
      case NeverSettles => GateOutcome(users, admins, Hangs)
      case Rejects(f) => GateOutcome(users, admins, NextError(Refuse(f.statusCode)))
      case Resolves(_) => GateOutcome(users, admins, NextError(Refuse(None)))
  }

  /** The guest gate reading the verified claims directly: like `allRoleAccess` once a
      Bearer header is sent. */
  function GuestGateIntended(r: Request, users: seq<Principal>, admins: seq<Principal>, cfg: JwtConfig,
                             now: int, decode: string -> Option<Token>, guestId: string): (o: GateOutcome)
    ensures !HasBearer(r) ==> o == GateOutcome(users, admins, Next(GuestIdentity(guestId)))
    ensures HasBearer(r) ==> o == Gate(AnyRole, r, users, admins, cfg, now, decode)
  {
    if !HasBearer(r) then GateOutcome(users, admins, Next(GuestIdentity(guestId)))
    else Gate(AnyRole, r, users, admins, cfg, now, decode)
  }

  /** The access token of a successful user login verifies, before it expires, to the
      logged-in record's id with the role `User`. */
  lemma {:induction false} LoginTokenVerifies(store: seq<Principal>, username: string, password: string, cfg: JwtConfig,
                                             loginAt: int, now: int, text: string, decode: string -> Option<Token>)
    requires cfg.accessSecret == cfg.accessVerifySecret
    requires var o := Credentials.Login(Credentials.UserKind, store, Some(username), None, None, Some(password), cfg, loginAt);
      o.result.Resolves? && text != "" && decode(text) == Some(o.result.value.accessToken)
      && !Expired(o.result.value.accessToken.payload.claims, now)
    requires store[Credentials.LoginTarget(store, Some(username), None, None).value].role == User
    ensures var i := Credentials.LoginTarget(store, Some(username), None, None).value;
      var v := VerifyToken(text, AccessToken, cfg, now, decode);
      v.Resolves? && v.value.id == store[i].id && v.value.role == "User"
  {
    var i := Credentials.LoginTarget(store, Some(username), None, None).value;
    var p := store[i];
    Credentials.LoginSuccess(Credentials.UserKind, store, Some(username), None, None, Some(password), cfg, loginAt);
    var meta := Meta(p.id, p.name, RoleName(p.role), AccessToken);
    VerifyGenerated(meta, cfg, loginAt, now, text, decode);
  }

  /** An Active or Inactive live user named by a `User` claim is admitted by the user and
      any-role gates with the claim's id. */
  lemma {:induction false} ActiveUserAdmitted(claims: Claims, users: seq<Principal>, admins: seq<Principal>, now: int, i: nat)
    requires claims.role == "User" && claims.id != "" && ValidObjectId(claims.id)
    requires Credentials.FindLive(users, claims.id) == Some(i) && users[i].status in {Active, Inactive}
    ensures Admit(UserOnly, claims, users, admins, now).verdict.Next?
    ensures Admit(UserOnly, claims, users, admins, now).verdict.identity.id == claims.id
    ensures Admit(AnyRole, claims, users, admins, now).verdict.Next?
  {
    ActiveUserChecked(users, claims.id, now, i);
    assert Route(UserOnly, claims.role) == Some(Credentials.UserKind);
    assert Route(AnyRole, claims.role) == Some(Credentials.UserKind);
  }

  /** The status check for Active passes an Active or Inactive live user. */
  lemma {:induction false} ActiveUserChecked(users: seq<Principal>, id: string, now: int, i: nat)
    requires id != "" && ValidObjectId(id)
    requires Credentials.FindLive(users, id) == Some(i) && users[i].status in {Active, Inactive}
    ensures var c := Credentials.CheckStatus(Credentials.UserKind, users, Some(id), [Active], now);
      c.result.Resolves? && c.result.value.id == id
  {
    assert Credentials.Promoted(users[i], now).status == Active;
  }

  /** The record a user logged in as, presented as a Bearer header and cookie before the
      token expires, passes the user gate and the any-role gate, which attach its id;
      the guest gate as written refuses the same request. */
  lemma {:induction false} LoginTokenPassesUserGate(store: seq<Principal>, admins: seq<Principal>, username: string,
                                                   password: string, cfg: JwtConfig, loginAt: int, now: int,
                                                   text: string, decode: string -> Option<Token>, guestId: string)
    requires AllSettled(store) && Credentials.UniqueIds(store)
    requires username != "" && password != "" && ' ' !in text
    requires cfg.accessSecret == cfg.accessVerifySecret
    requires var o := Credentials.Login(Credentials.UserKind, store, Some(username), None, None, Some(password), cfg, loginAt);
      o.result.Resolves? && text != "" && decode(text) == Some(o.result.value.accessToken)
      && !Expired(o.result.value.accessToken.payload.claims, now)
    requires var i := Credentials.LoginTarget(store, Some(username), None, None).value;
      store[i].role == User && store[i].status in {Active, Inactive} && !store[i].isDeleted
      && ValidObjectId(store[i].id) && store[i].id != ""
    ensures var o := Credentials.Login(Credentials.UserKind, store, Some(username), None, None, Some(password), cfg, loginAt);
      var i := Credentials.LoginTarget(store, Some(username), None, None).value;
      var req := Request(Some("Bearer " + text), Some(text));
      Gate(UserOnly, req, o.store, admins, cfg, now, decode).verdict.Next?
      && Gate(UserOnly, req, o.store, admins, cfg, now, decode).verdict.identity.id == store[i].id
      && Gate(AnyRole, req, o.store, admins, cfg, now, decode).verdict.Next?
      && GuestGate(req, o.store, admins, cfg, now, decode, guestId).verdict.NextError?
  {
    var o := Credentials.Login(Credentials.UserKind, store, Some(username), None, None, Some(password), cfg, loginAt);
    var i := Credentials.LoginTarget(store, Some(username), None, None).value;
    var req := Request(Some("Bearer " + text), Some(text));
    BearerRequest(text);
    LoginTokenVerifies(store, username, password, cfg, loginAt, now, text, decode);
    var claims := VerifyToken(text, AccessToken, cfg, now, decode).value;
    LoggedInStaysLive(store, username, password, cfg, loginAt);
    ActiveUserAdmitted(claims, o.store, admins, now, i);
  }

  /** A `Bearer <t>` header with the cookie `t` presents `t`. */
  lemma {:induction false} BearerRequest(text: string)
    requires text != "" && ' ' !in text
    ensures var req := Request(Some("Bearer " + text), Some(text));
      HasBearer(req) && TokensAgree(req) && Presented(req) == text
  {
    SplitBearer(text);
    assert OccursAt("Bearer " + text, "Bearer", 0);
  }

  /** A live Active or Inactive user who logs in stays live, at the same place, as Active
      or Inactive. */
  lemma {:induction false} LoggedInStaysLive(store: seq<Principal>, username: string, password: string,
                                             cfg: JwtConfig, loginAt: int)
    requires AllSettled(store) && Credentials.UniqueIds(store)
    requires username != "" && password != ""
    requires Credentials.Login(Credentials.UserKind, store, Some(username), None, None, Some(password), cfg, loginAt).result.Resolves?
    requires var i := Credentials.LoginTarget(store, Some(username), None, None).value;
      store[i].status in {Active, Inactive} && !store[i].isDeleted
    ensures var o := Credentials.Login(Credentials.UserKind, store, Some(username), None, None, Some(password), cfg, loginAt);
      var i := Credentials.LoginTarget(store, Some(username), None, None).value;
      Credentials.FindLive(o.store, store[i].id) == Some(i) && o.store[i].status in {Active, Inactive}
  {
    var o := Credentials.Login(Credentials.UserKind, store, Some(username), None, None, Some(password), cfg, loginAt);
    var i := Credentials.LoginTarget(store, Some(username), None, None).value;
    var p := store[i];
    Credentials.LoginSuccess(Credentials.UserKind, store, Some(username), None, None, Some(password), cfg, loginAt);
    var saved := Credentials.LoggedIn(p, false, loginAt);
    Credentials.PutAt(store, i, saved);
    assert Credentials.FindLive(o.store, p.id) == Some(i) by {
      forall j | 0 <= j < i ensures !(o.store[j].id == p.id && !o.store[j].isDeleted) {
        assert o.store[j] == store[j];
        assert store[j].id != store[i].id;
      }
    }
  }

  /** Refusals of the gate for an account the status check turns away keep that check's
      status: a Blocked user is refused with 401, an unknown one with 404. */
  lemma {:induction false} StatusRefusalKeepsStatus(claims: Claims, users: seq<Principal>, admins: seq<Principal>, now: int)
    requires claims.role == "User" && claims.id != "" && ValidObjectId(claims.id)
    ensures var t := Credentials.FindLive(users, claims.id);
      var v := Admit(UserOnly, claims, users, admins, now).verdict;
      (t.None? ==> v == NextError(Refuse(Some(NotFound))))
      && (t.Some? && users[t.value].status == Blocked ==> v == NextError(Refuse(Some(Unauthorized))))
  {
  }
}
