/** The request handlers in front of the helpers: the login and refresh replies with their
    cookies, the role-derived visibility of every list handler, and the forwarding of
    helper failures to the error middleware. */
module Controllers {
  import opened Base
  import opened Types
  import Jwt
  import UserModel
  import Credentials
  import Auth
  import Resource
  import CodeGen
  import ErrorHandler

  /** What a handler does: a 200 JSON reply (with the cookies it sets and the token it puts
      in the body), a failure passed to the error middleware, or nothing at all. */
  datatype Sent<T> =
    | Json(status: int, message: string, cookies: seq<(string, T)>, token: Option<T>)
    | Error(reply: ErrorHandler.HttpReply)
    | Silent

  /** `next(new ErrorResponse(error.message, error.statusCode, error.code))`: message,
      status and code pass unchanged, under the class name of a plain error. */
  function Forward(e: Failure): (r: ErrorHandler.HttpReply)
    ensures !r.success
    ensures ErrorHandler.CodeMessage(e.code).None? ==> r.status == StatusOr(e.statusCode, InternalServer)
  {
    ErrorHandler.Handle(Failure(e.message, e.statusCode, e.code), "Error")
  }

  /** The reply of a handler that issues tokens: both tokens go into cookies, only the
      access token into the body. */
  function TokenReply<T>(r: Settle<(string, T, T)>): (s: Sent<T>)
    ensures r.Resolves? ==>
      (s.Json? && s.status == OK && s.message == r.value.0
       && s.token == Some(r.value.1) && |s.cookies| == 2
       && s.cookies[0] == ("AccessToken", r.value.1) && s.cookies[1] == ("RefreshToken", r.value.2))
    ensures r.Rejects? ==> s == Error(Forward(r.failure))
    ensures r.NeverSettles? ==> s.Silent?
  {
    match r
    case Resolves((message, access, refresh)) =>
      Json(OK, message, [("AccessToken", access), ("RefreshToken", refresh)], Some(access))
    case Rejects(e) => Error(Forward(e))
    case NeverSettles => Silent
  }

  datatype Handled<T> = Handled(store: seq<UserModel.Principal>, sent: Sent<T>)

  /** `userLogin` and `adminLogin`. */
  function LoginHandler(k: Credentials.Kind, store: seq<UserModel.Principal>, username: Option<string>,
                        email: Option<string>, phone: Option<string>, password: Option<string>,
                        cfg: Jwt.JwtConfig, now: int): (h: Handled<Jwt.Token>)
    ensures h.store == Credentials.Login(k, store, username, email, phone, password, cfg, now).store
    ensures h.sent.Json? <==> Credentials.Login(k, store, username, email, phone, password, cfg, now).result.Resolves?
  {
    var o := Credentials.Login(k, store, username, email, phone, password, cfg, now);
    Handled(o.store, TokenReply(match o.result
      case Resolves(s) => Resolves((s.message, s.accessToken, s.refreshToken))
      case Rejects(e) => Rejects(e)
      case NeverSettles => NeverSettles))
  }

  /** A successful login sets the session's two tokens as cookies and returns only the
      access token in the body. */
  lemma LoginSetsBothCookies(k: Credentials.Kind, store: seq<UserModel.Principal>, username: Option<string>,
                             email: Option<string>, phone: Option<string>, password: Option<string>,
                             cfg: Jwt.JwtConfig, now: int)
    requires Credentials.Login(k, store, username, email, phone, password, cfg, now).result.Resolves?
    ensures var s := Credentials.Login(k, store, username, email, phone, password, cfg, now).result.value;
      LoginHandler(k, store, username, email, phone, password, cfg, now).sent
        == Json(OK, "Login Success", [("AccessToken", s.accessToken), ("RefreshToken", s.refreshToken)], Some(s.accessToken))
  {
  }

  /** A Blocked account's login reaches the client as a 401 with the blocking message,
      whatever password was sent. */
  lemma {:induction false} BlockedLoginReply(k: Credentials.Kind, store: seq<UserModel.Principal>, username: Option<string>,
                                             email: Option<string>, phone: Option<string>, password: Option<string>,
                                             cfg: Jwt.JwtConfig, now: int)
    requires Credentials.LoginInputValid(username, email, phone, password)
    requires Credentials.LoginTarget(store, username, email, phone).Some?
    requires store[Credentials.LoginTarget(store, username, email, phone).value].status == Blocked
    ensures LoginHandler(k, store, username, email, phone, password, cfg, now)
         == Handled(store, Error(ErrorHandler.HttpReply(Unauthorized, false, "Account blocked! contact Customer Care")))
  {
    Credentials.BlockedBeforePassword(k, store, username, email, phone, password, cfg, now);
  }

  // ---------------------------------------------------------------- refresh

  /** `upgradeUserAccessToken` / `upgradeAdminAccessToken` in the helpers: any non-empty
      refresh token is answered with two placeholder strings; the token is never read. A
      failure keeps only the message and the error's name as its code. */
  function UpgradeAccessToken(refresh: string): (r: Settle<(string, string, string)>)
    ensures r.Resolves? <==> refresh != ""
    ensures r.Resolves? ==> r.value == ("New Access Token Created", "accessToken", "refreshToken")
    ensures r.Rejects? ==> r.failure.statusCode.None?
  {
    if refresh == "" then Rejects(Failure("Please Provide a Token", None, Named("Error")))
    else Resolves(("New Access Token Created", "accessToken", "refreshToken"))
  }

  /** The cookie gate of the refresh handlers. */
  function RefreshHandler(access: Option<string>, refresh: Option<string>): (s: Sent<string>)
    ensures s.Silent? <==> Credentials.Given(access) && !Credentials.Given(refresh)
    ensures Credentials.Given(access) == Credentials.Given(refresh) ==>
      s.Error? && s.reply.status == Unauthorized
    ensures !Credentials.Given(access) && Credentials.Given(refresh) ==> s.Json? && s.status == OK
  {
    if !Credentials.Given(access) && !Credentials.Given(refresh) then
      Error(Forward(Raise("Unauthonticated Request", Unauthorized)))
    else if Credentials.Given(access) && Credentials.Given(refresh) then
      Error(Forward(Raise("AccessToken and RefreshToken Already Exist", Unauthorized)))
    else if !Credentials.Given(access) && Credentials.Given(refresh) then
      TokenReply(UpgradeAccessToken(refresh.value))
    else Silent
  }

  /** The refresh reply does not depend on the refresh cookie: every non-empty one gets the
      same placeholder access token. */
  lemma RefreshIgnoresToken(t1: string, t2: string)
    requires t1 != "" && t2 != ""
    ensures RefreshHandler(None, Some(t1)) == RefreshHandler(None, Some(t2))
    ensures RefreshHandler(None, Some(t1)).token == Some("accessToken")
  {
  }

  // ---------------------------------------------------------------- visibility

  /** `req.client?.role ?? ''` */
  function ClientRole(client: Option<Auth.Identity>): (r: string)
    ensures r != "" ==> exists ro :: r == RoleName(ro)
  {
    if client.Some? && client.value.role.Some? then RoleName(client.value.role.value) else ""
  }

  /** `req.client?.role`, as passed to the by-id helpers. */
  function PassedRole(client: Option<Auth.Identity>): (r: Option<string>)
    ensures r.Some? <==> client.Some? && client.value.role.Some?
    ensures r.Some? ==> r.value == ClientRole(client)
  {
    if client.Some? && client.value.role.Some? then Some(RoleName(client.value.role.value)) else None
  }

  const AdminRoleNames: seq<string> := ["SuperAdmin", "DeveloperAdmin", "Admin"]
  const SuperRoleNames: seq<string> := ["SuperAdmin", "DeveloperAdmin"]

  /** Every account status for the privileged role names, only Active otherwise. */
  function AccountStatusFilter(privileged: seq<string>, role: string): (r: seq<AccountStatus>)
    ensures forall s :: s in r <==> role in privileged || s == Active
  {
    if role in privileged then
      assert forall s :: s in AllAccountStatuses by {
        forall s: AccountStatus ensures s in AllAccountStatuses { AllAccountStatusesComplete(s); }
      }
      AllAccountStatuses
    else [Active]
  }

  /** The status list of `getUsers` as written. */
  function UserStatusFilter(role: string): (r: seq<AccountStatus>)
    ensures forall s :: s in r <==> role in ["SuperSample", "DeveloperSample", "Admin"] || s == Active
  {
    AccountStatusFilter(["SuperSample", "DeveloperSample", "Admin"], role)
  }

  /** The status list `getUsers` evidently means: the administrators', as in `getAdmins`. */
  function UserStatusFilterIntended(role: string): (r: seq<AccountStatus>)
    ensures forall s :: s in r <==> role in AdminRoleNames || s == Active
    ensures r == AdminStatusFilter(role)
  {
    AccountStatusFilter(AdminRoleNames, role)
  }

  /** The status list of `getAdmins`. */
  function AdminStatusFilter(role: string): (r: seq<AccountStatus>)
    ensures forall s :: s in r <==> role in AdminRoleNames || s == Active
  {
    AccountStatusFilter(AdminRoleNames, role)
  }

  /** The status list of the four resource list handlers. */
  function ResourceStatusFilter(role: string): (r: seq<Resource.Status>)
    ensures forall s :: s in r <==> role in AdminRoleNames || s == Resource.Active
  {
    var r := if role in AdminRoleNames then [Resource.Active, Resource.Inactive] else [Resource.Active];
    assert forall s :: s in r <==> role in AdminRoleNames || s == Resource.Active by {
      forall s: Resource.Status ensures s in r <==> role in AdminRoleNames || s == Resource.Active {
        if s != Resource.Active { assert s == Resource.Inactive; }
      }
    }
    r
  }

  /** The deleted mode every list handler derives from the role and the `deleted` query. */
  function DeletedMode(role: string, deleted: Option<string>): (m: Deleted)
    ensures role !in SuperRoleNames ==> m == NO
    ensures role in SuperRoleNames ==>
      (m == NO <==> deleted == Some("NO")) && (m == YES <==> deleted == Some("YES"))
  {
    if role in SuperRoleNames && deleted != Some("NO") then
      (if deleted == Some("YES") then YES else BOTH)
    else NO
  }

  /** Of the five roles, only Admin sees every user status as written; SuperAdmin and
      DeveloperAdmin see only Active users. With the administrators' list, all three see
      every status, exactly as they do for admins. */
  lemma {:induction false} UserFilterRoles(r: Role)
    ensures UserStatusFilter(RoleName(r)) == AllAccountStatuses <==> r == Admin
    ensures UserStatusFilter(RoleName(r)) != AllAccountStatuses ==> UserStatusFilter(RoleName(r)) == [Active]
    ensures UserStatusFilterIntended(RoleName(r)) == AllAccountStatuses <==> r in {Admin, SuperAdmin, DeveloperAdmin}
    ensures UserStatusFilterIntended(RoleName(r)) == AdminStatusFilter(RoleName(r))
  {
    assert AllAccountStatuses != [Active];
    RoleNamesAreRoleNames(r);
  }

  /** A caller admitted by any gate carries no role, because the status check's projection
      leaves it out: every list handler then treats it like an anonymous caller, showing
      only Active, live records, and the by-id helpers get no role. */
  lemma {:induction false} GatedCallersListAsAnonymous(policy: Auth.GatePolicy, r: Auth.Request, users: seq<UserModel.Principal>,
                                                       admins: seq<UserModel.Principal>, cfg: Jwt.JwtConfig, now: int,
                                                       decode: string -> Option<Jwt.Token>, deleted: Option<string>)
    requires Auth.Gate(policy, r, users, admins, cfg, now, decode).verdict.Next?
    ensures var c := Some(Auth.Gate(policy, r, users, admins, cfg, now, decode).verdict.identity);
      ClientRole(c) == "" && PassedRole(c).None?
      && UserStatusFilter(ClientRole(c)) == [Active] && AdminStatusFilter(ClientRole(c)) == [Active]
      && ResourceStatusFilter(ClientRole(c)) == [Resource.Active] && DeletedMode(ClientRole(c), deleted) == NO
  {
    var v := Jwt.VerifyToken(Auth.Presented(r), Jwt.AccessToken, cfg, now, decode);
    var claims := v.value;
    var k := Auth.Route(policy, claims.role).value;
    var store := if k == Credentials.UserKind then users else admins;
    var check := Credentials.CheckStatus(k, store, Some(claims.id), [Active], now);
    assert check.result.Resolves?;
    assert check.result.value.role.None?;
    assert Auth.Gate(policy, r, users, admins, cfg, now, decode).verdict.identity.role.None?;
  }

  /** The list handler of a resource kind: the query's statuses and deleted mode come from
      the caller's role. */
  function ListHandler(k: Resource.Kind, store: seq<Resource.Item>, role: string, deleted: Option<string>,
                       timestamp: Option<int>, page: int, limit: int, code: Option<string>,
                       name: Option<string>): (o: Settle<Resource.Page>)
    requires limit > 0 || limit == -1
    ensures o.Rejects? <==> limit > 0 && page < 1
  {
    Resource.List(k, store, Resource.ListQuery(timestamp, page, limit, code, name,
                                               Some(ResourceStatusFilter(role)), DeletedMode(role, deleted)))
  }

  /** Every entry is Active and shown without deletion fields, and is the view of a live,
      Active stored item. */
  predicate ActiveLive(store: seq<Resource.Item>, rs: seq<Resource.Listed>)
  {
    forall j :: 0 <= j < |rs| ==>
      (rs[j].status == Resource.Active && rs[j].deletion.None?
       && exists n :: 0 <= n < |store| && store[n].id == rs[j].id && !store[n].isDeleted && store[n].status == Resource.Active)
  }

  /** A caller without an administrator role lists only Active, live items, without their
      deletion fields, whatever `deleted` asks for. */
  lemma {:induction false} OthersListOnlyActiveLive(k: Resource.Kind, store: seq<Resource.Item>, role: string,
                                                    deleted: Option<string>, timestamp: Option<int>, page: int,
                                                    limit: int, code: Option<string>, name: Option<string>)
    requires limit > 0 || limit == -1
    requires role !in AdminRoleNames
    requires ListHandler(k, store, role, deleted, timestamp, page, limit, code, name).Resolves?
    ensures ActiveLive(store, ListHandler(k, store, role, deleted, timestamp, page, limit, code, name).value.results)
  {
    var q := Resource.ListQuery(timestamp, page, limit, code, name, Some(ResourceStatusFilter(role)), DeletedMode(role, deleted));
    assert q.deleted == NO && q.statuses == Some([Resource.Active]);
    assert ListHandler(k, store, role, deleted, timestamp, page, limit, code, name) == Resource.List(k, store, q);
    var rs := Resource.List(k, store, q).value.results;
    Resource.ListedAreStored(k, store, q);
    ActiveLiveEntries(store, q, rs);
    assert rs == ListHandler(k, store, role, deleted, timestamp, page, limit, code, name).value.results;
  }

  /** Entries drawn for a query of live, Active items are live and Active in the store. */
  lemma {:induction false} ActiveLiveEntries(store: seq<Resource.Item>, q: Resource.ListQuery, rs: seq<Resource.Listed>)
    requires q.deleted == NO && q.statuses == Some([Resource.Active])
    requires Resource.FromStore(store, q, rs)
    ensures ActiveLive(store, rs)
  {
    forall j | 0 <= j < |rs|
      ensures rs[j].status == Resource.Active && rs[j].deletion.None?
      ensures exists n :: 0 <= n < |store| && store[n].id == rs[j].id && !store[n].isDeleted && store[n].status == Resource.Active
    {
      assert Resource.Drawn(store, q, rs[j]);
      var x :| x in store && Resource.Matches(q, x) && rs[j] == Resource.View(x, q.deleted);
      var n :| 0 <= n < |store| && store[n] == x;
    }
  }

  /** `getCategoryById` and its siblings receive the caller's role unchanged. */
  function GetByIdHandler(k: Resource.Kind, store: seq<Resource.Item>, client: Option<Auth.Identity>,
                          id: Option<string>): (o: Settle<Resource.Listed>)
    ensures o.Resolves? ==> (o.value.deletion.Some? <==> Resource.RoleOrEmpty(PassedRole(client)) in Resource.PrivilegedById(k))
  {
    Resource.GetById(k, store, id, PassedRole(client))
  }

  // ---------------------------------------------------------------- forwarded failures

  /** Adding a resource under a taken name fails without a status, so the client sees a
      500 carrying the helper's message. */
  lemma {:induction false} DuplicateNameReply(k: Resource.Kind, store: seq<Resource.Item>, name: string, id: string, now: int)
    requires name != "" && Resource.FindByName(store, name).Some?
    ensures var o := Resource.Add(k, store, Some(name), id, now);
      o.result.Rejects? && Forward(o.result.failure) == ErrorHandler.HttpReply(InternalServer, false, "Name already exist")
  {
  }

  /** When the newest artist's code has no number, the next added artist collides with it on
      the unique code, and the client sees the duplicate-value 400. */
  lemma {:induction false} CodeCollisionReply(store: seq<Resource.Item>, name: string, id: string, now: int)
    requires |store| > 0 && store[|store| - 1].code == Some("SPLENaN")
    requires name != "" && Resource.FindByName(store, name).None?
    ensures var o := Resource.Add(Resource.Artist, store, Some(name), id, now);
      o.result.Rejects? && Forward(o.result.failure) == ErrorHandler.HttpReply(BadRequest, false, "Duplicate Field Value Enter")
  {
    assert CodeGen.ArtistPrefix + "NaN" == "SPLENaN";
    Resource.NaNCodesCollide(store, name, id, now);
  }

  /** A reset link whose token has expired reaches the client as the expired-link 400. */
  lemma {:induction false} ExpiredResetLinkReply(k: Credentials.Kind, store: seq<UserModel.Principal>, token: string,
                                                 password: string, cfg: Jwt.JwtConfig, now: int,
                                                 decode: string -> Option<Jwt.Token>, salt: nat)
    requires UserModel.AllSettled(store) && token != "" && password != ""
    requires var v := Jwt.VerifyToken(token, Jwt.ResetToken, cfg, now, decode);
      v.Rejects? && v.failure.code == Named("TokenExpiredError")
    ensures var o := Credentials.Reset(k, store, Some(token), Some(password), cfg, now, decode, salt);
      o.store == store && o.result.Rejects?
      && Forward(o.result.failure) == ErrorHandler.HttpReply(BadRequest, false, "Your link expired so resent ur link")
  {
    var o := Credentials.Reset(k, store, Some(token), Some(password), cfg, now, decode, salt);
    assert o.result.failure.code == Named("TokenExpiredError");
  }
}
