/** The credential and session helpers, shared by users and admins (the two helper files
    differ only in the noun their messages use): login, status change, password change,
    the forgot/reset flow, the status check the authorization gates call, lookup by id,
    and the soft-delete, restore and permanent-delete transitions. Each returns the
    collection it leaves behind and the settled promise. */
module Credentials {
  import opened Base
  import opened Types
  import opened Numbers
  import opened Crypto
  import opened Jwt
  import opened UserModel

  datatype Kind = UserKind | AdminKind

  function Noun(k: Kind): string
  {
    if k == UserKind then "User" else "Admin"
  }

  function Lower(k: Kind): string
  {
    if k == UserKind then "user" else "admin"
  }

  /** A request value is truthy: present and not the empty string. */
  predicate Given(v: Option<string>)
  {
    v.Some? && v.value != ""
  }

  datatype Outcome<T> = Outcome(store: seq<Principal>, result: Settle<T>)

  /** A helper's answer: its message and, for some helpers, the saved record. */
  datatype Reply = Reply(message: string, record: Option<Principal>)

  /** The catch block with the helper's fallback message. */
  function Fail<T>(store: seq<Principal>, f: Failure, fallback: string): (o: Outcome<T>)
    requires fallback != ""
    ensures o.store == store && o.result.Rejects?
    ensures o.result.failure.message != "" && o.result.failure.statusCode.Some?
  {
    Outcome(store, Rejects(Caught(f, fallback)))
  }

  /** The catch block of the login helper, which reads the error's class name as well. */
  function FailNamed<T>(store: seq<Principal>, f: Failure, name: string, fallback: string): (o: Outcome<T>)
    requires fallback != ""
    ensures o.store == store && o.result.Rejects?
    ensures f.code == NoCode && name != "" ==> o.result.failure.code == Named(name)
  {
    Outcome(store, Rejects(CaughtNamed(f, name, fallback)))
  }

  // ---------------------------------------------------------------- login

  /** `Login Success` with both tokens. */
  datatype Session = Session(message: string, accessToken: Token, refreshToken: Token)

  /** The identifier a login message names: the email if given, else the phone, else the username. */
  function Ident(email: Option<string>, phone: Option<string>): string
  {
    if Given(email) then "Email" else if Given(phone) then "Phone" else "Username"
  }

  /** The identifier the wrong-password message names: the user helper uses `Ident`, the
      admin helper names the phone whenever no email is given. */
  function WrongPasswordIdent(k: Kind, email: Option<string>, phone: Option<string>): string
  {
    if k == UserKind then Ident(email, phone) else if !Given(email) then "Phone" else "Email"
  }

  predicate LoginInputValid(username: Option<string>, email: Option<string>, phone: Option<string>, password: Option<string>)
  {
    (Given(username) || Given(email) || Given(phone))
    && !(Given(phone) && !IsNumeric(phone.value))
    && Given(password)
  }

  /** The `$or` lookup: a document matches on any identifier that was sent. Username and
      email are compared after the schema's `trim` and `lowercase` setters. */
  predicate MatchesIdentifier(p: Principal, username: Option<string>, email: Option<string>, phone: Option<string>)
  {
    (username.Some? && TextMatches(p.username, username.value)) || (email.Some? && TextMatches(p.email, email.value))
    || (phone.Some? && PhoneMatches(p, phone.value))
  }

  function LoginTarget(store: seq<Principal>, username: Option<string>, email: Option<string>, phone: Option<string>): (r: Option<nat>)
    ensures r.Some? ==> r.value < |store| && MatchesIdentifier(store[r.value], username, email, phone)
    ensures r.None? ==> forall j :: 0 <= j < |store| ==> !MatchesIdentifier(store[j], username, email, phone)
  {
    FindFirst(store, (p: Principal) => MatchesIdentifier(p, username, email, phone))
  }

  /** The record a successful login saves. `clearsFlag` tells whether `passwordChanged`
      is reset: the lookup does not select that field, so as written the helper reads it
      as unset and leaves it alone. */
  function LoggedIn(p: Principal, clearsFlag: bool, now: int): (r: Principal)
    ensures r.status == (if p.status == Inactive then Active else p.status)
    ensures r.passwordChanged == (p.passwordChanged && !clearsFlag)
    ensures r.lastSync == now && r.lastUsed == now
    ensures r.(status := p.status, passwordChanged := p.passwordChanged, lastSync := p.lastSync, lastUsed := p.lastUsed) == p
  {
    p.(status := if p.status == Inactive then Active else p.status,
       passwordChanged := if clearsFlag then false else p.passwordChanged,
       lastSync := now, lastUsed := now)
  }

  function LoginWith(clearsFlag: bool, k: Kind, store: seq<Principal>, username: Option<string>, email: Option<string>,
                     phone: Option<string>, password: Option<string>, cfg: JwtConfig, now: int): (o: Outcome<Session>)
  {
    LoginDecide(clearsFlag, k, store, LoginInputValid(username, email, phone, password), Ident(email, phone),
                WrongPasswordIdent(k, email, phone), LoginTarget(store, username, email, phone), password, cfg, now)
  }

  /** The login's steps once the request has been read: whether it is complete, the
      identifier its messages name and the record the lookup found. */
  function LoginDecide(clearsFlag: bool, k: Kind, store: seq<Principal>, valid: bool, ident: string, wrongIdent: string,
                       target: Option<nat>, password: Option<string>, cfg: JwtConfig, now: int): (o: Outcome<Session>)
    requires valid ==> password.Some?
    requires target.Some? ==> target.value < |store|
    ensures o.result.Resolves? ==>
      valid && target.Some? && o.store == Put(store, LoggedIn(store[target.value], clearsFlag, now))
  {
    var fallback := Noun(k) + " login failed";
    if !valid then
      FailNamed(store, Raise("Provide " + ident + " and password", BadRequest), ThrowErrorName, fallback)
    else match target
      case None => FailNamed(store, Raise("Invalid " + ident + " or Password", Unauthorized), ThrowErrorName, fallback)
      case Some(i) =>
        var p := store[i];
        if p.status == Blocked then
          FailNamed(store, Raise("Account blocked! contact Customer Care", Unauthorized), ThrowErrorName, fallback)
        else if !MatchPasswords(p, password.value) then
          FailNamed(store, Raise("Invalid " + wrongIdent + " or Password", Unauthorized), ThrowErrorName, fallback)
        else
          var saved := Put(store, LoggedIn(p, clearsFlag, now));
          var access := GenerateToken(Meta(p.id, p.name, RoleName(p.role), AccessToken), cfg, now);
          var refresh := GenerateToken(Meta(p.id, p.name, RoleName(p.role), RefreshToken), cfg, now);
          if access.Rejects? then FailNamed(saved, access.failure, "", fallback)
          else if refresh.Rejects? then FailNamed(saved, refresh.failure, "", fallback)
          else Outcome(saved, Resolves(Session("Login Success", access.value, refresh.value)))
  }

  /** `userLogin` / `adminLogin` as written. */
  function Login(k: Kind, store: seq<Principal>, username: Option<string>, email: Option<string>,
                 phone: Option<string>, password: Option<string>, cfg: JwtConfig, now: int): (o: Outcome<Session>)
    ensures !LoginInputValid(username, email, phone, password) ==>
      o == Outcome(store, Rejects(Thrown("Provide " + Ident(email, phone) + " and password", BadRequest)))
    ensures o.result.Resolves? <==>
      LoginInputValid(username, email, phone, password) && LoginTarget(store, username, email, phone).Some?
      && store[LoginTarget(store, username, email, phone).value].status != Blocked
      && MatchPasswords(store[LoginTarget(store, username, email, phone).value], password.value)
      && SigningSecret(cfg, AccessToken) != "" && Ttl(cfg, AccessToken).Seconds?
      && SigningSecret(cfg, RefreshToken) != "" && Ttl(cfg, RefreshToken).Seconds?
    ensures !o.result.NeverSettles?
  {
    LoginWith(false, k, store, username, email, phone, password, cfg, now)
  }

  /** Login with the flag cleared, as the helper evidently means to. */
  function LoginIntended(k: Kind, store: seq<Principal>, username: Option<string>, email: Option<string>,
                         phone: Option<string>, password: Option<string>, cfg: JwtConfig, now: int): (o: Outcome<Session>)
    ensures o.result.Resolves? ==> LoginTarget(store, username, email, phone).Some?
    ensures o.result.Resolves? ==> var i := LoginTarget(store, username, email, phone).value;
      o.store == Put(store, LoggedIn(store[i], true, now)) && !o.store[i].passwordChanged
  {
    LoginWith(true, k, store, username, email, phone, password, cfg, now)
  }

  /** The phone is read as a number: two non-empty phone texts that `Number` reads alike
      give the same login, " 9876543210" included. */
  lemma LoginReadsPhoneAsNumber(k: Kind, store: seq<Principal>, username: Option<string>, email: Option<string>,
                                phone: string, other: string, password: Option<string>, cfg: JwtConfig, now: int)
    requires phone != "" && other != "" && ToNumber(phone) == ToNumber(other)
    ensures Login(k, store, username, email, Some(phone), password, cfg, now)
         == Login(k, store, username, email, Some(other), password, cfg, now)
  {
    LoginWithReadsPhone(false, k, store, username, email, phone, other, password, cfg, now);
  }

  lemma LoginWithReadsPhone(clearsFlag: bool, k: Kind, store: seq<Principal>, username: Option<string>, email: Option<string>,
                            phone: string, other: string, password: Option<string>, cfg: JwtConfig, now: int)
    requires phone != "" && other != "" && ToNumber(phone) == ToNumber(other)
    ensures LoginWith(clearsFlag, k, store, username, email, Some(phone), password, cfg, now)
         == LoginWith(clearsFlag, k, store, username, email, Some(other), password, cfg, now)
  {
    PhoneTargetsAlike(store, username, email, phone, other);
    assert LoginInputValid(username, email, Some(phone), password) == LoginInputValid(username, email, Some(other), password);
    assert Ident(email, Some(phone)) == Ident(email, Some(other));
    assert WrongPasswordIdent(k, email, Some(phone)) == WrongPasswordIdent(k, email, Some(other));
  }

  /** Phone texts that `Number` reads alike select the same record. */
  lemma PhoneTargetsAlike(store: seq<Principal>, username: Option<string>, email: Option<string>, phone: string, other: string)
    requires phone != "" && other != "" && ToNumber(phone) == ToNumber(other)
    ensures LoginTarget(store, username, email, Some(phone)) == LoginTarget(store, username, email, Some(other))
  {
    FindFirstSame(store, (p: Principal) => MatchesIdentifier(p, username, email, Some(phone)),
                  (p: Principal) => MatchesIdentifier(p, username, email, Some(other)));
  }

  /** Two request values for a string path are read alike: both absent, or both present,
      equally empty and equal once folded. */
  predicate ReadAlike(a: Option<string>, b: Option<string>)
  {
    (a.None? && b.None?) || (a.Some? && b.Some? && (a.value == "") == (b.value == "") && Fold(a.value) == Fold(b.value))
  }

  /** Username and email are read through the schema's setters: request texts that differ
      only in case or surrounding white space give the same login. */
  lemma LoginFoldsIdentifiers(k: Kind, store: seq<Principal>, username: Option<string>, otherUsername: Option<string>,
                              email: Option<string>, otherEmail: Option<string>, phone: Option<string>,
                              password: Option<string>, cfg: JwtConfig, now: int)
    requires ReadAlike(username, otherUsername) && ReadAlike(email, otherEmail)
    ensures Login(k, store, username, email, phone, password, cfg, now)
         == Login(k, store, otherUsername, otherEmail, phone, password, cfg, now)
  {
    IdentifierTargetsAlike(store, username, otherUsername, email, otherEmail, phone);
    assert LoginInputValid(username, email, phone, password) == LoginInputValid(otherUsername, otherEmail, phone, password);
    assert Ident(email, phone) == Ident(otherEmail, phone);
    assert WrongPasswordIdent(k, email, phone) == WrongPasswordIdent(k, otherEmail, phone);
  }

  lemma IdentifierTargetsAlike(store: seq<Principal>, username: Option<string>, otherUsername: Option<string>,
                               email: Option<string>, otherEmail: Option<string>, phone: Option<string>)
    requires ReadAlike(username, otherUsername) && ReadAlike(email, otherEmail)
    ensures LoginTarget(store, username, email, phone) == LoginTarget(store, otherUsername, otherEmail, phone)
  {
    FindFirstSame(store, (p: Principal) => MatchesIdentifier(p, username, email, phone),
                  (p: Principal) => MatchesIdentifier(p, otherUsername, otherEmail, phone));
  }

  /** A Blocked account is refused before its password is looked at. */
  lemma BlockedBeforePassword(k: Kind, store: seq<Principal>, username: Option<string>, email: Option<string>,
                              phone: Option<string>, password: Option<string>, cfg: JwtConfig, now: int)
    requires LoginInputValid(username, email, phone, password)
    requires LoginTarget(store, username, email, phone).Some?
    requires store[LoginTarget(store, username, email, phone).value].status == Blocked
    ensures Login(k, store, username, email, phone, password, cfg, now)
         == Outcome(store, Rejects(Thrown("Account blocked! contact Customer Care", Unauthorized)))
  {
  }

  /** An unknown identifier and a wrong password are both 401; the admin helper's
      wrong-password message never names the username. */
  lemma LoginRefusals(k: Kind, store: seq<Principal>, username: Option<string>, email: Option<string>,
                      phone: Option<string>, password: Option<string>, cfg: JwtConfig, now: int)
    requires LoginInputValid(username, email, phone, password)
    ensures var o := Login(k, store, username, email, phone, password, cfg, now);
      LoginTarget(store, username, email, phone).None? ==>
        o == Outcome(store, Rejects(Thrown("Invalid " + Ident(email, phone) + " or Password", Unauthorized)))
    ensures var o := Login(k, store, username, email, phone, password, cfg, now);
      var t := LoginTarget(store, username, email, phone);
      t.Some? && store[t.value].status != Blocked && !MatchPasswords(store[t.value], password.value) ==>
        o == Outcome(store, Rejects(Thrown("Invalid " + WrongPasswordIdent(k, email, phone) + " or Password", Unauthorized)))
    ensures k == AdminKind ==> WrongPasswordIdent(k, email, phone) != "Username"
  {
  }

  /** A successful login promotes Inactive to Active, stamps both times and, as written,
      leaves `passwordChanged` as it was; nothing else in the collection changes. It
      does not look at `isDeleted`: a soft-deleted account logs in like any other. */
  lemma {:induction false} LoginSuccess(k: Kind, store: seq<Principal>, username: Option<string>, email: Option<string>,
                                        phone: Option<string>, password: Option<string>, cfg: JwtConfig, now: int)
    requires Login(k, store, username, email, phone, password, cfg, now).result.Resolves?
    ensures var o := Login(k, store, username, email, phone, password, cfg, now);
      var i := LoginTarget(store, username, email, phone).value;
      o.store == Put(store, LoggedIn(store[i], false, now))
      && o.result.value.accessToken == GenerateToken(Meta(store[i].id, store[i].name, RoleName(store[i].role), AccessToken), cfg, now).value
      && o.result.value.refreshToken == GenerateToken(Meta(store[i].id, store[i].name, RoleName(store[i].role), RefreshToken), cfg, now).value
      && o.store[i].passwordChanged == store[i].passwordChanged
      && o.store[i].isDeleted == store[i].isDeleted
  {
  }

  /** A soft-deleted account with the right password and a working configuration logs in. */
  lemma DeletedAccountLogsIn(k: Kind, store: seq<Principal>, username: Option<string>, email: Option<string>,
                             phone: Option<string>, password: Option<string>, now: int)
    requires LoginInputValid(username, email, phone, password)
    requires LoginTarget(store, username, email, phone).Some?
    requires var p := store[LoginTarget(store, username, email, phone).value];
      p.isDeleted && p.status != Blocked && MatchPasswords(p, password.value)
    ensures Login(k, store, username, email, phone, password, DefaultConfig(), now).result.Resolves?
  {
    DefaultConfigValues();
  }

  // ---------------------------------------------------------------- status

  const ChangeableStatuses := ["Active", "Inactive", "Blocked"]

  function FindById(store: seq<Principal>, id: string): (r: Option<nat>)
    ensures r.Some? ==> r.value < |store| && store[r.value].id == id
    ensures r.None? ==> forall j :: 0 <= j < |store| ==> store[j].id != id
  {
    FindFirst(store, (p: Principal) => p.id == id)
  }

  predicate ValidId(id: Option<string>)
  {
    Given(id) && ValidObjectId(id.value)
  }

  /** `changeUserStatus` / `changeAdminStatus`: only Active, Inactive and Blocked can be set. */
  function ChangeStatus(k: Kind, store: seq<Principal>, id: Option<string>, status: string): (o: Outcome<Reply>)
    ensures status !in ChangeableStatuses ==>
      o == Outcome(store, Rejects(Raise("Provide vaild " + Lower(k) + " id and status", BadRequest)))
    ensures o.result.Resolves? <==> ValidId(id) && status in ChangeableStatuses && FindById(store, id.value).Some?
    ensures o.result.Resolves? ==> var i := FindById(store, id.value).value;
      o.store == Put(store, store[i].(status := ParseAccountStatus(status).value))
      && AccountStatusName(o.store[i].status) == status
      && o.result.value.message == store[i].name + " status changed to " + status
    ensures !o.result.Resolves? ==> o.store == store
  {
    var fallback := "Status changing failed";
    if !ValidId(id) || status !in ChangeableStatuses then
      Fail(store, Raise("Provide vaild " + Lower(k) + " id and status", BadRequest), fallback)
    else match FindById(store, id.value)
      case None => Fail(store, Raise(Noun(k) + " not found", NotFound), fallback)
      case Some(i) =>
        var s := ParseAccountStatus(status).value;
        var p := store[i].(status := s);
        Outcome(Put(store, p), Resolves(Reply(p.name + " status changed to " + AccountStatusName(s), Some(p))))
  }

  /** Changing a record's status and then changing it back to its former status gives the
      collection back, when the former status is one the helper accepts. */
  lemma {:induction false} ChangeStatusBack(k: Kind, store: seq<Principal>, id: Option<string>, status: string)
    requires UniqueIds(store)
    requires ChangeStatus(k, store, id, status).result.Resolves?
    requires AccountStatusName(store[FindById(store, id.value).value].status) in ChangeableStatuses
    ensures var i := FindById(store, id.value).value;
      var once := ChangeStatus(k, store, id, status).store;
      ChangeStatus(k, once, id, AccountStatusName(store[i].status)).store == store
  {
    var i := FindById(store, id.value).value;
    var once := ChangeStatus(k, store, id, status).store;
    var before := AccountStatusName(store[i].status);
    PutAt(store, i, store[i].(status := ParseAccountStatus(status).value));
    assert FindById(once, id.value) == Some(i) by {
      FindByIdUnique(once, i);
    }
    var twice := ChangeStatus(k, once, id, before).store;
    assert ParseAccountStatus(before) == Some(store[i].status);
    PutAt(once, i, once[i].(status := store[i].status));
    assert twice == store;
  }

  /** With unique ids, the record at `i` is the one found by its id. */
  lemma FindByIdUnique(store: seq<Principal>, i: nat)
    requires UniqueIds(store) && i < |store|
    ensures FindById(store, store[i].id) == Some(i)
  {
  }

  // ---------------------------------------------------------------- password

  function MissingPasswordField(k: Kind, id: Option<string>, current: Option<string>, next: Option<string>): string
  {
    if !Given(next) then "Provide new password"
    else if !Given(current) then "Provide current password"
    else if !Given(id) then "Provide " + Lower(k) + "Id"
    else Noun(k) + "Id not Valid"
  }

  /** `changeUserPassword` / `changeAdminPassword`: missing fields are 400; then the current
      password must match (401), and only then is it compared with the new one (400). */
  function ChangePasswordOf(k: Kind, store: seq<Principal>, id: Option<string>, current: Option<string>,
                            next: Option<string>, now: int, salt: nat): (o: Outcome<Reply>)
    requires AllSettled(store)
    ensures !ValidId(id) || !Given(next) || !Given(current) ==>
      o == Outcome(store, Rejects(Raise(MissingPasswordField(k, id, current, next), BadRequest)))
    ensures o.result.Resolves? <==>
      ValidId(id) && Given(next) && Given(current) && FindById(store, id.value).Some?
      && MatchPasswords(store[FindById(store, id.value).value], current.value) && current.value != next.value
    ensures o.result.Resolves? ==> var i := FindById(store, id.value).value;
      o.store == Put(store, ChangePassword(store[i], next.value, now, salt))
      && (forall q :: MatchPasswords(o.store[i], q) <==> q == next.value)
    ensures !o.result.Resolves? ==> o.store == store
  {
    var fallback := "Password changing failed";
    if !ValidId(id) || !Given(next) || !Given(current) then
      Fail(store, Raise(MissingPasswordField(k, id, current, next), BadRequest), fallback)
    else match FindById(store, id.value)
      case None => Fail(store, Raise(Noun(k) + " not found", BadRequest), fallback)
      case Some(i) =>
        if !MatchPasswords(store[i], current.value) then
          Fail(store, Raise("Current Password does not match", Unauthorized), fallback)
        else if current.value == next.value then
          Fail(store, Raise("Current and New password does not be same", BadRequest), fallback)
        else
          Outcome(Put(store, ChangePassword(store[i], next.value, now, salt)), Resolves(Reply("Password changed successfully", None)))
  }

  /** The mismatch check comes first: a wrong current password is 401 even when it equals
      the new one. */
  lemma WrongCurrentBeforeSame(k: Kind, store: seq<Principal>, id: Option<string>, pw: string, now: int, salt: nat)
    requires AllSettled(store)
    requires ValidId(id) && pw != "" && FindById(store, id.value).Some?
    requires !MatchPasswords(store[FindById(store, id.value).value], pw)
    ensures ChangePasswordOf(k, store, id, Some(pw), Some(pw), now, salt)
         == Outcome(store, Rejects(Raise("Current Password does not match", Unauthorized)))
  {
  }

  // ---------------------------------------------------------------- forgot / reset

  const ForgotMessage := "If your email exist,then the Password reset link will be sent to your email"

  /** The forgot call also yields the reset token it prints (the mail is not sent). */
  datatype ForgotOutcome = ForgotOutcome(store: seq<Principal>, result: Settle<Reply>, link: Option<Token>)

  /** The lookup by email, through the schema's setters. */
  function FindByEmail(store: seq<Principal>, email: string): (r: Option<nat>)
    ensures r.Some? ==> r.value < |store| && TextMatches(store[r.value].email, email)
    ensures r.None? ==> forall j :: 0 <= j < |store| ==> !TextMatches(store[j].email, email)
  {
    FindFirst(store, (p: Principal) => TextMatches(p.email, email))
  }

  /** `forgotUserPassword` / `forgotAdminPassword`. The lookup does not select the role,
      so the reset token is issued with an empty role. */
  function Forgot(k: Kind, store: seq<Principal>, email: Option<string>, cfg: JwtConfig, now: int): (o: ForgotOutcome)
    ensures !Given(email) ==> o.result == Rejects(Raise("Please Provide Email", BadRequest)) && o.store == store
    ensures Given(email) && FindByEmail(store, email.value).None? ==>
      o == ForgotOutcome(store, Resolves(Reply(ForgotMessage, None)), None)
    ensures Given(email) && FindByEmail(store, email.value).Some? ==> var i := FindByEmail(store, email.value).value;
      o.store == Put(store, store[i].(resetPasswordAccess := true))
      && (o.result.Resolves? <==> SigningSecret(cfg, ResetToken) != "" && Ttl(cfg, ResetToken).Seconds?)
      && (o.result.Resolves? ==>
            o.result.value.message == ForgotMessage
            && o.link == Some(GenerateToken(Meta(store[i].id, store[i].name, "", ResetToken), cfg, now).value))
  {
    var fallback := "Forget password failed";
    if !Given(email) then
      var f := Fail<Reply>(store, Raise("Please Provide Email", BadRequest), fallback);
      ForgotOutcome(f.store, f.result, None)
    else match FindByEmail(store, email.value)
      case None => ForgotOutcome(store, Resolves(Reply(ForgotMessage, None)), None)
      case Some(i) =>
        var p := store[i];
        var saved := Put(store, p.(resetPasswordAccess := true));
        var token := GenerateToken(Meta(p.id, p.name, "", ResetToken), cfg, now);
        if token.Rejects? then ForgotOutcome(saved, Rejects(Caught(token.failure, fallback)), None)
        else ForgotOutcome(saved, Resolves(Reply(ForgotMessage, None)), Some(token.value))
  }

  /** An email that differs only in case or surrounding white space gives the same
      forgot-password outcome and the same link. */
  lemma ForgotFoldsEmail(k: Kind, store: seq<Principal>, email: Option<string>, other: Option<string>,
                         cfg: JwtConfig, now: int)
    requires ReadAlike(email, other)
    ensures Forgot(k, store, email, cfg, now) == Forgot(k, store, other, cfg, now)
  {
    if email.Some? {
      EmailTargetsAlike(store, email.value, other.value);
    }
  }

  lemma EmailTargetsAlike(store: seq<Principal>, email: string, other: string)
    requires Fold(email) == Fold(other)
    ensures FindByEmail(store, email) == FindByEmail(store, other)
  {
    FindFirstSame(store, (p: Principal) => TextMatches(p.email, email), (p: Principal) => TextMatches(p.email, other));
  }

  function FindResettable(store: seq<Principal>, id: string): (r: Option<nat>)
    ensures r.Some? ==> r.value < |store| && store[r.value].id == id && store[r.value].resetPasswordAccess
    ensures r.None? ==> forall j :: 0 <= j < |store| ==> !(store[j].id == id && store[j].resetPasswordAccess)
  {
    FindFirst(store, (p: Principal) => p.id == id && p.resetPasswordAccess)
  }

  /** The record a successful reset saves: the new password hashed, the permission withdrawn. */
  function ResetDone(p: Principal, password: string, salt: nat): (r: Principal)
    requires Settled(p)
    ensures forall q :: MatchPasswords(r, q) <==> q == password
    ensures !r.resetPasswordAccess
    ensures r.(password := p.password, resetPasswordAccess := p.resetPasswordAccess) == p
  {
    Stored(p.(password := Plain(password), resetPasswordAccess := false), salt)
  }

  /** How the reset lookup's `resetPasswordAccess: true` condition meets the stored
      records. `Held`: the field is stored and the condition kept, as the helpers intend.
      The user schema does not declare the field, so a save drops it: `Stripped` is a
      query that drops the undeclared condition too (`strictQuery` on), `Unheld` one that
      keeps it, which no stored record can meet (`strictQuery` off). */
  datatype PermissionField = Held | Stripped | Unheld

  /** The record the reset lookup finds for `id`. */
  function ResettableUnder(field: PermissionField, store: seq<Principal>, id: string): (r: Option<nat>)
    ensures r.Some? ==> r.value < |store| && store[r.value].id == id
    ensures field == Held ==> r == FindResettable(store, id)
    ensures field == Unheld ==> r.None?
    ensures field == Stripped ==> r == FindById(store, id)
  {
    match field
    case Held => FindResettable(store, id)
    case Stripped => FindById(store, id)
    case Unheld => None
  }

  /** The record a successful reset saves under each reading: a save that drops the
      permission field leaves it as it was. */
  function SavedAfterReset(field: PermissionField, p: Principal, password: string, salt: nat): (r: Principal)
    requires Settled(p)
    ensures forall q :: MatchPasswords(r, q) <==> q == password
    ensures field == Held ==> r == ResetDone(p, password, salt)
    ensures field != Held ==> r == ResetDone(p, password, salt).(resetPasswordAccess := p.resetPasswordAccess)
  {
    var done := ResetDone(p, password, salt);
    if field == Held then done else done.(resetPasswordAccess := p.resetPasswordAccess)
  }

  /** The reset flow under a reading of the permission field. */
  function ResetWith(field: PermissionField, store: seq<Principal>, token: Option<string>, password: Option<string>,
                     cfg: JwtConfig, now: int, decode: string -> Option<Token>, salt: nat): (o: Outcome<Reply>)
    requires AllSettled(store)
    ensures !o.result.Resolves? ==> o.store == store
  {
    var fallback := "Password regeneration failed";
    if !Given(token) || !Given(password) then
      Fail(store, Raise("Please Provide Token and Password", BadRequest), fallback)
    else match VerifyToken(token.value, ResetToken, cfg, now, decode)
      case NeverSettles => Outcome(store, NeverSettles)
      case Rejects(f) => Fail(store, f, fallback)
      case Resolves(claims) =>
        if claims.id == "" then Fail(store, Raise("Incorrect Credentials", Unauthorized), fallback)
        else match ResettableUnder(field, store, claims.id)
          case None => Fail(store, Raise("Reset Password Permission Denied", Unauthorized), fallback)
          case Some(i) =>
            if MatchPasswords(store[i], password.value) then
              Fail(store, Raise("New Pasword and Old Password is Same", BadRequest), fallback)
            else Outcome(Put(store, SavedAfterReset(field, store[i], password.value, salt)),
                         Resolves(Reply("Password Reset Successfully", None)))
  }

  /** `resetUserPassword` / `resetAdminPassword` with the permission stored, as the helpers
      intend: the link must verify as a reset token, name an id, and belong to a record
      whose reset permission is set; the new password must differ from the stored one. */
  function Reset(k: Kind, store: seq<Principal>, token: Option<string>, password: Option<string>, cfg: JwtConfig,
                 now: int, decode: string -> Option<Token>, salt: nat): (o: Outcome<Reply>)
    requires AllSettled(store)
    ensures !o.result.Resolves? ==> o.store == store
    ensures AllSettled(o.store)
    ensures o.result.Resolves? <==>
      Given(token) && Given(password) && VerifyToken(token.value, ResetToken, cfg, now, decode).Resolves?
      && var id := VerifyToken(token.value, ResetToken, cfg, now, decode).value.id;
         id != "" && FindResettable(store, id).Some? && !MatchPasswords(store[FindResettable(store, id).value], password.value)
    ensures o.result.Resolves? ==>
      var i := FindResettable(store, VerifyToken(token.value, ResetToken, cfg, now, decode).value.id).value;
      o.store == Put(store, ResetDone(store[i], password.value, salt))
      && o.result.value == Reply("Password Reset Successfully", None)
    ensures Given(token) && Given(password) && VerifyToken(token.value, ResetToken, cfg, now, decode).Rejects? ==>
      o.result.Rejects? && o.result.failure.code == VerifyToken(token.value, ResetToken, cfg, now, decode).failure.code
  {
    ResetWith(Held, store, token, password, cfg, now, decode, salt)
  }

  /** The reset flow as the helpers run against the user schema, which does not declare
      the permission field: `strictQuery` tells whether the lookup drops its condition. */
  function ResetAsWritten(strictQuery: bool, k: Kind, store: seq<Principal>, token: Option<string>,
                          password: Option<string>, cfg: JwtConfig, now: int, decode: string -> Option<Token>,
                          salt: nat): (o: Outcome<Reply>)
    requires AllSettled(store)
    ensures !o.result.Resolves? ==> o.store == store
    ensures o.result.Resolves? ==> strictQuery
  {
    ResetWith(if strictQuery then Stripped else Unheld, store, token, password, cfg, now, decode, salt)
  }

  /** Forgot-password as the helpers run against the user schema: the save drops the
      permission, so only the link is issued and the collection is unchanged. */
  function ForgotAsWritten(k: Kind, store: seq<Principal>, email: Option<string>, cfg: JwtConfig, now: int): (o: ForgotOutcome)
    ensures o.store == store
    ensures o.result == Forgot(k, store, email, cfg, now).result && o.link == Forgot(k, store, email, cfg, now).link
  {
    var f := Forgot(k, store, email, cfg, now);
    ForgotOutcome(store, f.result, f.link)
  }

  /** With `strictQuery` on, a verified reset link resets any record it names, with or
      without the permission, and the same link resets it again to another password:
      nothing withdraws it before it expires. */
  lemma {:induction false} ReplayedLinkResetsAgain(k: Kind, store: seq<Principal>, i: nat, text: string,
                                                   first: string, second: string, cfg: JwtConfig, now: int,
                                                   decode: string -> Option<Token>, salt: nat)
    requires AllSettled(store) && UniqueIds(store) && i < |store|
    requires text != "" && first != "" && second != "" && first != second && store[i].id != ""
    requires VerifyToken(text, ResetToken, cfg, now, decode).Resolves?
    requires VerifyToken(text, ResetToken, cfg, now, decode).value.id == store[i].id
    requires !MatchPasswords(store[i], first)
    ensures var r := ResetAsWritten(true, k, store, Some(text), Some(first), cfg, now, decode, salt);
      r.result == Resolves(Reply("Password Reset Successfully", None))
      && r.store[i].resetPasswordAccess == store[i].resetPasswordAccess
      && ResetAsWritten(true, k, r.store, Some(text), Some(second), cfg, now, decode, salt).result
         == Resolves(Reply("Password Reset Successfully", None))
  {
    FindByIdUnique(store, i);
    var saved := SavedAfterReset(Stripped, store[i], first, salt);
    var r := ResetAsWritten(true, k, store, Some(text), Some(first), cfg, now, decode, salt);
    assert r.store == Put(store, saved);
    PutAt(store, i, saved);
    FindByIdUnique(r.store, i);
    assert !MatchPasswords(r.store[i], second);
  }

  /** With `strictQuery` off, the lookup keeps a condition on a field no record stores, so
      every link that verifies and names an id is refused with 401. */
  lemma UnstrippedResetDenied(k: Kind, store: seq<Principal>, text: string, password: string, cfg: JwtConfig,
                              now: int, decode: string -> Option<Token>, salt: nat)
    requires AllSettled(store)
    requires text != "" && password != ""
    requires VerifyToken(text, ResetToken, cfg, now, decode).Resolves?
    requires VerifyToken(text, ResetToken, cfg, now, decode).value.id != ""
    ensures ResetAsWritten(false, k, store, Some(text), Some(password), cfg, now, decode, salt)
         == Outcome(store, Rejects(Raise("Reset Password Permission Denied", Unauthorized)))
  {
  }

  /** Asking to reset to the password already stored is 400 and leaves the permission set. */
  lemma SamePasswordKeepsPermission(k: Kind, store: seq<Principal>, token: string, password: string, cfg: JwtConfig,
                                    now: int, decode: string -> Option<Token>, salt: nat)
    requires AllSettled(store)
    requires token != "" && password != ""
    requires VerifyToken(token, ResetToken, cfg, now, decode).Resolves?
    requires var id := VerifyToken(token, ResetToken, cfg, now, decode).value.id;
      id != "" && FindResettable(store, id).Some? && MatchPasswords(store[FindResettable(store, id).value], password)
    ensures Reset(k, store, Some(token), Some(password), cfg, now, decode, salt)
         == Outcome(store, Rejects(Raise("New Pasword and Old Password is Same", BadRequest)))
  {
  }

  /** Ids are unique across the collection. */
  predicate UniqueIds(store: seq<Principal>)
  {
    forall a, b :: 0 <= a < b < |store| ==> store[a].id != store[b].id
  }

  /** Saving the record at `i` changes that record only. */
  lemma {:induction false} PutAt(store: seq<Principal>, i: nat, q: Principal)
    requires UniqueIds(store) && i < |store| && q.id == store[i].id
    ensures forall j :: 0 <= j < |store| ==> Put(store, q)[j] == (if j == i then q else store[j])
    ensures UniqueIds(Put(store, q))
    ensures Settled(q) && AllSettled(store) ==> AllSettled(Put(store, q))
  {
    forall j | 0 <= j < |store| && j != i ensures store[j].id != q.id {
      if j < i { assert store[j].id != store[i].id; } else { assert store[i].id != store[j].id; }
    }
  }

  /** A link whose account no longer holds the reset permission is refused with 401. */
  lemma ResetNeedsPermission(k: Kind, store: seq<Principal>, text: string, password: string, cfg: JwtConfig,
                             now: int, decode: string -> Option<Token>, salt: nat)
    requires AllSettled(store)
    requires text != "" && password != ""
    requires VerifyToken(text, ResetToken, cfg, now, decode).Resolves?
    requires var id := VerifyToken(text, ResetToken, cfg, now, decode).value.id;
      id != "" && FindResettable(store, id).None?
    ensures Reset(k, store, Some(text), Some(password), cfg, now, decode, salt)
         == Outcome(store, Rejects(Raise("Reset Password Permission Denied", Unauthorized)))
  {
  }

  /** The link a forgot call prints, used before it expires, resets the password of the
      account it was issued for: only the new password matches and the permission is
      withdrawn, so the same link used again is refused with 401. */
  lemma {:induction false} ForgotThenReset(k: Kind, store: seq<Principal>, email: string, cfg: JwtConfig, issued: int,
                                           now: int, text: string, decode: string -> Option<Token>, password: string, salt: nat)
    requires AllSettled(store) && UniqueIds(store)
    requires email != "" && text != "" && password != ""
    requires FindByEmail(store, email).Some? && store[FindByEmail(store, email).value].id != ""
    requires !MatchPasswords(store[FindByEmail(store, email).value], password)
    requires Forgot(k, store, Some(email), cfg, issued).result.Resolves?
    requires decode(text) == Forgot(k, store, Some(email), cfg, issued).link
    requires !Expired(Forgot(k, store, Some(email), cfg, issued).link.value.payload.claims, now)
    ensures var i := FindByEmail(store, email).value;
      var f := Forgot(k, store, Some(email), cfg, issued);
      var r := Reset(k, f.store, Some(text), Some(password), cfg, now, decode, salt);
      r.result == Resolves(Reply("Password Reset Successfully", None))
      && (forall q :: MatchPasswords(r.store[i], q) <==> q == password)
      && !r.store[i].resetPasswordAccess
      && Reset(k, r.store, Some(text), Some(password), cfg, now, decode, salt).result
         == Rejects(Raise("Reset Password Permission Denied", Unauthorized))
  {
    var i := FindByEmail(store, email).value;
    var p := store[i];
    var f := Forgot(k, store, Some(email), cfg, issued);
    ForgotGrants(k, store, email, cfg, issued, now, text, decode);
    ResetSucceeds(k, f.store, i, text, password, cfg, now, decode, salt);
    var r := Reset(k, f.store, Some(text), Some(password), cfg, now, decode, salt);
    ResetNeedsPermission(k, r.store, text, password, cfg, now, decode, salt);
  }

  /** A reset whose link verifies for a record holding the permission, with a new password,
      saves that record with only the new password matching and no record left holding
      the permission under that id. */
  lemma {:induction false} ResetSucceeds(k: Kind, store: seq<Principal>, i: nat, text: string, password: string,
                                         cfg: JwtConfig, now: int, decode: string -> Option<Token>, salt: nat)
    requires AllSettled(store) && UniqueIds(store) && i < |store|
    requires text != "" && password != "" && store[i].id != ""
    requires VerifyToken(text, ResetToken, cfg, now, decode).Resolves?
    requires VerifyToken(text, ResetToken, cfg, now, decode).value.id == store[i].id
    requires FindResettable(store, store[i].id) == Some(i)
    requires !MatchPasswords(store[i], password)
    ensures var r := Reset(k, store, Some(text), Some(password), cfg, now, decode, salt);
      r.result == Resolves(Reply("Password Reset Successfully", None))
      && AllSettled(r.store) && |r.store| == |store|
      && r.store[i] == ResetDone(store[i], password, salt)
      && FindResettable(r.store, store[i].id).None?
  {
    var done := ResetDone(store[i], password, salt);
    var r := Reset(k, store, Some(text), Some(password), cfg, now, decode, salt);
    assert r.store == Put(store, done);
    PutAt(store, i, done);
    Withdrawn(store, i, done);
  }

  /** After forgot-password, its link verifies for the account, which alone holds the
      reset permission under that id. */
  lemma {:induction false} ForgotGrants(k: Kind, store: seq<Principal>, email: string, cfg: JwtConfig, issued: int,
                                        now: int, text: string, decode: string -> Option<Token>)
    requires AllSettled(store) && UniqueIds(store)
    requires email != "" && text != ""
    requires FindByEmail(store, email).Some? && store[FindByEmail(store, email).value].id != ""
    requires Forgot(k, store, Some(email), cfg, issued).result.Resolves?
    requires decode(text) == Forgot(k, store, Some(email), cfg, issued).link
    requires !Expired(Forgot(k, store, Some(email), cfg, issued).link.value.payload.claims, now)
    ensures var i := FindByEmail(store, email).value;
      var f := Forgot(k, store, Some(email), cfg, issued);
      AllSettled(f.store) && UniqueIds(f.store) && |f.store| == |store|
      && f.store[i] == store[i].(resetPasswordAccess := true)
      && VerifyToken(text, ResetToken, cfg, now, decode).Resolves?
      && VerifyToken(text, ResetToken, cfg, now, decode).value.id == store[i].id
      && FindResettable(f.store, store[i].id) == Some(i)
  {
    var i := FindByEmail(store, email).value;
    var p := store[i];
    var f := Forgot(k, store, Some(email), cfg, issued);
    var granted := p.(resetPasswordAccess := true);
    assert f.store == Put(store, granted);
    PutAt(store, i, granted);
    SecretsAgreeExceptAccess(cfg, ResetToken);
    VerifyGenerated(Meta(p.id, p.name, "", ResetToken), cfg, issued, now, text, decode);
    assert FindResettable(f.store, p.id) == Some(i) by {
      assert f.store[i] == granted;
      forall j | 0 <= j < i ensures !(f.store[j].id == p.id && f.store[j].resetPasswordAccess) {
        assert f.store[j] == store[j];
      }
    }
  }

  /** Saving a record without the permission leaves no record holding it under that id. */
  lemma {:induction false} Withdrawn(store: seq<Principal>, i: nat, done: Principal)
    requires UniqueIds(store) && i < |store| && done.id == store[i].id && !done.resetPasswordAccess
    ensures Put(store, done)[i] == done
    ensures FindResettable(Put(store, done), done.id).None?
  {
    var r := Put(store, done);
    PutAt(store, i, done);
    forall j | 0 <= j < |r| ensures !(r[j].id == done.id && r[j].resetPasswordAccess) {
      if j != i { assert r[j] == store[j]; }
    }
  }

  // ---------------------------------------------------------------- status check

  /** The checked record as the helper returns it. Its lookup selects code, names,
      contacts, status and creation time only; `role` holds the role only when the
      lookup selects it. */
  datatype StatusView = StatusView(message: string, id: string, name: string, status: AccountStatus, role: Option<Role>)

  function FindLive(store: seq<Principal>, id: string): (r: Option<nat>)
    ensures r.Some? ==> r.value < |store| && store[r.value].id == id && !store[r.value].isDeleted
    ensures r.None? ==> forall j :: 0 <= j < |store| ==> !(store[j].id == id && !store[j].isDeleted)
  {
    FindFirst(store, (p: Principal) => p.id == id && !p.isDeleted)
  }

  function Promoted(p: Principal, now: int): (r: Principal)
    ensures r.status == (if p.status == Inactive then Active else p.status) && r.lastUsed == now
    ensures r.(status := p.status, lastUsed := p.lastUsed) == p
  {
    p.(status := if p.status == Inactive then Active else p.status, lastUsed := now)
  }

  function CheckStatusWith(selectsRole: bool, k: Kind, store: seq<Principal>, id: Option<string>,
                           allowed: seq<AccountStatus>, now: int): (o: Outcome<StatusView>)
    ensures !ValidId(id) || |allowed| == 0 ==>
      o == Outcome(store, Rejects(Raise("Provide vaild " + Lower(k) + " id and status", BadRequest)))
    ensures ValidId(id) && |allowed| > 0 && FindLive(store, id.value).None? ==>
      o == Outcome(store, Rejects(Raise(Noun(k) + " not found", NotFound)))
    ensures ValidId(id) && |allowed| > 0 && FindLive(store, id.value).Some? ==>
      var i := FindLive(store, id.value).value;
      var p := Promoted(store[i], now);
      o.store == Put(store, p)
      && (o.result.Resolves? <==> p.status in allowed)
      && (o.result.Resolves? ==> o.result.value == StatusView(Noun(k) + " is " + AccountStatusName(p.status), p.id, p.name,
                                                              p.status, if selectsRole then Some(p.role) else None))
      && (!o.result.Resolves? ==> o.result == Rejects(Raise(Noun(k) + " is " + AccountStatusName(p.status), Unauthorized)))
  {
    var fallback := "Status checking failed";
    if !ValidId(id) || |allowed| == 0 then
      Fail(store, Raise("Provide vaild " + Lower(k) + " id and status", BadRequest), fallback)
    else match FindLive(store, id.value)
      case None => Fail(store, Raise(Noun(k) + " not found", NotFound), fallback)
      case Some(i) =>
        var p := Promoted(store[i], now);
        var saved := Put(store, p);
        var message := Noun(k) + " is " + AccountStatusName(p.status);
        if p.status in allowed then
          Outcome(saved, Resolves(StatusView(message, p.id, p.name, p.status, if selectsRole then Some(p.role) else None)))
        else Fail(saved, Raise(message, Unauthorized), fallback)
  }

  /** `checkUserStatus` / `checkAdminStatus` as written: the role is not selected. */
  function CheckStatus(k: Kind, store: seq<Principal>, id: Option<string>, allowed: seq<AccountStatus>, now: int): (o: Outcome<StatusView>)
    ensures o.result.Resolves? ==> o.result.value.role.None?
  {
    CheckStatusWith(false, k, store, id, allowed, now)
  }

  /** The status check with the role selected. */
  function CheckStatusIntended(k: Kind, store: seq<Principal>, id: Option<string>, allowed: seq<AccountStatus>, now: int): (o: Outcome<StatusView>)
    ensures o.result.Resolves? ==> ValidId(id) && FindLive(store, id.value).Some?
    ensures o.result.Resolves? ==> var i := FindLive(store, id.value).value; o.result.value.role == Some(store[i].role)
  {
    CheckStatusWith(true, k, store, id, allowed, now)
  }

  /** An Inactive account passes a check for Active, and is saved as Active; a Blocked or
      deleted one never does. */
  lemma {:induction false} CheckPromotesInactive(k: Kind, store: seq<Principal>, id: string, now: int)
    requires ValidObjectId(id) && id != ""
    ensures var o := CheckStatus(k, store, Some(id), [Active], now);
      var t := FindLive(store, id);
      (t.Some? && store[t.value].status in {Active, Inactive} <==> o.result.Resolves?)
      && (o.result.Resolves? ==> o.store[t.value].status == Active && o.store[t.value].lastUsed == now)
  {
    var o := CheckStatus(k, store, Some(id), [Active], now);
    var t := FindLive(store, id);
    if t.Some? {
      var p := Promoted(store[t.value], now);
      assert p.status in [Active] <==> store[t.value].status in {Active, Inactive};
    }
  }

  // ---------------------------------------------------------------- by id

  /** The roles that may see deleted records by id: as written, the user helper names
      two roles that do not exist. */
  function PrivilegedById(k: Kind): seq<string>
  {
    if k == UserKind then ["SuperUser", "DeveloperUser"] else ["SuperAdmin", "DeveloperAdmin"]
  }

  function PrivilegedByIdIntended(k: Kind): seq<string>
  {
    ["SuperAdmin", "DeveloperAdmin"]
  }

  /** The profile a lookup by id returns; the deletion fields only for privileged callers. */
  datatype Profile = Profile(message: string, id: string, code: Option<string>, name: string,
                             username: Option<string>, email: Option<string>, phone: Option<real>,
                             status: AccountStatus, createdAt: int, deletion: Option<(bool, Option<int>)>)

  function FindVisible(store: seq<Principal>, id: string, privileged: bool): (r: Option<nat>)
    ensures r.Some? ==> r.value < |store| && store[r.value].id == id && (privileged || !store[r.value].isDeleted)
    ensures r.None? ==> forall j :: 0 <= j < |store| ==> !(store[j].id == id && (privileged || !store[j].isDeleted))
  {
    FindFirst(store, (p: Principal) => p.id == id && (privileged || !p.isDeleted))
  }

  /** `getUserById` / `getAdminById`, given the list of privileged role names. */
  function GetByIdWith(privilegedRoles: seq<string>, k: Kind, store: seq<Principal>, id: Option<string>,
                       role: Option<string>): (o: Settle<Profile>)
    ensures !o.NeverSettles?
    ensures o.Resolves? <==>
      ValidId(id) && FindVisible(store, id.value, (if role.Some? then role.value else "") in privilegedRoles).Some?
    ensures o.Resolves? ==> (o.value.deletion.Some? <==> (if role.Some? then role.value else "") in privilegedRoles)
    ensures o.Resolves? && !((if role.Some? then role.value else "") in privilegedRoles) ==>
      exists j :: 0 <= j < |store| && store[j].id == id.value && !store[j].isDeleted
    ensures o.Resolves? ==>
      exists j :: 0 <= j < |store| && store[j].id == id.value && o.value.id == id.value
        && o.value.name == store[j].name && o.value.username == store[j].username
        && o.value.email == store[j].email && o.value.phone == store[j].phone
        && o.value.createdAt == store[j].createdAt
  {
    if !ValidId(id) then
      Rejects(Failure(if !Given(id) then "Provide " + Lower(k) + "Id" else Lower(k) + "Id not Valid", Some(BadRequest), NoCode))
    else
      var privileged := (if role.Some? then role.value else "") in privilegedRoles;
      match FindVisible(store, id.value, privileged)
      case None => Rejects(Failure(Noun(k) + " not found", Some(NotFound), NoCode))
      case Some(i) =>
        var p := store[i];
        Resolves(Profile(Noun(k) + " details fetched", p.id, p.code, p.name, p.username, p.email, p.phone, p.status, p.createdAt,
                         if privileged then Some((p.isDeleted, p.deletedAt)) else None))
  }

  /** As written, no caller of the user lookup holds a role the user helper treats as
      privileged, so a deleted user is never found by id. */
  lemma {:induction false} DeletedUsersHiddenById(store: seq<Principal>, id: string, role: Role)
    requires forall j :: 0 <= j < |store| && store[j].id == id ==> store[j].isDeleted
    ensures GetByIdWith(PrivilegedById(UserKind), UserKind, store, Some(id), Some(RoleName(role))).Rejects?
  {
    assert RoleName(role) !in PrivilegedById(UserKind);
  }

  /** With the admin roles as privileged, a SuperAdmin finds a deleted user and sees its
      deletion fields. */
  lemma {:induction false} DeletedUsersVisibleToSuperAdmin(store: seq<Principal>, id: string)
    requires ValidObjectId(id) && id != ""
    requires exists j :: 0 <= j < |store| && store[j].id == id
    ensures var o := GetByIdWith(PrivilegedByIdIntended(UserKind), UserKind, store, Some(id), Some("SuperAdmin"));
      o.Resolves? && o.value.deletion.Some?
  {
    var j :| 0 <= j < |store| && store[j].id == id;
    var u := store[j];
    assert u.id == id && (true || !u.isDeleted);
  }

  // ---------------------------------------------------------------- lifecycle

  /** `${username}` of a record; a missing username renders as `undefined`. */
  function UsernameText(p: Principal): string
  {
    if p.username.Some? then p.username.value else "undefined"
  }

  function FindDeleted(store: seq<Principal>, id: string): (r: Option<nat>)
    ensures r.Some? ==> r.value < |store| && store[r.value].id == id && store[r.value].isDeleted
    ensures r.None? ==> forall j :: 0 <= j < |store| ==> !(store[j].id == id && store[j].isDeleted)
  {
    FindFirst(store, (p: Principal) => p.id == id && p.isDeleted)
  }

  function SoftDeleted(p: Principal, now: int): (r: Principal)
    ensures r.status == Inactive && r.isDeleted && r.deletedAt == Some(now)
    ensures r.(status := p.status, isDeleted := p.isDeleted, deletedAt := p.deletedAt) == p
  {
    p.(status := Inactive, isDeleted := true, deletedAt := Some(now))
  }

  function RestoredRecord(p: Principal): (r: Principal)
    ensures r.status == Active && !r.isDeleted && r.deletedAt.None?
    ensures r.(status := p.status, isDeleted := p.isDeleted, deletedAt := p.deletedAt) == p
  {
    p.(status := Active, isDeleted := false, deletedAt := None)
  }

  /** `deleteUser` / `deleteAdmin`: only a record that is not deleted yet. */
  function Delete(k: Kind, store: seq<Principal>, id: Option<string>, now: int): (o: Outcome<Reply>)
    ensures o.result.Resolves? <==> ValidId(id) && FindLive(store, id.value).Some?
    ensures o.result.Resolves? ==> o.store == Put(store, SoftDeleted(store[FindLive(store, id.value).value], now))
    ensures !o.result.Resolves? ==> o.store == store && o.result.Rejects?
  {
    var fallback := Noun(k) + " deleting failed";
    if !ValidId(id) then Fail(store, Raise("Provide valid " + Lower(k) + " id", BadRequest), fallback)
    else match FindLive(store, id.value)
      case None => Fail(store, Raise(Noun(k) + " Not Found", NotFound), fallback)
      case Some(i) =>
        Outcome(Put(store, SoftDeleted(store[i], now)), Resolves(Reply(UsernameText(store[i]) + " " + Lower(k) + " was deleted", None)))
  }

  /** `restoreUser` / `restoreAdmin`: only a deleted record. */
  function Restore(k: Kind, store: seq<Principal>, id: Option<string>): (o: Outcome<Reply>)
    ensures o.result.Resolves? <==> ValidId(id) && FindDeleted(store, id.value).Some?
    ensures o.result.Resolves? ==> o.store == Put(store, RestoredRecord(store[FindDeleted(store, id.value).value]))
    ensures !o.result.Resolves? ==> o.store == store && o.result.Rejects?
  {
    var fallback := Noun(k) + " restore failed";
    if !ValidId(id) then Fail(store, Raise("Provide valid " + Lower(k) + " id", BadRequest), fallback)
    else match FindDeleted(store, id.value)
      case None => Fail(store, Raise(Noun(k) + " not found", NotFound), fallback)
      case Some(i) =>
        var p := RestoredRecord(store[i]);
        Outcome(Put(store, p), Resolves(Reply(UsernameText(p) + " " + Lower(k) + " was restored", Some(p))))
  }

  /** The collection without its `i`-th record. */
  function RemoveAt(store: seq<Principal>, i: nat): (r: seq<Principal>)
    requires i < |store|
    ensures |r| == |store| - 1
    ensures forall j :: 0 <= j < |r| ==> r[j] == (if j < i then store[j] else store[j + 1])
  {
    store[..i] + store[i + 1..]
  }

  /** `pDeleteUser` / `pDeleteAdmin`: a deleted record, and only in development. */
  function PermanentDelete(k: Kind, store: seq<Principal>, id: Option<string>, env: string): (o: Outcome<Reply>)
    ensures o.result.Resolves? <==> ValidId(id) && FindDeleted(store, id.value).Some? && env == "development"
    ensures o.result.Resolves? ==> o.store == RemoveAt(store, FindDeleted(store, id.value).value)
    ensures ValidId(id) && FindDeleted(store, id.value).Some? && env != "development" ==>
      o == Outcome(store, Rejects(Raise("In " + env + " mode not able to delete permanently!!", Forbidden)))
    ensures !o.result.Resolves? ==> o.store == store
  {
    var fallback := Noun(k) + " permanently deleting failed";
    if !ValidId(id) then Fail(store, Raise("Provide valid " + Lower(k) + " id", BadRequest), fallback)
    else match FindDeleted(store, id.value)
      case None => Fail(store, Raise(Noun(k) + " not found", NotFound), fallback)
      case Some(i) =>
        if env != "development" then Fail(store, Raise("In " + env + " mode not able to delete permanently!!", Forbidden), fallback)
        else Outcome(RemoveAt(store, i), Resolves(Reply(UsernameText(store[i]) + " " + Lower(k) + " was deleted permanently", None)))
  }

  /** Deleting and then restoring a record leaves it as it was, except that it is Active
      and has no deletion time; a second delete of the same record is refused. */
  lemma {:induction false} DeleteThenRestore(k: Kind, store: seq<Principal>, id: string, now: int)
    requires ValidObjectId(id) && id != ""
    requires UniqueIds(store)
    requires FindLive(store, id).Some?
    ensures var i := FindLive(store, id).value;
      var d := Delete(k, store, Some(id), now);
      var r := Restore(k, d.store, Some(id));
      Delete(k, d.store, Some(id), now).result.Rejects?
      && r.result.Resolves?
      && r.store == Put(store, store[i].(status := Active, deletedAt := None))
  {
    var i := FindLive(store, id).value;
    var d := Delete(k, store, Some(id), now);
    assert d.store[i] == SoftDeleted(store[i], now);
    forall j | 0 <= j < |d.store| && j != i ensures d.store[j] == store[j] && store[j].id != id {
      if j < i { assert store[j].id != store[i].id; } else { assert store[i].id != store[j].id; }
    }
    assert FindLive(d.store, id).None?;
    assert FindDeleted(d.store, id) == Some(i) by {
      forall j | 0 <= j < i ensures !(d.store[j].id == id && d.store[j].isDeleted) {
        assert d.store[j] == store[j];
      }
    }
    var r := Restore(k, d.store, Some(id));
    assert r.store == Put(d.store, RestoredRecord(d.store[i]));
    assert r.store == Put(store, store[i].(status := Active, deletedAt := None)) by {
      forall j | 0 <= j < |store| ensures r.store[j] == Put(store, store[i].(status := Active, deletedAt := None))[j] {
        if j == i {
          assert RestoredRecord(d.store[i]) == store[i].(status := Active, deletedAt := None);
        }
      }
    }
  }
}
