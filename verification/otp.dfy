/** `verifyOTP(phone, otp, isVerification)`: a user is admitted while the failure counter
    is below the threshold, or once the reset period has passed since the last failure;
    the code is accepted while the sending is younger than the expiry period. */
module Otp {
  import opened Base
  import opened Types
  import opened Numbers
  import opened Crypto
  import opened Jwt
  import opened UserModel

  /** The three OTP settings: the failure threshold, the expiry period in minutes and the
      reset period in hours. */
  datatype OtpSettings = OtpSettings(minFailed: int, expireMinutes: int, resetHours: int)

  const DefaultOtpSettings := OtpSettings(5, 5, 5)

  /** The admission test. */
  predicate Admitted(u: Principal, s: OtpSettings, now: int)
  {
    u.failedOtpAttempt < s.minFailed
    || (u.failedOtpVerifyAt.Some? && now - u.failedOtpVerifyAt.value > s.resetHours * 60 * 60 * 1000)
  }

  /** The last code was sent less than the expiry period ago. */
  predicate WithinWindow(u: Principal, s: OtpSettings, now: int)
  {
    u.otpSentedAt.Some? && now - u.otpSentedAt.value < s.expireMinutes * 60 * 1000
  }

  /** The counter as the admitted branch leaves it: zeroed only when it equals the threshold. */
  function CounterAfterAdmission(u: Principal, s: OtpSettings): (r: Principal)
    ensures r.failedOtpAttempt == (if u.failedOtpAttempt == s.minFailed then 0 else u.failedOtpAttempt)
    ensures r.(failedOtpAttempt := u.failedOtpAttempt) == u
  {
    if u.failedOtpAttempt == s.minFailed then u.(failedOtpAttempt := 0) else u
  }

  /** `IOtpVerifyResponse`; the token is left out when the call is only a verification. */
  datatype OtpVerified = OtpVerified(message: string, verified: bool, token: Option<Token>)

  /** What a call leaves behind: the user collection and the settled promise. */
  datatype OtpOutcome = OtpOutcome(users: seq<Principal>, result: Settle<OtpVerified>)

  const OtpFallback := "User otp verification failed"

  function LockedOut(s: OtpSettings): Failure
  {
    Raise("Incorrect otp attempt reached " + IntToString(s.minFailed) + " times, so try after 2 hour", Unauthorized)
  }

  /** The lockout as the catch block reports it, with the class name as its code. */
  function ThrownLockedOut(s: OtpSettings): Failure
  {
    Thrown(LockedOut(s).message, Unauthorized)
  }

  const OtpExpired := Raise("OTP Expired", Unauthorized)
  const BadOtpInput := Failure("Provide valid phone and otp", Some(BadRequest), NoCode)
  const UserNotFound := Failure("User not found", Some(NotFound), NoCode)

  /** The mismatch branch as written: the failure is counted and stamped and saved, and
      then the function falls off the end of the `try` without resolving or rejecting. */
  function Mismatch(users: seq<Principal>, u: Principal, now: int, salt: nat): (o: OtpOutcome)
    ensures o.result.NeverSettles?
  {
    OtpOutcome(SaveExisting(users, u.(failedOtpAttempt := u.failedOtpAttempt + 1, failedOtpVerifyAt := Some(now)), salt),
               NeverSettles)
  }

  /** The intended mismatch branch: the same bookkeeping, then an answer that the code was
      not verified. */
  function MismatchIntended(users: seq<Principal>, u: Principal, now: int, salt: nat): (o: OtpOutcome)
    ensures o.result == Resolves(OtpVerified("Invalid OTP", false, None))
  {
    OtpOutcome(Mismatch(users, u, now, salt).users, Resolves(OtpVerified("Invalid OTP", false, None)))
  }

  /** The call, with the mismatch branch as a parameter: `intended` selects the corrected
      branch. `generated` is the new code `setOTP` would store and `salt` the hash salt. */
  function VerifyOtpWith(intended: bool, users: seq<Principal>, phone: string, otp: string, isVerification: bool,
                         s: OtpSettings, cfg: JwtConfig, now: int, generated: string, salt: nat): (o: OtpOutcome)
    requires AllSettled(users)
  {
    if phone == "" || !IsNumeric(phone) || otp == "" || !IsNumeric(otp) then OtpOutcome(users, Rejects(BadOtpInput))
    else match FindFirst(users, u => PhoneMatches(u, phone))
      case None => OtpOutcome(users, Rejects(UserNotFound))
      case Some(i) =>
        var u := users[i];
        if !Admitted(u, s, now) then OtpOutcome(users, Rejects(CaughtNamed(LockedOut(s), ThrowErrorName, OtpFallback)))
        else
          var u1 := CounterAfterAdmission(u, s);
          if !WithinWindow(u1, s, now) then
            OtpOutcome(SaveExisting(users, SetOTP(u1, generated, now, salt).0, salt), Rejects(CaughtNamed(OtpExpired, ThrowErrorName, OtpFallback)))
          else if MatchOTP(u1, otp) then
            var saved := SaveExisting(users, SetOTP(u1, generated, now, salt).0, salt);
            var token := GenerateToken(Meta(u1.id, u1.name, RoleName(u1.role), AccessToken), cfg, now);
            if token.Rejects? then OtpOutcome(saved, Rejects(CaughtNamed(token.failure, "", OtpFallback)))
            else OtpOutcome(saved, Resolves(OtpVerified("OTP Verified", true,
                                                        if isVerification then None else Some(token.value))))
          else if intended then MismatchIntended(users, u1, now, salt)
          else Mismatch(users, u1, now, salt)
  }

  /** The call as written. */
  function VerifyOTP(users: seq<Principal>, phone: string, otp: string, isVerification: bool,
                     s: OtpSettings, cfg: JwtConfig, now: int, generated: string, salt: nat): (o: OtpOutcome)
    requires AllSettled(users)
    ensures |o.users| == |users|
    ensures phone == "" || !IsNumeric(phone) || otp == "" || !IsNumeric(otp) ==> o == OtpOutcome(users, Rejects(BadOtpInput))
    ensures phone != "" && IsNumeric(phone) && otp != "" && IsNumeric(otp) && Target(users, phone).None? ==>
      o == OtpOutcome(users, Rejects(UserNotFound))
    ensures o.result.NeverSettles? <==>
      phone != "" && IsNumeric(phone) && otp != "" && IsNumeric(otp)
      && FindFirst(users, u => PhoneMatches(u, phone)).Some?
      && var u := users[FindFirst(users, u => PhoneMatches(u, phone)).value];
         Admitted(u, s, now) && WithinWindow(u, s, now) && !MatchOTP(u, otp)
  {
    VerifyOtpWith(false, users, phone, otp, isVerification, s, cfg, now, generated, salt)
  }

  /** The call with the mismatch branch corrected: it always settles. */
  function VerifyOTPIntended(users: seq<Principal>, phone: string, otp: string, isVerification: bool,
                             s: OtpSettings, cfg: JwtConfig, now: int, generated: string, salt: nat): (o: OtpOutcome)
    requires AllSettled(users)
    ensures !o.result.NeverSettles?
    ensures o.result.Resolves? ==> (o.result.value.verified <==> o.result.value.message == "OTP Verified")
  {
    VerifyOtpWith(true, users, phone, otp, isVerification, s, cfg, now, generated, salt)
  }

  /** The user a call is about, when there is one. */
  function Target(users: seq<Principal>, phone: string): Option<Principal>
  {
    var k := FindFirst(users, u => PhoneMatches(u, phone));
    if k.Some? then Some(users[k.value]) else None
  }

  /** A locked-out user (counter at or above the threshold, no failure older than the
      reset period) is refused with 401 whatever code is sent, and nothing is saved. */
  lemma LockedOutRefused(users: seq<Principal>, phone: string, otp: string, isVerification: bool,
                         s: OtpSettings, cfg: JwtConfig, now: int, generated: string, salt: nat)
    requires AllSettled(users)
    requires phone != "" && IsNumeric(phone) && otp != "" && IsNumeric(otp)
    requires Target(users, phone).Some?
    requires Target(users, phone).value.failedOtpAttempt >= s.minFailed
    requires Target(users, phone).value.failedOtpVerifyAt.None?
          || now - Target(users, phone).value.failedOtpVerifyAt.value <= s.resetHours * 60 * 60 * 1000
    ensures VerifyOTP(users, phone, otp, isVerification, s, cfg, now, generated, salt)
         == OtpOutcome(users, Rejects(ThrownLockedOut(s)))
  {
  }

  /** A user saved with the schema defaults has never failed, yet the default counter of
      400 is above any threshold up to 400, so the first verification is refused. */
  lemma {:induction false} NewUserLockedOut(id: string, name: string, username: string, email: string, phone: string,
                                            password: string, code: string, createdAt: int, loadedAt: int, salt: nat,
                                            otp: string, s: OtpSettings, cfg: JwtConfig, now: int, generated: string)
    requires s.minFailed <= DefaultFailedOtpAttempt
    requires phone != "" && ToNumber(phone).Finite? && otp != "" && IsNumeric(otp)
    ensures var u := Stored(NewUser(id, name, username, email, ToNumber(phone).value, password, code, createdAt, loadedAt), salt);
      VerifyOTP([u], phone, otp, false, s, cfg, now, generated, salt) == OtpOutcome([u], Rejects(ThrownLockedOut(s)))
  {
    var u := Stored(NewUser(id, name, username, email, ToNumber(phone).value, password, code, createdAt, loadedAt), salt);
    assert PhoneMatches([u][0], phone);
    assert FindFirst([u], u => PhoneMatches(u, phone)) == Some(0);
    LockedOutRefused([u], phone, otp, false, s, cfg, now, generated, salt);
  }

  /** A new user with a counter that starts at zero, the evidently intended default. */
  function NewUserIntended(id: string, name: string, username: string, email: string, phone: real,
                           password: string, otp: string, createdAt: int, loadedAt: int): (p: Principal)
    ensures p.failedOtpAttempt == 0
    ensures p == NewUser(id, name, username, email, phone, password, otp, createdAt, loadedAt).(failedOtpAttempt := 0)
  {
    NewUser(id, name, username, email, phone, password, otp, createdAt, loadedAt).(failedOtpAttempt := 0)
  }

  /** With the counter starting at zero, a new user who was just sent a code and enters it
      is verified and, under the default settings and configuration, gets an access token. */
  lemma {:induction false} NewUserIntendedVerifies(id: string, name: string, username: string, email: string, phone: string,
                                                   password: string, code: string, createdAt: int, loadedAt: int,
                                                   sent: string, sentAt: int, now: int, generated: string, salt: nat)
    requires phone != "" && ToNumber(phone).Finite? && sent != "" && IsNumeric(sent)
    requires sentAt <= now < sentAt + 5 * 60 * 1000
    ensures var blank := Stored(NewUserIntended(id, name, username, email, ToNumber(phone).value, password, code, createdAt, loadedAt), salt);
      var u := SetOTP(blank, sent, sentAt, salt).0;
      var o := VerifyOTP([u], phone, sent, false, DefaultOtpSettings, DefaultConfig(), now, generated, salt);
      o.result.Resolves? && o.result.value.verified && o.result.value.token.Some?
  {
    var blank := Stored(NewUserIntended(id, name, username, email, ToNumber(phone).value, password, code, createdAt, loadedAt), salt);
    var u := SetOTP(blank, sent, sentAt, salt).0;
    assert PhoneMatches([u][0], phone);
    assert FindFirst([u], u => PhoneMatches(u, phone)) == Some(0);
    assert Admitted(u, DefaultOtpSettings, now);
    assert CounterAfterAdmission(u, DefaultOtpSettings) == u;
    assert MatchOTP(u, sent);
    DefaultConfigValues();
  }

  /** Admission never zeroes a counter above the threshold: a user at 400 keeps 400, and
      after a mismatch has 401 and a new failure time. */
  lemma {:induction false} CounterResetOnlyAtThreshold(users: seq<Principal>, phone: string, otp: string, isVerification: bool,
                                                       s: OtpSettings, cfg: JwtConfig, now: int, generated: string, salt: nat)
    requires AllSettled(users)
    requires phone != "" && IsNumeric(phone) && otp != "" && IsNumeric(otp)
    requires Target(users, phone).Some?
    requires var u := Target(users, phone).value;
      Admitted(u, s, now) && WithinWindow(u, s, now) && !MatchOTP(u, otp) && u.failedOtpAttempt != s.minFailed
    ensures var u := Target(users, phone).value;
      var k := FindFirst(users, u => PhoneMatches(u, phone)).value;
      var o := VerifyOTP(users, phone, otp, isVerification, s, cfg, now, generated, salt);
      o.result.NeverSettles? && o.users[k].failedOtpAttempt == u.failedOtpAttempt + 1
      && o.users[k].failedOtpVerifyAt == Some(now)
  {
    var k := FindFirst(users, u => PhoneMatches(u, phone)).value;
    var u := users[k];
    var saved := u.(failedOtpAttempt := u.failedOtpAttempt + 1, failedOtpVerifyAt := Some(now));
    assert SaveExisting(users, saved, salt) == Put(users, Stored(saved, salt));
  }

  /** A code that was accepted is replaced: the same code sent again no longer matches
      (unless the new code happens to equal it), and the counter is not reset. */
  lemma {:induction false} CodeIsSingleUse(users: seq<Principal>, phone: string, otp: string, isVerification: bool,
                                           s: OtpSettings, cfg: JwtConfig, now: int, generated: string, salt: nat)
    requires AllSettled(users)
    requires phone != "" && IsNumeric(phone) && otp != "" && IsNumeric(otp)
    requires Target(users, phone).Some?
    requires var u := Target(users, phone).value;
      Admitted(u, s, now) && WithinWindow(u, s, now) && MatchOTP(u, otp)
    requires generated != otp
    ensures var u := Target(users, phone).value;
      var k := FindFirst(users, u => PhoneMatches(u, phone)).value;
      var o := VerifyOTP(users, phone, otp, isVerification, s, cfg, now, generated, salt);
      !MatchOTP(o.users[k], otp) && MatchOTP(o.users[k], generated) && o.users[k].otpSentedAt == Some(now)
      && o.users[k].failedOtpAttempt == (if u.failedOtpAttempt == s.minFailed then 0 else u.failedOtpAttempt)
  {
    var k := FindFirst(users, u => PhoneMatches(u, phone)).value;
    var u := users[k];
    var u1 := CounterAfterAdmission(u, s);
    assert Settled(u1);
    var set1 := SetOTP(u1, generated, now, salt).0;
    assert SaveExisting(users, set1, salt) == Put(users, Stored(set1, salt));
  }

  /** A code that matches, from an admitted user inside the window, is answered by
      whether the access token for that user can be signed: when it can, the call resolves
      "OTP Verified" with `verified` set and the token unless the call is only a
      verification; when it cannot, the signing failure is the rejection. */
  lemma {:induction false} MatchingCodeVerifies(users: seq<Principal>, phone: string, otp: string, isVerification: bool,
                                                s: OtpSettings, cfg: JwtConfig, now: int, generated: string, salt: nat)
    requires AllSettled(users)
    requires phone != "" && IsNumeric(phone) && otp != "" && IsNumeric(otp)
    requires Target(users, phone).Some?
    requires var u := Target(users, phone).value;
      Admitted(u, s, now) && WithinWindow(u, s, now) && MatchOTP(u, otp)
    ensures var u := Target(users, phone).value;
      var token := GenerateToken(Meta(u.id, u.name, RoleName(u.role), AccessToken), cfg, now);
      var o := VerifyOTP(users, phone, otp, isVerification, s, cfg, now, generated, salt);
      (o.result.Resolves? <==> token.Resolves?)
      && (token.Resolves? ==> o.result.value == OtpVerified("OTP Verified", true, if isVerification then None else Some(token.value)))
      && (token.Rejects? ==> o.result == Rejects(CaughtNamed(token.failure, "", OtpFallback)))
  {
    var k := FindFirst(users, u => PhoneMatches(u, phone)).value;
    var u1 := CounterAfterAdmission(users[k], s);
    assert u1.id == users[k].id && u1.name == users[k].name && u1.role == users[k].role;
    assert MatchOTP(u1, otp);
  }

  /** The phone is read as a number: two phone texts that `Number` reads alike get the
      same answer and leave the same collection. */
  lemma PhoneReadAsNumber(users: seq<Principal>, phone: string, other: string, otp: string, isVerification: bool,
                          s: OtpSettings, cfg: JwtConfig, now: int, generated: string, salt: nat)
    requires AllSettled(users)
    requires phone != "" && other != "" && ToNumber(phone) == ToNumber(other)
    ensures VerifyOTP(users, phone, otp, isVerification, s, cfg, now, generated, salt)
         == VerifyOTP(users, other, otp, isVerification, s, cfg, now, generated, salt)
  {
    FindFirstSame(users, u => PhoneMatches(u, phone), u => PhoneMatches(u, other));
  }

  /** An expired window issues a new code and answers 401 "OTP Expired". */
  lemma {:induction false} ExpiredReissues(users: seq<Principal>, phone: string, otp: string, isVerification: bool,
                                           s: OtpSettings, cfg: JwtConfig, now: int, generated: string, salt: nat)
    requires AllSettled(users)
    requires phone != "" && IsNumeric(phone) && otp != "" && IsNumeric(otp)
    requires Target(users, phone).Some?
    requires var u := Target(users, phone).value; Admitted(u, s, now) && !WithinWindow(u, s, now)
    ensures var k := FindFirst(users, u => PhoneMatches(u, phone)).value;
      var o := VerifyOTP(users, phone, otp, isVerification, s, cfg, now, generated, salt);
      o.result == Rejects(Thrown("OTP Expired", Unauthorized)) && MatchOTP(o.users[k], generated) && o.users[k].otpSentedAt == Some(now)
  {
    var k := FindFirst(users, u => PhoneMatches(u, phone)).value;
    var u1 := CounterAfterAdmission(users[k], s);
    assert Settled(u1);
    var set1 := SetOTP(u1, generated, now, salt).0;
    assert SaveExisting(users, set1, salt) == Put(users, Stored(set1, salt));
  }
}
