/** The user document and its schema behaviour: field defaults, the save hook that hashes
    freshly assigned secrets and numbers new documents, and the document methods
    (`matchPasswords`, `changePassword`, `resetPassword`, `setOTP`, `matchOTP`). Admin
    documents share this shape. A collection is a sequence of documents in creation order,
    so its last element is the newest by `createdAt`. Times are milliseconds. */
module UserModel {
  import opened Base
  import opened Types
  import opened Crypto
  import opened CodeGen
  import opened Numbers

  datatype Principal = Principal(
    id: string,
    code: Option<string>,
    name: string,
    username: Option<string>,
    email: Option<string>,
    phone: Option<real>,
    role: Role,
    status: AccountStatus,
    password: Secret,
    lastPassword: Option<Secret>,
    passwordChanged: bool,
    passwordChangedAt: Option<int>,
    resetPasswordAccess: bool,
    otp: Secret,
    otpSentedAt: Option<int>,
    failedOtpVerifyAt: Option<int>,
    failedOtpAttempt: int,
    lastUsed: int,
    lastSync: int,
    isDeleted: bool,
    deletedAt: Option<int>,
    createdAt: int)

  /** `toLowerCase` on one character, for the ASCII letters. */
  function LowerChar(c: char): char
  {
    if 'A' <= c <= 'Z' then (c as int + 32) as char else c
  }

  function LowerCase(s: string): (t: string)
    ensures |t| == |s|
    ensures forall i :: 0 <= i < |s| ==> t[i] == LowerChar(s[i])
  {
    seq(|s|, i requires 0 <= i < |s| => LowerChar(s[i]))
  }

  /** The `trim` and `lowercase` setters of `username` and `email`. Mongoose runs them
      on every value saved to those paths and on every query value for them. */
  function Fold(s: string): string
  {
    LowerCase(Trim(s))
  }

  /** A string path matches a query value when the two agree once folded. */
  predicate TextMatches(stored: Option<string>, query: string)
  {
    stored.Some? && Fold(stored.value) == Fold(query)
  }

  /** Folding twice is folding once: a saved value is its own fold, so a query matches it
      exactly when the query folds to it. */
  lemma {:induction false} FoldIdempotent(s: string)
    ensures Fold(Fold(s)) == Fold(s)
    ensures TextMatches(Some(Fold(s)), s)
  {
    var t := Trim(s);
    var u := LowerCase(t);
    TrimIdempotent(s);
    if |t| > 0 {
      assert !IsSpace(u[0]) && !IsSpace(u[|u| - 1]);
      TrimmedAlready(u);
    } else {
      assert u == [];
    }
    assert LowerCase(u) == u;
  }

  /** A capitalised name with surrounding white space reaches the stored one. */
  lemma FoldExample()
    ensures Fold(" Ann\t") == "ann"
    ensures TextMatches(Some("ann"), " Ann\t")
  {
    assert TrimStart(" Ann\t") == TrimStart("Ann\t") == "Ann\t";
    assert TrimEnd("Ann\t") == TrimEnd("Ann") == "Ann";
    assert LowerCase("Ann") == "ann";
    assert TrimStart("ann") == "ann" && TrimEnd("ann") == "ann";
  }

  /** Trimming leaves nothing to trim: the result starts and ends with a character other
      than white space. */
  lemma {:induction false} TrimIdempotent(s: string)
    ensures var t := Trim(s); |t| > 0 ==> !IsSpace(t[0]) && !IsSpace(t[|t| - 1])
  {
    var a := TrimStart(s);
    TrimEndPrefix(a);
  }

  lemma {:induction false} TrimEndPrefix(s: string)
    ensures var t := TrimEnd(s); t == s[..|t|]
  {
    if |s| > 0 && IsSpace(s[|s| - 1]) {
      TrimEndPrefix(s[..|s| - 1]);
    }
  }

  /** The schema default of `failedOtpAttempt`. */
  const DefaultFailedOtpAttempt := 400

  /** A new user document with the schema defaults. The `lastUsed`/`lastSync` defaults
      are a `Date` built once when the schema is loaded (`loadedAt`), not per document. */
  function NewUser(id: string, name: string, username: string, email: string, phone: real,
                   password: string, otp: string, createdAt: int, loadedAt: int): (p: Principal)
    ensures p.role == User && p.status == Active && !p.isDeleted && !p.passwordChanged
    ensures p.failedOtpAttempt == 400 && p.failedOtpVerifyAt.None? && p.otpSentedAt.None?
    ensures p.code.None? && p.password == Plain(password) && p.otp == Plain(otp)
    ensures p.lastUsed == loadedAt && p.lastSync == loadedAt && !p.resetPasswordAccess
    ensures p.username == Some(Fold(username)) && p.email == Some(Fold(email))
  {
    Principal(id, None, name, Some(Fold(username)), Some(Fold(email)), Some(phone), User, Active,
              Plain(password), None, false, None, false, Plain(otp), None, None,
              DefaultFailedOtpAttempt, loadedAt, loadedAt, false, None, createdAt)
  }

  /** The `phone` condition of a lookup. The path is a Number, so the query text is cast
      with `Number(text)`; the empty string casts to null, which matches a document without
      a phone. */
  predicate PhoneMatches(p: Principal, query: string)
  {
    if query == "" then p.phone.None? else ToNumber(query).Finite? && p.phone == Some(ToNumber(query).value)
  }

  /** A save writes the document over the stored one with the same id. */
  function Put(store: seq<Principal>, p: Principal): (r: seq<Principal>)
    ensures |r| == |store|
    ensures forall i :: 0 <= i < |store| ==> r[i] == (if store[i].id == p.id then p else store[i])
  {
    seq(|store|, i requires 0 <= i < |store| => if store[i].id == p.id then p else store[i])
  }

  /** The code field of the newest document, as the hook's lookup finds it. */
  function Newest(store: seq<Principal>): (r: Option<Option<string>>)
    ensures r.None? <==> |store| == 0
    ensures r.Some? ==> r.value == store[|store| - 1].code
  {
    if |store| == 0 then None else Some(store[|store| - 1].code)
  }

  /** The pre-save hook. A secret is "modified" exactly when it holds a plaintext assigned
      since the last save. If neither is, the hook returns at once, before numbering. Each
      modified secret is hashed; then a new document is numbered from the newest one. */
  function PreSave(doc: Principal, isNew: bool, store: seq<Principal>, salt: nat): (r: Settle<Principal>)
    ensures !r.NeverSettles?
    ensures !doc.password.Plain? && !doc.otp.Plain? ==> r == Resolves(doc)
    ensures r.Resolves? ==> r.value.password.Hashed? || (!doc.password.Plain? && !doc.otp.Plain?)
    ensures r.Resolves? ==> forall q :: Compare(q, r.value.password) <==>
      (doc.password.Plain? && q == doc.password.text) || Compare(q, doc.password)
    ensures r.Resolves? ==> forall q :: Compare(q, r.value.otp) <==>
      (doc.otp.Plain? && q == doc.otp.text) || Compare(q, doc.otp)
    ensures r.Resolves? && (!isNew || (!doc.password.Plain? && !doc.otp.Plain?)) ==> r.value.code == doc.code
    ensures r.Rejects? <==> isNew && (doc.password.Plain? || doc.otp.Plain?) && Newest(store) == Some(None)
    ensures r.Resolves? ==> r.value.(password := doc.password, otp := doc.otp, code := doc.code) == doc
  {
    if !doc.password.Plain? && !doc.otp.Plain? then Resolves(doc)
    else
      var hashed := doc.(password := HashIfAssigned(doc.password, salt), otp := HashIfAssigned(doc.otp, salt));
      if !isNew then Resolves(hashed)
      else
        var next := NextCode(UserPrefix, Newest(store));
        if next.Resolves? then Resolves(hashed.(code := Some(next.value))) else Rejects(MissingCode)
  }

  /** `save()` of a document already in the collection: the hook cannot fail for it. */
  function SaveExisting(store: seq<Principal>, doc: Principal, salt: nat): (r: seq<Principal>)
    ensures |r| == |store|
    ensures forall i :: 0 <= i < |store| && store[i].id != doc.id ==> r[i] == store[i]
  {
    var saved := PreSave(doc, false, store, salt);
    Put(store, if saved.Resolves? then saved.value else doc)
  }

  /** The document as the hook leaves an existing one: freshly assigned secrets hashed. */
  function Stored(doc: Principal, salt: nat): (r: Principal)
    ensures r.password.Hashed? || !doc.password.Plain?
    ensures r.(password := doc.password, otp := doc.otp) == doc
  {
    doc.(password := HashIfAssigned(doc.password, salt), otp := HashIfAssigned(doc.otp, salt))
  }

  lemma SaveExistingStores(store: seq<Principal>, doc: Principal, salt: nat)
    ensures SaveExisting(store, doc, salt) == Put(store, Stored(doc, salt))
  {
  }

  /** `matchPasswords(candidate)` */
  predicate MatchPasswords(doc: Principal, candidate: string)
  {
    Compare(candidate, doc.password)
  }

  /** `matchOTP(candidate)` */
  predicate MatchOTP(doc: Principal, candidate: string)
  {
    Compare(candidate, doc.otp)
  }

  /** `changePassword(password)`, as saved: the old hash becomes `lastPassword`, the new
      password is the only one that matches, and the change is flagged and stamped. */
  function ChangePassword(doc: Principal, password: string, now: int, salt: nat): (r: Principal)
    requires doc.password.Hashed? && doc.otp.Hashed?
    ensures forall q :: MatchPasswords(r, q) <==> q == password
    ensures r.lastPassword == Some(doc.password)
    ensures r.passwordChanged && r.passwordChangedAt == Some(now)
    ensures r.(password := doc.password, lastPassword := doc.lastPassword,
               passwordChanged := doc.passwordChanged, passwordChangedAt := doc.passwordChangedAt) == doc
  {
    Stored(doc.(lastPassword := Some(doc.password), password := Plain(password),
                passwordChanged := true, passwordChangedAt := Some(now)), salt)
  }

  /** `resetPassword()`, as saved, with the generated password as a parameter: like
      `changePassword`, and the reset permission is withdrawn. Returns the new plaintext. */
  function ResetPassword(doc: Principal, generated: string, now: int, salt: nat): (r: (Principal, string))
    requires doc.password.Hashed? && doc.otp.Hashed?
    ensures r.1 == generated
    ensures forall q :: MatchPasswords(r.0, q) <==> q == generated
    ensures r.0.lastPassword == Some(doc.password) && !r.0.resetPasswordAccess
    ensures r.0.passwordChanged && r.0.passwordChangedAt == Some(now)
    ensures r.0.(password := doc.password, lastPassword := doc.lastPassword, resetPasswordAccess := doc.resetPasswordAccess,
                 passwordChanged := doc.passwordChanged, passwordChangedAt := doc.passwordChangedAt) == doc
  {
    (Stored(doc.(lastPassword := Some(doc.password), password := Plain(generated), resetPasswordAccess := false,
                 passwordChanged := true, passwordChangedAt := Some(now)), salt), generated)
  }

  /** `setOTP()`, as saved, with the generated code as a parameter: only the new code
      matches from now on, and the sending time is stamped. Returns the plaintext code. */
  function SetOTP(doc: Principal, generated: string, now: int, salt: nat): (r: (Principal, string))
    requires doc.password.Hashed? && doc.otp.Hashed?
    ensures r.1 == generated
    ensures forall q :: MatchOTP(r.0, q) <==> q == generated
    ensures r.0.otpSentedAt == Some(now)
    ensures r.0.(otp := doc.otp, otpSentedAt := doc.otpSentedAt) == doc
  {
    (Stored(doc.(otp := Plain(generated), otpSentedAt := Some(now)), salt), generated)
  }

  /** A document as it is read back: both secrets hashed. */
  predicate Settled(doc: Principal)
  {
    doc.password.Hashed? && doc.otp.Hashed?
  }

  predicate AllSettled(store: seq<Principal>)
  {
    forall i :: 0 <= i < |store| ==> Settled(store[i])
  }

  /** Saving a new user into a collection whose newest document has the code `USR<n>`
      numbers it `USR<n+1>` and hashes its password, so exactly that password matches. */
  lemma {:induction false} NewUserIsNumbered(store: seq<Principal>, p: Principal, n: int, salt: nat)
    requires |store| > 0 && store[|store| - 1].code == Some(UserPrefix + Numbers.IntToString(n))
    requires p.password.Plain?
    ensures PreSave(p, true, store, salt).Resolves?
    ensures PreSave(p, true, store, salt).value.code == Some(UserPrefix + Numbers.IntToString(n + 1))
    ensures forall q :: MatchPasswords(PreSave(p, true, store, salt).value, q) <==> q == p.password.text
  {
    NextCodeSucceeds(UserPrefix, n);
  }
}
