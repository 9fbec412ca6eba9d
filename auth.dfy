/** The authentication service of auth.go: the user lifecycle (create, activate,
    change, forget and reset a password), the Login decision with its three token
    types, the TOTP second factor with backup codes, and the field-merging
    UpdateUser. It works on the store of AuthStore and draws its randomness,
    salts and clock readings from parameters. */
module Auth {
  import opened AuthModels
  import opened AuthStore

  /** The alphabet of one-time passwords and backup codes: 56 characters,
      without the look-alikes 0, O, I, i, l and o. */
  const Lower: string := "abcdefghjkmnpqrstuvwxyz"
  const Upper: string := "ABCDEFGHJKLMNPQRSTUVWXYZ"
  const Digits: string := "123456789"
  const Charset: string := Lower + Upper + Digits

  /** One draw of crypto/rand: an index into the charset. */
  type CharIndex = i: int | 0 <= i < 56

  /** The characters left out of the alphabet because they are easily confused. */
  predicate LookAlike(c: char)
  {
    c == '0' || c == 'O' || c == 'I' || c == 'i' || c == 'l' || c == 'o'
  }

  lemma CharsetShape()
    ensures |Charset| == 56
    ensures forall i :: 0 <= i < |Charset| ==> !LookAlike(Charset[i])
  {
    assert forall i :: 0 <= i < |Lower| ==> 'a' <= Lower[i] <= 'z' && !LookAlike(Lower[i]);
  }

  /** The string the draws `d` spell, one charset character per draw. */
  function Spelled(d: seq<CharIndex>): (r: string)
    ensures |r| == |d|
    ensures forall i :: 0 <= i < |d| ==> r[i] == Charset[d[i]]
  {
    seq(|d|, i requires 0 <= i < |d| => Charset[d[i]])
  }

  /** No character of a generated password is one of the look-alikes. */
  lemma SpelledAvoidsLookAlikes(d: seq<CharIndex>)
    ensures forall i :: 0 <= i < |d| ==> Spelled(d)[i] in Charset && !LookAlike(Spelled(d)[i])
  {
    CharsetShape();
  }

  /** generateRandomPassword(length): draws `length` indices and writes the
      charset character of each, in order. */
  method GenerateRandomPassword(length: nat, draws: seq<CharIndex>) returns (password: string)
    requires |draws| >= length
    ensures password == Spelled(draws[..length])
  {
    var b := "";
    var i := 0;
    while i < length
      invariant 0 <= i <= length
      invariant |b| == i
      invariant forall k :: 0 <= k < i ==> b[k] == Charset[draws[k]]
    {
      b := b + [Charset[draws[i]]];
      i := i + 1;
    }
    password := b;
  }

  /** The eight backup codes that 64 draws spell, eight draws per code. */
  function BackupCodesFrom(draws: seq<CharIndex>): (codes: seq<string>)
    requires |draws| >= 64
    ensures |codes| == 8
    ensures forall i :: 0 <= i < 8 ==> |codes[i]| == 8
  {
    seq(8, i requires 0 <= i < 8 => Spelled(draws[8 * i..8 * i + 8]))
  }

  /** The hashes of `codes`, each with its own salt: `salt0`, `salt0 + 1`, ... */
  function HashesFrom(codes: seq<string>, salt0: nat): (hashes: seq<Secret>)
    ensures |hashes| == |codes|
    ensures forall i :: 0 <= i < |codes| ==> Matches(hashes[i], codes[i])
  {
    seq(|codes|, i requires 0 <= i < |codes| => Hash(salt0 + i, codes[i]))
  }

  /** The loop of GenerateBackupCodes: eight codes and their hashes, appended
      pairwise, hashing with the salts from `salt0` on. */
  method DrawBackupCodes(draws: seq<CharIndex>, salt0: nat) returns (codes: seq<string>, hashes: seq<Secret>)
    requires |draws| >= 64
    ensures codes == BackupCodesFrom(draws)
    ensures hashes == HashesFrom(codes, salt0)
  {
    codes, hashes := [], [];
    var i := 0;
    while i < 8
      invariant 0 <= i <= 8
      invariant |codes| == i && |hashes| == i
      invariant forall k :: 0 <= k < i ==> codes[k] == Spelled(draws[8 * k..8 * k + 8])
      invariant forall k :: 0 <= k < i ==> hashes[k] == Hash(salt0 + k, codes[k])
    {
      var code := GenerateRandomPassword(8, draws[8 * i..]);
      assert draws[8 * i..][..8] == draws[8 * i..8 * i + 8];
      codes := codes + [code];
      hashes := hashes + [Hash(salt0 + i, code)];
      i := i + 1;
    }
  }

  /** Some stored backup-code hash matches the code. */
  predicate AnyMatch(codes: seq<Secret>, code: string)
  {
    exists i :: 0 <= i < |codes| && Matches(codes[i], code)
  }

  /** What the inner loop of checkBackupCodes keeps: entry k survives unless
      it equals the fresh hash of `code` drawn, with salt `salt0 + k`, for it. */
  function KeepUnequal(codes: seq<Secret>, code: string, salt0: nat): (r: seq<Secret>)
  {
    if codes == [] then []
    else
      var n := |codes| - 1;
      KeepUnequal(codes[..n], code, salt0) + (if codes[n] != Hash(salt0 + n, code) then [codes[n]] else [])
  }

  /** `a` is `b` with some entries left out, the rest in their order. */
  ghost predicate Sublist<T>(a: seq<T>, b: seq<T>)
    decreases |b|
  {
    if a == [] then true
    else if b == [] then false
    else (a[|a| - 1] == b[|b| - 1] && Sublist(a[..|a| - 1], b[..|b| - 1])) || Sublist(a, b[..|b| - 1])
  }

  /** The rebuilt list is an order-preserving sublist of the stored one. */
  lemma {:induction false} KeepUnequalIsSublist(codes: seq<Secret>, code: string, salt0: nat)
    ensures Sublist(KeepUnequal(codes, code, salt0), codes)
  {
    if codes != [] {
      var n := |codes| - 1;
      KeepUnequalIsSublist(codes[..n], code, salt0);
      var prefix := KeepUnequal(codes[..n], code, salt0);
      if codes[n] != Hash(salt0 + n, code) {
        var r := prefix + [codes[n]];
        assert r[..|r| - 1] == prefix;
        assert codes[..n] == codes[..|codes| - 1];
      } else {
        assert KeepUnequal(codes, code, salt0) == prefix;
        SublistOfEmpty(prefix, codes);
      }
    }
  }

  /** Helper for the case where the last entry is left out. */
  lemma SublistOfEmpty<T>(a: seq<T>, b: seq<T>)
    requires b != [] && Sublist(a, b[..|b| - 1])
    ensures Sublist(a, b)
  {
  }

  /** Hashes drawn with a salt at or above `salt0` differ from every hash
      drawn before it, so the rebuild leaves a list of older hashes whole:
      checkBackupCodes removes nothing. */
  lemma {:induction false} KeepUnequalKeepsOlder(codes: seq<Secret>, code: string, salt0: nat)
    requires forall i :: 0 <= i < |codes| ==> SaltBelow(codes[i], salt0)
    ensures KeepUnequal(codes, code, salt0) == codes
  {
    if codes != [] {
      var n := |codes| - 1;
      KeepUnequalKeepsOlder(codes[..n], code, salt0);
      assert codes[n] != Hash(salt0 + n, code);
      assert codes[..n] + [codes[n]] == codes;
    }
  }

  /** checkBackupCodes on the stored list: find the first hash matching `code`;
      on a match, rebuild the list, hashing `code` afresh for every entry and
      keeping the entries unequal to that hash. Returns the salt counter after
      the hashing it did. */
  method ScanBackupCodes(codes: seq<Secret>, code: string, salt0: nat)
    returns (found: bool, kept: seq<Secret>, saltAfter: nat)
    ensures found <==> AnyMatch(codes, code)
    ensures !found ==> kept == codes && saltAfter == salt0
    ensures found ==> kept == KeepUnequal(codes, code, salt0) && saltAfter == salt0 + |codes|
  {
    var i := 0;
    while i < |codes|
      invariant 0 <= i <= |codes|
      invariant forall k :: 0 <= k < i ==> !Matches(codes[k], code)
    {
      if Matches(codes[i], code) {
        var newCodes: seq<Secret> := [];
        var j := 0;
        var salt := salt0;
        while j < |codes|
          invariant 0 <= j <= |codes|
          invariant salt == salt0 + j
          invariant newCodes == KeepUnequal(codes[..j], code, salt0)
        {
          var hashed := Hash(salt, code);
          salt := salt + 1;
          assert codes[..j + 1][..j] == codes[..j];
          if codes[j] != hashed {
            newCodes := newCodes + [codes[j]];
          }
          j := j + 1;
        }
        assert codes[..|codes|] == codes;
        return true, newCodes, salt;
      }
      i := i + 1;
    }
    return false, codes, salt0;
  }

  /** Lifetime of each token type: 720 hours for a LoginToken, 15 minutes
      for the other two. */
  function Lifetime(t: TokenType): (s: int)
    ensures s == if t == LoginToken then 2592000 else 900
  {
    if t == LoginToken then LongLived else ShortLived
  }

  /** The credential a password unlocks. Only the one-time password counts for
      a user who is not ACTIVE; for an ACTIVE user the permanent password is
      tried first and the one-time password second. */
  function CredentialType(u: User, password: string): (r: Option<TokenType>)
    ensures r == Some(ActivationToken) <==> u.state != ACTIVE && Matches(u.oneTimePassword, password)
    ensures r == Some(LoginToken) <==> u.state == ACTIVE && Matches(u.password, password)
    ensures r == Some(ResetToken) <==>
              u.state == ACTIVE && !Matches(u.password, password) && Matches(u.oneTimePassword, password)
  {
    if u.state != ACTIVE then
      if Matches(u.oneTimePassword, password) then Some(ActivationToken) else None
    else if Matches(u.password, password) then Some(LoginToken)
    else if Matches(u.oneTimePassword, password) then Some(ResetToken)
    else None
  }

  /** The second factor is satisfied: TOTP is off, or a code was given that is
      the current time-step code or matches a backup code. */
  predicate SecondFactor(u: User, code: string, codeValid: bool)
  {
    !u.totpActive || (code != "" && (codeValid || AnyMatch(u.backupCodes, code)))
  }

  /** What Login does once it has looked the user up. */
  datatype LoginStep =
    | Refuse(requires2FA: bool, error: Error)
    | Issue(tokenType: TokenType, viaBackupCode: bool)

  /** The decision of Login for the looked-up user `u`, where `codeValid` says
      whether `code` is the current time-step code of the user's secret. */
  function LoginDecision(u: Option<User>, password: string, code: string, codeValid: bool): (r: LoginStep)
    ensures u.None? ==> r == Refuse(false, CredentialsIncorrect)
    ensures r.Issue? <==>
              u.Some? && CredentialType(u.value, password).Some?
              && (u.value.state == ACTIVE ==> SecondFactor(u.value, code, codeValid))
    ensures r.Issue? ==> r.tokenType == CredentialType(u.value, password).value
    ensures r.Issue? && r.tokenType == ActivationToken ==> !r.viaBackupCode
    ensures r.Issue? && r.viaBackupCode ==>
              u.value.totpActive && code != "" && !codeValid && AnyMatch(u.value.backupCodes, code)
    ensures r.Issue? && u.Some? && u.value.state == ACTIVE && u.value.totpActive && !codeValid ==> r.viaBackupCode
    ensures r.Refuse? && r.requires2FA <==>
              u.Some? && u.value.state == ACTIVE && CredentialType(u.value, password).Some?
              && !SecondFactor(u.value, code, codeValid)
    ensures r.Refuse? && r.requires2FA ==> r.error == if code == "" then NoTOTPProvided else TOTPNotValid
    ensures r.Refuse? && !r.requires2FA ==> r.error == CredentialsIncorrect
  {
    if u.None? then Refuse(false, CredentialsIncorrect)
    else
      var user := u.value;
      match CredentialType(user, password)
      case None => Refuse(false, CredentialsIncorrect)
      case Some(t) =>
        if user.state != ACTIVE || !user.totpActive then Issue(t, false)
        else if code == "" then Refuse(true, NoTOTPProvided)
        else if codeValid then Issue(t, false)
        else if AnyMatch(user.backupCodes, code) then Issue(t, true)
        else Refuse(true, TOTPNotValid)
  }

  /** A user who is not ACTIVE gets an ActivationToken or nothing, and neither
      the TOTP code nor the second factor is consulted. */
  lemma InactiveLoginIgnoresTOTP(u: User, password: string, code1: string, code2: string, v1: bool, v2: bool)
    requires u.state != ACTIVE
    ensures LoginDecision(Some(u), password, code1, v1) == LoginDecision(Some(u), password, code2, v2)
    ensures LoginDecision(Some(u), password, code1, v1).Issue? ==>
              LoginDecision(Some(u), password, code1, v1) == Issue(ActivationToken, false)
  {
  }

  /** The record an accepted CreateUser request becomes: state NEW, no
      permanent password, the hashed one-time password, no TOTP. */
  function NewUser(req: CreateUserRequest, oneTimePassword: Secret, now: int): (u: User)
  {
    User("", req.firstName, req.lastName, req.username, NoHash, oneTimePassword, req.role, NEW,
         req.personnelNumber, req.vacationDaysPerYear, req.targetHoursPerWeek,
         req.maximumHoursPerWeek, "", false, [], now, now, None)
  }

  /** The `$set` of ActivateUser. */
  function Activated(u: User, password: Secret, now: int): (a: User)
  {
    u.(state := ACTIVE, password := password, oneTimePassword := NoHash, resetValidUntil := None, updatedAt := now)
  }

  /** The `$set` of ResetPassword. */
  function PasswordReset(u: User, password: Secret, now: int): (r: User)
  {
    u.(password := password, oneTimePassword := NoHash, resetValidUntil := None, updatedAt := now)
  }

  /** The one-time password a new user is mailed unlocks an ActivationToken and
      nothing else, whatever TOTP code comes with it. */
  lemma NewUserLogsInForActivation(req: CreateUserRequest, salt: nat, sent: string, password: string, code: string, v: bool)
    ensures LoginDecision(Some(NewUser(req, Hash(salt, sent), 0)), password, code, v) ==
              if password == sent then Issue(ActivationToken, false) else Refuse(false, CredentialsIncorrect)
  {
  }

  /** After activation the new password unlocks a LoginToken path, the old
      one-time password nothing, and a second activation is refused. */
  lemma ActivationIsOneWay(u: User, salt: nat, p: string, former: string, now: int)
    requires p != former
    ensures CredentialType(Activated(u, Hash(salt, p), now), p) == Some(LoginToken)
    ensures CredentialType(Activated(u, Hash(salt, p), now), former) == None
    ensures Activated(u, Hash(salt, p), now).state != NEW
  {
  }

  /** With both a permanent and a one-time password in place, each unlocks its
      own path: LoginToken for the first, ResetToken for the second. */
  lemma LoginPrecedence(u: User, permanent: string, oneTime: string)
    requires u.state == ACTIVE && permanent != oneTime
    requires Matches(u.password, permanent) && Matches(u.oneTimePassword, oneTime)
    ensures CredentialType(u, permanent) == Some(LoginToken)
    ensures CredentialType(u, oneTime) == Some(ResetToken)
  {
  }

  /** VerifyPassword: the permanent password hash matches. */
  function VerifyPassword(u: User, password: string): (r: Outcome)
    ensures r.Pass? <==> Matches(u.password, password)
    ensures r.Fail? ==> r.error == CredentialsIncorrect
    ensures u.password.NoHash? ==> r.Fail?
  {
    if Matches(u.password, password) then Pass else Fail(CredentialsIncorrect)
  }

  /** The field merge of UpdateUser: a non-empty string or non-zero number
      replaces the stored value; zero values leave it as it is. */
  function MergeProfile(u: User, username: string, firstName: string, lastName: string, role: string,
                        personnelNumber: string, vacationDaysPerYear: int,
                        targetHoursPerWeek: real, maximumHoursPerWeek: real): (m: User)
    ensures m.(username := u.username, firstName := u.firstName, lastName := u.lastName, role := u.role,
               personnelNumber := u.personnelNumber, vacationDaysPerYear := u.vacationDaysPerYear,
               targetHoursPerWeek := u.targetHoursPerWeek, maximumHoursPerWeek := u.maximumHoursPerWeek) == u
    ensures m.username == if username != "" then username else u.username
    ensures m.firstName == if firstName != "" then firstName else u.firstName
    ensures m.lastName == if lastName != "" then lastName else u.lastName
    ensures m.role == if role != "" then role else u.role
    ensures m.personnelNumber == if personnelNumber != "" then personnelNumber else u.personnelNumber
    ensures m.vacationDaysPerYear == if vacationDaysPerYear != 0 then vacationDaysPerYear else u.vacationDaysPerYear
    ensures m.targetHoursPerWeek == if targetHoursPerWeek != 0.0 then targetHoursPerWeek else u.targetHoursPerWeek
    ensures m.maximumHoursPerWeek == if maximumHoursPerWeek != 0.0 then maximumHoursPerWeek else u.maximumHoursPerWeek
  {
    u.(username := if username != "" then username else u.username,
       firstName := if firstName != "" then firstName else u.firstName,
       lastName := if lastName != "" then lastName else u.lastName,
       role := if role != "" then role else u.role,
       personnelNumber := if personnelNumber != "" then personnelNumber else u.personnelNumber,
       vacationDaysPerYear := if vacationDaysPerYear != 0 then vacationDaysPerYear else u.vacationDaysPerYear,
       targetHoursPerWeek := if targetHoursPerWeek != 0.0 then targetHoursPerWeek else u.targetHoursPerWeek,
       maximumHoursPerWeek := if maximumHoursPerWeek != 0.0 then maximumHoursPerWeek else u.maximumHoursPerWeek)
  }

  /** The merge changes the record exactly when some non-empty or non-zero
      argument differs from the stored field, which is when the store can
      report the update as made. */
  lemma MergeProfileChanges(u: User, username: string, firstName: string, lastName: string, role: string,
                            personnelNumber: string, vacationDaysPerYear: int,
                            targetHoursPerWeek: real, maximumHoursPerWeek: real)
    ensures MergeProfile(u, username, firstName, lastName, role, personnelNumber,
                         vacationDaysPerYear, targetHoursPerWeek, maximumHoursPerWeek) != u <==>
            || (username != "" && username != u.username)
            || (firstName != "" && firstName != u.firstName)
            || (lastName != "" && lastName != u.lastName)
            || (role != "" && role != u.role)
            || (personnelNumber != "" && personnelNumber != u.personnelNumber)
            || (vacationDaysPerYear != 0 && vacationDaysPerYear != u.vacationDaysPerYear)
            || (targetHoursPerWeek != 0.0 && targetHoursPerWeek != u.targetHoursPerWeek)
            || (maximumHoursPerWeek != 0.0 && maximumHoursPerWeek != u.maximumHoursPerWeek)
  {
  }

  /** Merging a request twice is merging it once, and an empty request merges
      to the record itself (which the store then reports as not updated). */
  lemma MergeProfileIdempotent(u: User, username: string, firstName: string, lastName: string, role: string,
                               personnelNumber: string, vacationDaysPerYear: int,
                               targetHoursPerWeek: real, maximumHoursPerWeek: real)
    ensures var m := MergeProfile(u, username, firstName, lastName, role, personnelNumber,
                                  vacationDaysPerYear, targetHoursPerWeek, maximumHoursPerWeek);
            MergeProfile(m, username, firstName, lastName, role, personnelNumber,
                         vacationDaysPerYear, targetHoursPerWeek, maximumHoursPerWeek) == m
    ensures MergeProfile(u, "", "", "", "", "", 0, 0.0, 0.0) == u
  {
  }

  /** What generateTOTPKey returns: the secret with its issuer and account. */
  datatype TotpKey = TotpKey(issuer: string, accountName: string, secret: string)

  /** A salt counter that only grows keeps every stored hash below it. */
  lemma StoredSaltsGrow(users: map<string, User>, n: nat, m: nat)
    requires forall k :: k in users ==> SaltsBelow(users[k], n)
    requires n <= m
    ensures forall k :: k in users ==> SaltsBelow(users[k], m)
  {
    forall k | k in users ensures SaltsBelow(users[k], m) {
      SaltsBelowMonotone(users[k], n, m);
    }
  }

  /** Storing a record whose hashes are below the counter under any id keeps
      every stored hash below it. */
  lemma StoredKeepsSalts(users: map<string, User>, k: string, u: User, n: nat, updated: map<string, User>)
    requires forall j :: j in users ==> SaltsBelow(users[j], n)
    requires SaltsBelow(u, n) && updated == users[k := u]
    ensures forall j :: j in updated ==> SaltsBelow(updated[j], n)
  {
  }

  /** Replacing a record by one whose hashes are below the counter keeps
      every stored hash below it. */
  lemma ReplacedKeepsSalts(users: map<string, User>, u: User, n: nat)
    requires forall k :: k in users ==> SaltsBelow(users[k], n)
    requires SaltsBelow(u, n)
    ensures forall k :: k in Replaced(users, u) ==> SaltsBelow(Replaced(users, u)[k], n)
  {
  }

  /** The service over one store. `nextSalt` stands for bcrypt's fresh salts:
      every hash is drawn with the current value, which then grows. `validate`
      is totp.Validate(code, secret) at a clock reading. */
  class AuthService {
    const db: AuthDb
    var nextSalt: nat
    const validate: (string, string, int) -> bool
    const issuer: string

    ghost predicate Valid()
      reads this, db
    {
      && db.Valid()
      && forall k :: k in db.users ==> SaltsBelow(db.users[k], nextSalt)
    }

    /** A user struct this request read from the store, possibly changed since
        by this service: every hash in it was drawn already. */
    ghost predicate Issued(u: User)
      reads this
    {
      SaltsBelow(u, nextSalt)
    }

    constructor (validate: (string, string, int) -> bool, issuer: string)
      ensures Valid() && fresh(db)
      ensures db.users == map[] && db.order == [] && db.tokens == []
      ensures this.validate == validate && this.issuer == issuer
    {
      db := new AuthDb();
      nextSalt := 0;
      this.validate := validate;
      this.issuer := issuer;
    }

    /** HashPassword: bcrypt with a fresh salt. */
    method HashPassword(password: string) returns (h: Secret)
      requires Valid()
      modifies this`nextSalt
      ensures Valid()
      ensures h == Hash(old(nextSalt), password) && nextSalt == old(nextSalt) + 1
    {
      h := Hash(nextSalt, password);
      nextSalt := nextSalt + 1;
      StoredSaltsGrow(db.users, nextSalt - 1, nextSalt);
    }

    /** CreateUser: refuses a username the store already has; otherwise stores
        a NEW user with the hash of a fresh eight-character one-time password
        and mails that password to the username. The mail's outcome is ignored. */
    method CreateUser(req: CreateUserRequest, draws: seq<CharIndex>, newId: string, now: int)
      returns (err: Outcome, mail: Option<Mail>)
      requires Valid() && |draws| >= 8 && newId != "" && newId !in db.users
      modifies this, db
      ensures Valid()
      ensures old(UserByUsername(db.order, db.users, req.username)).Some? ==>
                err == Fail(UserExists) && mail.None? && unchanged(this, db)
      ensures old(UserByUsername(db.order, db.users, req.username)).None? ==>
                && err == Pass
                && db.users == old(db.users)[newId := NewUser(req, Hash(old(nextSalt), Spelled(draws[..8])), now).(id := newId)]
                && db.order == old(db.order) + [newId] && db.tokens == old(db.tokens)
                && nextSalt == old(nextSalt) + 1
                && mail == Some(Mail(req.username, "New User", "Your new password is: " + Spelled(draws[..8])))
    {
      var existing := UserByUsername(db.order, db.users, req.username);
      if existing.Some? {
        return Fail(UserExists), None;
      }
      var password := GenerateRandomPassword(8, draws);
      var hashed := HashPassword(password);
      db.CreateUser(NewUser(req, hashed, now), newId);
      mail := Some(Mail(req.username, "New User", "Your new password is: " + password));
      err := Pass;
    }

    /** ActivateUser: only a NEW user is activated. The `$set` by username then
        makes the first user of that name ACTIVE with the new password hash and
        clears its one-time password and reset deadline. */
    method ActivateUser(user: User, newPassword: string, now: int) returns (err: Outcome)
      requires Valid()
      modifies this, db
      ensures Valid()
      ensures user.state != NEW ==> err == Fail(AlreadyActivated) && unchanged(this, db)
      ensures user.state == NEW ==>
                var k := old(IdByUsername(db.order, db.users, user.username));
                && err == Pass && nextSalt == old(nextSalt) + 1
                && db.users == (if k.None? then old(db.users)
                                else old(db.users)[k.value := Activated(old(db.users)[k.value], Hash(old(nextSalt), newPassword), now)])
                && db.order == old(db.order) && db.tokens == old(db.tokens)
    {
      if user.state != NEW {
        return Fail(AlreadyActivated);
      }
      var hashed := HashPassword(newPassword);
      var k := IdByUsername(db.order, db.users, user.username);
      if k.Some? {
        var updated := Activated(db.users[k.value], hashed, now);
        StoredKeepsSalts(db.users, k.value, updated, nextSalt, db.users[k.value := updated]);
        db.ReplaceRecord(updated);
      }
      err := Pass;
    }

    /** ChangePassword: the first user with that username must exist and be
        ACTIVE; its password is replaced and every token whose user_id is its
        id is revoked. */
    method ChangePassword(username: string, newPassword: string, now: int) returns (err: Outcome)
      requires Valid()
      modifies this, db
      ensures Valid()
      ensures var k := old(IdByUsername(db.order, db.users, username));
              && (k.None? ==> err == Fail(CredentialsIncorrect) && unchanged(this, db))
              && (k.Some? && old(db.users[k.value]).state != ACTIVE ==> err == Fail(NotActive) && unchanged(this, db))
              && (k.Some? && old(db.users[k.value]).state == ACTIVE ==>
                    && err == Pass && nextSalt == old(nextSalt) + 1
                    && db.users == old(db.users)[k.value := old(db.users[k.value]).(password := Hash(old(nextSalt), newPassword), updatedAt := now)]
                    && db.tokens == RemoveTokensOf(old(db.tokens), k.value)
                    && db.order == old(db.order))
    {
      var k := IdByUsername(db.order, db.users, username);
      if k.None? {
        return Fail(CredentialsIncorrect);
      }
      var user := db.users[k.value];
      if user.state != ACTIVE {
        return Fail(NotActive);
      }
      var hashed := HashPassword(newPassword);
      var updated := user.(password := hashed, updatedAt := now);
      StoredKeepsSalts(db.users, k.value, updated, nextSalt, db.users[k.value := updated]);
      db.ReplaceRecord(updated);
      db.DeleteTokensByUserId(user.id);
      err := Pass;
    }

    /** ResetPassword: the user must be ACTIVE and its reset deadline must not
        lie before `now` (an unset deadline has passed). The first user of that
        username gets the new password, loses the one-time password and the
        deadline, and the tokens whose user_id equals the USERNAME are revoked. */
    method ResetPassword(user: User, newPassword: string, now: int) returns (err: Outcome)
      requires Valid()
      modifies this, db
      ensures Valid()
      ensures user.state != ACTIVE ==> err == Fail(NotActive) && unchanged(this, db)
      ensures user.state == ACTIVE && DeadlinePassed(user.resetValidUntil, now) ==>
                err == Fail(ResetNotValid) && unchanged(this, db)
      ensures user.state == ACTIVE && !DeadlinePassed(user.resetValidUntil, now) ==>
                var k := old(IdByUsername(db.order, db.users, user.username));
                && err == Pass && nextSalt == old(nextSalt) + 1
                && db.users == (if k.None? then old(db.users)
                                else old(db.users)[k.value := PasswordReset(old(db.users)[k.value], Hash(old(nextSalt), newPassword), now)])
                && db.tokens == RemoveTokensOf(old(db.tokens), user.username)
                && db.order == old(db.order)
    {
      if user.state != ACTIVE {
        return Fail(NotActive);
      }
      if DeadlinePassed(user.resetValidUntil, now) {
        return Fail(ResetNotValid);
      }
      var hashed := HashPassword(newPassword);
      var k := IdByUsername(db.order, db.users, user.username);
      if k.Some? {
        var updated := PasswordReset(db.users[k.value], hashed, now);
        StoredKeepsSalts(db.users, k.value, updated, nextSalt, db.users[k.value := updated]);
        db.ReplaceRecord(updated);
      }
      db.DeleteTokensByUserId(user.username);
      err := Pass;
    }

    /** ForgotPassword: for an existing username, stores the hash of a fresh
        one-time password with a deadline 15 minutes ahead and mails the
        password. Permanent password and tokens stay. A failed mail is reported,
        after the store has changed. */
    method ForgotPassword(username: string, draws: seq<CharIndex>, now: int, delivered: bool)
      returns (err: Outcome, mail: Option<Mail>)
      requires Valid() && |draws| >= 8
      modifies this, db
      ensures Valid()
      ensures var k := old(IdByUsername(db.order, db.users, username));
              && (k.None? ==> err == Fail(CredentialsIncorrect) && mail.None? && unchanged(this, db))
              && (k.Some? ==>
                    && db.users == old(db.users)[k.value := old(db.users[k.value]).(oneTimePassword := Hash(old(nextSalt), Spelled(draws[..8])), resetValidUntil := Some(now + 900))]
                    && nextSalt == old(nextSalt) + 1
                    && db.tokens == old(db.tokens) && db.order == old(db.order)
                    && mail == Some(Mail(username, "Forgot Password", "Your new password is: " + Spelled(draws[..8])))
                    && err == if delivered then Pass else Fail(MailFailed))
    {
      var k := IdByUsername(db.order, db.users, username);
      if k.None? {
        return Fail(CredentialsIncorrect), None;
      }
      var password := GenerateRandomPassword(8, draws);
      var hashed := HashPassword(password);
      var deadline := now + ShortLived;
      var updated := db.users[k.value].(oneTimePassword := hashed, resetValidUntil := Some(deadline));
      StoredKeepsSalts(db.users, k.value, updated, nextSalt, db.users[k.value := updated]);
      db.ReplaceRecord(updated);
      mail := Some(Mail(username, "Forgot Password", "Your new password is: " + password));
      err := if delivered then Pass else Fail(MailFailed);
    }

    /** Login: looks the user up by username and follows LoginDecision. Every
        success writes exactly one token record, of the decided type, expiring
        after that type's lifetime. A success through a backup code writes it
        with an empty user_id, because checking the backup code blanked the
        Id of the struct Login goes on to use. */
    method Login(username: string, password: string, code: string, jwt: string, now: int)
      returns (token: Option<Token>, requires2FA: bool, err: Outcome)
      requires Valid()
      modifies this, db
      ensures Valid()
      ensures db.users == old(db.users) && db.order == old(db.order)
      ensures var s := old(UserByUsername(db.order, db.users, username));
              var d := LoginDecision(s, password, code, s.Some? && validate(code, s.value.totpSecret, now));
              && (d.Refuse? ==>
                    && token.None? && requires2FA == d.requires2FA && err == Fail(d.error)
                    && db.tokens == old(db.tokens) && nextSalt == old(nextSalt))
              && (d.Issue? ==>
                    && token == Some(Token(if d.viaBackupCode then "" else s.value.id, jwt, false, false,
                                           d.tokenType, now, now, now + Lifetime(d.tokenType)))
                    && !requires2FA && err == Pass
                    && db.tokens == old(db.tokens) + [token.value]
                    && nextSalt == old(nextSalt) + (if d.viaBackupCode then |s.value.backupCodes| else 0))
    {
      var s := UserByUsername(db.order, db.users, username);
      if s.None? {
        return None, false, Fail(CredentialsIncorrect);
      }
      var user := s.value;
      var tokenType := LoginToken;
      var expires := now + LongLived;
      if user.state != ACTIVE {
        tokenType := ActivationToken;
        expires := now + ShortLived;
        if !Matches(user.oneTimePassword, password) {
          return None, false, Fail(CredentialsIncorrect);
        }
      } else {
        if !Matches(user.password, password) {
          if Matches(user.oneTimePassword, password) {
            tokenType := ResetToken;
            expires := now + ShortLived;
          } else {
            return None, false, Fail(CredentialsIncorrect);
          }
        }
        if user.totpActive {
          if code == "" {
            return None, true, Fail(NoTOTPProvided);
          }
          ghost var k :| k in db.users && db.users[k] == user;
          var valid, verifyErr;
          valid, verifyErr, user := VerifyTOTP(user, code, now);
          if verifyErr.Fail? {
            return None, true, verifyErr;
          }
          if !valid {
            return None, true, Fail(TOTPNotValid);
          }
        }
      }
      var record := db.WriteTokenToDatabase(user.id, jwt, tokenType, expires, now);
      return Some(record), false, Pass;
    }

    /** Logout: the first user with that username must exist and be ACTIVE;
        then one token whose user_id is its id is deleted, the earliest, which
        need not be the token the request came with. */
    method Logout(username: string, token: string) returns (err: Outcome)
      requires Valid()
      modifies db
      ensures Valid()
      ensures var k := old(IdByUsername(db.order, db.users, username));
              && (k.None? ==> err == Fail(CredentialsIncorrect) && unchanged(db))
              && (k.Some? && old(db.users[k.value]).state != ACTIVE ==> err == Fail(NotActive) && unchanged(db))
              && (k.Some? && old(db.users[k.value]).state == ACTIVE ==>
                    err == Pass && db.tokens == RemoveFirstTokenOf(old(db.tokens), k.value)
                    && db.users == old(db.users) && db.order == old(db.order))
    {
      var k := IdByUsername(db.order, db.users, username);
      if k.None? {
        return Fail(CredentialsIncorrect);
      }
      var user := db.users[k.value];
      if user.state != ACTIVE {
        return Fail(NotActive);
      }
      db.DeleteTokenByUserId(user.id, token);
      err := Pass;
    }

    /** DeleteOwnUser and DeleteOtherUser, which share one body: delete by id. */
    method DeleteUser(userId: string) returns (err: Outcome)
      requires Valid()
      modifies db
      ensures Valid()
      ensures err == Pass
      ensures db.users == old(db.users) - {userId} && db.tokens == old(db.tokens)
    {
      db.DeleteUserById(userId);
      err := Pass;
    }

    /** GetOwnUser: the record stored under that id, without its credentials. */
    function GetOwnUser(userId: string): (r: Result<UserOutputAll>)
      reads db
      requires db.Valid()
      ensures r.Ok? <==> userId in db.users
      ensures r.Ok? ==> r.value == Summary(db.users[userId]) && r.value.id == userId
      ensures r.Err? ==> r.error == NoDocuments
    {
      match UserById(db.users, userId)
      case None => Err(NoDocuments)
      case Some(u) => Ok(Summary(u))
    }

    /** GenerateBackupCodes: eight fresh codes, their hashes put on the caller's
        struct, which UpdateUser then writes (its error is ignored) and whose Id
        it blanks. The plain codes are returned in the order of their hashes. */
    method GenerateBackupCodes(user: User, draws: seq<CharIndex>) returns (codes: seq<string>, caller: User)
      requires Valid() && Issued(user) && |draws| >= 64
      modifies this, db
      ensures Valid()
      ensures codes == BackupCodesFrom(draws)
      ensures caller == user.(backupCodes := HashesFrom(codes, old(nextSalt)), id := "")
      ensures forall i :: 0 <= i < 8 ==> Matches(caller.backupCodes[i], codes[i])
      ensures db.users == Replaced(old(db.users), user.(backupCodes := HashesFrom(codes, old(nextSalt))))
      ensures user.id in old(db.users) ==>
                db.users == old(db.users)[user.id := user.(backupCodes := HashesFrom(codes, old(nextSalt)))]
      ensures nextSalt == old(nextSalt) + 8
      ensures db.order == old(db.order) && db.tokens == old(db.tokens)
    {
      var hashes;
      var salt0 := nextSalt;
      codes, hashes := DrawBackupCodes(draws, nextSalt);
      if user.id in db.users {
        // fresh salts: the new list differs from the stored one at its first entry
        var stored := db.users[user.id].backupCodes;
        assert hashes[0].salt == salt0;
        assert stored != [] ==> SaltBelow(stored[0], salt0);
        assert stored != hashes;
      }
      nextSalt := nextSalt + 8;
      var updated := user.(backupCodes := hashes);
      StoredSaltsGrow(db.users, salt0, nextSalt);
      SaltsBelowMonotone(user, salt0, nextSalt);
      assert SaltsBelow(updated, nextSalt);
      ReplacedKeepsSalts(db.users, updated, nextSalt);
      var _, _ := db.UpdateUser(updated);
      caller := updated.(id := "");
    }

    /** GetTOTP: draws a secret for the username, regenerates the backup codes
        (which blanks the struct's Id), puts the secret on the struct and calls
        UpdateUser again. That second call targets the empty id and always
        fails, so GetTOTP always reports an error: the new backup codes are
        stored, the secret is not. */
    method GetTOTP(user: User, secret: string, draws: seq<CharIndex>)
      returns (key: Option<TotpKey>, codes: seq<string>, err: Outcome, caller: User)
      requires Valid() && Issued(user) && |draws| >= 64
      modifies this, db
      ensures Valid()
      ensures err == Fail(NotUpdated) && key.None? && codes == []
      ensures var hashes := HashesFrom(BackupCodesFrom(draws), old(nextSalt));
              && caller == user.(backupCodes := hashes, totpSecret := secret, totpActive := false, id := "")
              && db.users == Replaced(old(db.users), user.(backupCodes := hashes))
              && (user.id in old(db.users) ==> db.users == old(db.users)[user.id := user.(backupCodes := hashes)])
      ensures nextSalt == old(nextSalt) + 8
      ensures db.order == old(db.order) && db.tokens == old(db.tokens)
    {
      var generated := TotpKey(issuer, user.username, secret);
      var backupCodes, u := GenerateBackupCodes(user, draws);
      u := u.(totpSecret := generated.secret, totpActive := false);
      var _, updateErr := db.UpdateUser(u);
      caller := u.(id := "");
      if updateErr.Fail? {
        return None, [], updateErr, caller;
      }
      assert false;
      return Some(generated), backupCodes, Pass, caller;
    }

    /** checkBackupCodes: on a match, rebuilds the list against a fresh hash of
        the code, which no stored hash equals, so the list comes back whole;
        it writes the struct (blanking its Id; the store reports nothing
        modified and the error is ignored) and accepts the code. The matched
        code therefore stays usable. */
    method CheckBackupCodes(user: User, code: string) returns (found: bool, caller: User)
      requires Valid() && Issued(user)
      modifies this, db
      ensures Valid()
      ensures found <==> AnyMatch(user.backupCodes, code)
      ensures !found ==> caller == user && unchanged(this, db)
      ensures found ==> caller == user.(id := "") && nextSalt == old(nextSalt) + |user.backupCodes|
      ensures found ==> db.users == Replaced(old(db.users), user)
      ensures found && user.id in db.users ==> db.users[user.id].backupCodes == user.backupCodes
      ensures db.order == old(db.order) && db.tokens == old(db.tokens)
    {
      var kept, saltAfter;
      found, kept, saltAfter := ScanBackupCodes(user.backupCodes, code, nextSalt);
      if !found {
        return false, user;
      }
      KeepUnequalKeepsOlder(user.backupCodes, code, nextSalt);
      assert kept == user.backupCodes;
      StoredSaltsGrow(db.users, nextSalt, saltAfter);
      SaltsBelowMonotone(user, nextSalt, saltAfter);
      nextSalt := saltAfter;
      ReplacedKeepsSalts(db.users, user, nextSalt);
      var ignored;
      caller, ignored := db.UpdateUser(user);
    }

    /** ActivateTOTP: a valid time-step code sets the flag on the struct, which
        UpdateUser writes; on success the tokens whose user_id equals the
        USERNAME are revoked. An update that changes nothing (the flag was
        already set) is an error. */
    method ActivateTOTP(user: User, otp: string, now: int) returns (err: Outcome, caller: User)
      requires Valid() && Issued(user)
      modifies db
      ensures Valid()
      ensures !validate(otp, user.totpSecret, now) ==> err == Fail(OTPNotValid) && caller == user && unchanged(db)
      ensures validate(otp, user.totpSecret, now) ==>
                var on := user.(totpActive := true);
                && caller == on.(id := "")
                && (err.Pass? <==> user.id in old(db.users) && old(db.users)[user.id] != on)
                && (err.Fail? ==> err.error == NotUpdated && db.tokens == old(db.tokens))
                && (err.Pass? ==> db.tokens == RemoveTokensOf(old(db.tokens), user.username))
                && db.users == Replaced(old(db.users), on) && db.order == old(db.order)
    {
      if !validate(otp, user.totpSecret, now) {
        return Fail(OTPNotValid), user;
      }
      var on := user.(totpActive := true);
      caller, err := db.UpdateUser(on);
      if err.Fail? {
        return err, caller;
      }
      db.DeleteTokensByUserId(user.username);
    }

    /** DeactivateTOTP: clears flag, backup codes and secret on the struct and
        writes it; an update that changes nothing is an error. */
    method DeactivateTOTP(user: User) returns (err: Outcome, caller: User)
      requires Valid() && Issued(user)
      modifies db
      ensures Valid()
      ensures var off := user.(totpActive := false, backupCodes := [], totpSecret := "");
              && caller == off.(id := "")
              && (err.Pass? <==> user.id in old(db.users) && old(db.users)[user.id] != off)
              && (err.Fail? ==> err.error == NotUpdated)
              && db.users == Replaced(old(db.users), off)
              && db.order == old(db.order) && db.tokens == old(db.tokens)
    {
      var off := user.(totpActive := false, backupCodes := [], totpSecret := "");
      caller, err := db.UpdateUser(off);
    }

    /** VerifyTOTP: refuses a user who is not ACTIVE; accepts the current
        time-step code; otherwise falls back to the backup codes. */
    method VerifyTOTP(user: User, code: string, now: int) returns (valid: bool, err: Outcome, caller: User)
      requires Valid() && Issued(user)
      modifies this, db
      ensures Valid()
      ensures user.state != ACTIVE ==> !valid && err == Fail(NotActive) && caller == user && unchanged(this, db)
      ensures user.state == ACTIVE && validate(code, user.totpSecret, now) ==>
                valid && err == Pass && caller == user && unchanged(this, db)
      ensures user.state == ACTIVE && !validate(code, user.totpSecret, now) ==>
                && err == Pass && (valid <==> AnyMatch(user.backupCodes, code))
                && (!valid ==> caller == user && unchanged(this, db))
                && (valid ==> caller == user.(id := "") && nextSalt == old(nextSalt) + |user.backupCodes|
                              && db.users == Replaced(old(db.users), user))
                && db.order == old(db.order) && db.tokens == old(db.tokens)
    {
      if user.state != ACTIVE {
        return false, Fail(NotActive), user;
      }
      if validate(code, user.totpSecret, now) {
        return true, Pass, user;
      }
      valid, caller := CheckBackupCodes(user, code);
      err := Pass;
    }

    /** UpdateUser: loads the user by id, merges the non-empty fields and
        writes the result; a merge that changes nothing is reported as an
        error by the store. */
    method UpdateUser(userId: string, username: string, firstName: string, lastName: string, role: string,
                      personnelNumber: string, vacationDaysPerYear: int,
                      targetHoursPerWeek: real, maximumHoursPerWeek: real) returns (err: Outcome)
      requires Valid()
      modifies db
      ensures Valid()
      ensures userId !in old(db.users) ==> err == Fail(NoDocuments) && unchanged(db)
      ensures userId in old(db.users) ==>
                var m := MergeProfile(old(db.users[userId]), username, firstName, lastName, role,
                                      personnelNumber, vacationDaysPerYear, targetHoursPerWeek, maximumHoursPerWeek);
                && (err.Pass? <==> m != old(db.users[userId]))
                && (err.Fail? ==> err.error == NotUpdated)
                && db.users == old(db.users)[userId := m]
                && db.order == old(db.order) && db.tokens == old(db.tokens)
    {
      var found := UserById(db.users, userId);
      if found.None? {
        return Fail(NoDocuments);
      }
      var m := MergeProfile(found.value, username, firstName, lastName, role,
                            personnelNumber, vacationDaysPerYear, targetHoursPerWeek, maximumHoursPerWeek);
      var stripped;
      stripped, err := db.UpdateUser(m);
    }
  }

  /** Two logins with the same backup code both succeed: checking the code
      does not consume it. Both tokens carry the empty user_id. */
  method BackupCodeLoginTwice(svc: AuthService, username: string, password: string, code: string,
                              jwt1: string, jwt2: string, now: int)
    returns (first: Option<Token>, second: Option<Token>)
    requires svc.Valid()
    requires var s := UserByUsername(svc.db.order, svc.db.users, username);
             s.Some? && LoginDecision(s, password, code, svc.validate(code, s.value.totpSecret, now)).Issue?
             && LoginDecision(s, password, code, svc.validate(code, s.value.totpSecret, now)).viaBackupCode
    modifies svc, svc.db
    ensures first.Some? && second.Some?
    ensures first.value.userId == "" && second.value.userId == ""
    ensures first.value.tokenType == second.value.tokenType
  {
    var r1, e1, r2, e2;
    first, r1, e1 := svc.Login(username, password, code, jwt1, now);
    second, r2, e2 := svc.Login(username, password, code, jwt2, now);
  }
}
