/** The access gates of auth_middleware.go: the Authorization header parser and
    the three abort-on-first-failure chains that guard a request. Every abort
    answers HTTP 401; an admitted request carries the resolved user and token
    records in its context. */
module AuthGates {
  import opened AuthModels
  import opened AuthStore
  import opened Auth

  /** Occurrences of `c` in `s`. */
  function Count(s: string, c: char): (n: nat)
    ensures n <= |s|
  {
    if s == [] then 0 else (if s[0] == c then 1 else 0) + Count(s[1..], c)
  }

  /** strings.Split(s, sep) for a one-character separator: the pieces between
      the separators, empty pieces included; the empty string is one piece. */
  function Split(s: string, sep: char): (parts: seq<string>)
    ensures |parts| == Count(s, sep) + 1
    ensures forall i :: 0 <= i < |parts| ==> sep !in parts[i]
  {
    if s == [] then [""]
    else
      var rest := Split(s[1..], sep);
      if s[0] == sep then [""] + rest else [[s[0]] + rest[0]] + rest[1..]
  }

  /** strings.Join(parts, sep). */
  function Join(parts: seq<string>, sep: char): (s: string)
    requires |parts| >= 1
  {
    if |parts| == 1 then parts[0] else parts[0] + [sep] + Join(parts[1..], sep)
  }

  /** Splitting loses nothing: joining the pieces gives the string back. */
  lemma {:induction false} JoinSplit(s: string, sep: char)
    ensures Join(Split(s, sep), sep) == s
  {
    if s != [] {
      var rest := Split(s[1..], sep);
      JoinSplit(s[1..], sep);
      if s[0] == sep {
        assert ([""] + rest)[1..] == rest;
      } else {
        var parts := [[s[0]] + rest[0]] + rest[1..];
        if |rest| > 1 {
          assert parts[1..] == rest[1..];
        }
      }
    }
  }

  /** A string without the separator is one piece. */
  lemma {:induction false} SplitNoSeparator(s: string, sep: char)
    requires sep !in s
    ensures Split(s, sep) == [s]
  {
    if s != [] {
      SplitNoSeparator(s[1..], sep);
      assert [s[0]] + s[1..] == s;
    }
  }

  /** A separator-free prefix followed by the separator is the first piece. */
  lemma {:induction false} SplitAfterPrefix(a: string, b: string, sep: char)
    requires sep !in a
    ensures Split(a + [sep] + b, sep) == [a] + Split(b, sep)
  {
    var s := a + [sep] + b;
    if a == [] {
      assert s[1..] == b;
    } else {
      assert s[1..] == a[1..] + [sep] + b;
      SplitAfterPrefix(a[1..], b, sep);
      assert [a[0]] + a[1..] == a;
    }
  }

  /** ExtractToken: an empty header is a bad header; otherwise it must split
      on single spaces into exactly two parts, and the token is the second. */
  function ExtractToken(header: string): (r: Result<string>)
    ensures header == "" ==> r == Err(BadHeader)
    ensures header != "" ==> (r.Ok? <==> Count(header, ' ') == 1)
    ensures header != "" && r.Err? ==> r.error == MalformedHeader
    ensures r.Ok? ==> ' ' !in r.value && header == Split(header, ' ')[0] + " " + r.value
  {
    if header == "" then Err(BadHeader)
    else
      var parts := Split(header, ' ');
      if |parts| != 2 then Err(MalformedHeader)
      else
        JoinSplit(header, ' ');
        assert parts[1..] == [parts[1]];
        Ok(parts[1])
  }

  /** The scheme word is never checked: any space-free word, a space and a
      space-free token give that token. */
  lemma ExtractTokenAnyScheme(scheme: string, token: string)
    requires ' ' !in scheme && ' ' !in token
    ensures ExtractToken(scheme + " " + token) == Ok(token)
  {
    SplitAfterPrefix(scheme, token, ' ');
    SplitNoSeparator(token, ' ');
  }

  /** "Bearer " gives the empty token without error. */
  lemma EmptyTokenAccepted()
    ensures ExtractToken("Bearer ") == Ok("")
  {
    assert "Bearer " == "Bearer" + " " + "";
    ExtractTokenAnyScheme("Bearer", "");
  }

  /** A single word and a three-part header are malformed. */
  lemma WrongPartCountRefused()
    ensures ExtractToken("Bearer") == Err(MalformedHeader)
    ensures ExtractToken("Bearer a b") == Err(MalformedHeader)
  {
    SplitNoSeparator("Bearer", ' ');
    assert "Bearer a b" == "Bearer" + [' '] + ("a" + [' '] + "b");
    SplitAfterPrefix("Bearer", "a" + [' '] + "b", ' ');
    SplitAfterPrefix("a", "b", ' ');
    SplitNoSeparator("b", ' ');
  }

  /** What the gates leave in the request context: c.Set("user"), c.Set("token"). */
  datatype Context = Context(user: Option<User>, token: Option<Token>)

  /** c.Next() with the context, or c.AbortWithStatusJSON(401, error). */
  datatype GateResult = Next(ctx: Context) | Abort(error: Error)

  /** The check chain of AuthMiddleware(roleRequired) over the store tables:
      header, token lookup, expiry, user of the token, role. */
  function AuthCheck(users: map<string, User>, tokens: seq<Token>, header: string,
                     roleRequired: seq<string>, now: int): (r: GateResult)
    ensures ExtractToken(header).Err? ==> r == Abort(ExtractToken(header).error)
    ensures ExtractToken(header).Ok? && TokenByValue(tokens, ExtractToken(header).value).None? ==>
              r == Abort(NoDocuments)
    ensures r.Next? <==>
              && ExtractToken(header).Ok?
              && var t := TokenByValue(tokens, ExtractToken(header).value);
              && t.Some? && now <= t.value.expires
              && t.value.userId in users && users[t.value.userId].role in roleRequired
    ensures r.Next? ==>
              var t := TokenByValue(tokens, ExtractToken(header).value).value;
              r.ctx == Context(Some(users[t.userId]), Some(t))
    ensures r.Abort? && ExtractToken(header).Ok? && TokenByValue(tokens, ExtractToken(header).value).Some? ==>
              var t := TokenByValue(tokens, ExtractToken(header).value).value;
              r.error == if t.expires < now then TokenExpired
                         else if t.userId !in users then NoDocuments
                         else Unauthorized
  {
    match ExtractToken(header)
    case Err(e) => Abort(e)
    case Ok(jwt) =>
      match TokenByValue(tokens, jwt)
      case None => Abort(NoDocuments)
      case Some(t) =>
        if t.expires < now then Abort(TokenExpired)
        else
          match UserById(users, t.userId)
          case None => Abort(NoDocuments)
          case Some(u) =>
            if u.role !in roleRequired then Abort(Unauthorized)
            else Next(Context(Some(u), Some(t)))
  }

  /** Helper: predicates that agree pointwise on two sequences of the same
      length find the same first index. */
  lemma {:induction false} FirstIndexPointwise(s: seq<Token>, s': seq<Token>, p: Token -> bool)
    requires |s| == |s'| && forall j :: 0 <= j < |s| ==> p(s[j]) == p(s'[j])
    ensures FirstIndex(s, p) == FirstIndex(s', p)
  {
    if s != [] {
      FirstIndexPointwise(s[1..], s'[1..], p);
    }
  }

  /** The token type is never consulted: retyping a stored token record, say
      from ResetToken to LoginToken, changes no admission decision, so an
      ActivationToken or a ResetToken opens every route its user's role opens. */
  lemma TokenTypeIgnored(users: map<string, User>, tokens: seq<Token>, i: nat, tt: TokenType,
                         header: string, roleRequired: seq<string>, now: int)
    requires i < |tokens|
    ensures AuthCheck(users, tokens[i := tokens[i].(tokenType := tt)], header, roleRequired, now).Next? ==
            AuthCheck(users, tokens, header, roleRequired, now).Next?
  {
    var retyped := tokens[i := tokens[i].(tokenType := tt)];
    if ExtractToken(header).Ok? {
      var jwt := ExtractToken(header).value;
      var p := (t: Token) => t.token == jwt;
      FirstIndexPointwise(tokens, retyped, p);
      var f := FirstIndex(tokens, p);
      if f.Some? {
        assert TokenByValue(tokens, jwt) == Some(tokens[f.value]);
        assert TokenByValue(retyped, jwt) == Some(retyped[f.value]);
      }
    }
  }

  /** Expiry is strict: a token whose expiry equals the clock reading is
      admitted, one second later it is refused. */
  lemma ExpiryIsStrict(users: map<string, User>, t: Token, roleRequired: seq<string>)
    requires ' ' !in t.token && t.userId in users && users[t.userId].role in roleRequired
    ensures AuthCheck(users, [t], "Bearer " + t.token, roleRequired, t.expires) == Next(Context(Some(users[t.userId]), Some(t)))
    ensures AuthCheck(users, [t], "Bearer " + t.token, roleRequired, t.expires + 1) == Abort(TokenExpired)
  {
    assert "Bearer " + t.token == "Bearer" + " " + t.token;
    ExtractTokenAnyScheme("Bearer", t.token);
    assert TokenByValue([t], t.token) == Some(t);
  }

  /** A token Login has just appended, with a token string not issued before,
      is admitted with its user and itself in the context until it expires,
      whatever its type. */
  lemma IssuedTokenAdmitted(users: map<string, User>, tokens: seq<Token>, t: Token,
                            roleRequired: seq<string>, now: int)
    requires forall x :: x in tokens ==> x.token != t.token
    requires ' ' !in t.token && t.userId in users && users[t.userId].role in roleRequired
    requires now <= t.expires
    ensures AuthCheck(users, tokens + [t], "Bearer " + t.token, roleRequired, now) ==
              Next(Context(Some(users[t.userId]), Some(t)))
  {
    assert "Bearer " + t.token == "Bearer" + " " + t.token;
    ExtractTokenAnyScheme("Bearer", t.token);
    var f := FirstIndex(tokens + [t], (x: Token) => x.token == t.token);
    assert (tokens + [t])[|tokens|] == t;
    assert f.Some?;
  }

  /** The admitted user is the owner of the token: its id is the token's user_id. */
  lemma AdmittedUserOwnsToken(users: map<string, User>, tokens: seq<Token>, header: string,
                              roleRequired: seq<string>, now: int)
    requires Keyed(users)
    ensures var r := AuthCheck(users, tokens, header, roleRequired, now);
            r.Next? ==> r.ctx.user.Some? && r.ctx.token.Some? && r.ctx.user.value.id == r.ctx.token.value.userId
                        && r.ctx.token.value in tokens && r.ctx.user.value.role in roleRequired
  {
  }

  /** After DeleteTokensByUserId(id), as ChangePassword does, no request is
      admitted as the user stored under `id`. */
  lemma RevokedUserLockedOut(users: map<string, User>, tokens: seq<Token>, id: string, header: string,
                             roleRequired: seq<string>, now: int)
    requires Keyed(users)
    ensures var r := AuthCheck(users, RemoveTokensOf(tokens, id), header, roleRequired, now);
            r.Next? ==> r.ctx.user.value.id != id
  {
    AdmittedUserOwnsToken(users, RemoveTokensOf(tokens, id), header, roleRequired, now);
  }

  /** Revocation by username, as ResetPassword and ActivateTOTP do, keeps every
      token of a user whose id differs from its username: the earlier
      sessions stay admitted. */
  lemma UsernameRevocationKeepsSessions(users: map<string, User>, tokens: seq<Token>, id: string,
                                        header: string, roleRequired: seq<string>, now: int)
    requires id in users && users[id].username != id
    requires ExtractToken(header).Ok? ==> forall x :: x in tokens && x.token == ExtractToken(header).value ==> x.userId == id
    ensures AuthCheck(users, RemoveTokensOf(tokens, users[id].username), header, roleRequired, now).Next? ==
            AuthCheck(users, tokens, header, roleRequired, now).Next?
  {
    var kept := RemoveTokensOf(tokens, users[id].username);
    if ExtractToken(header).Ok? {
      var jwt := ExtractToken(header).value;
      var a := TokenByValue(tokens, jwt);
      var b := TokenByValue(kept, jwt);
      if a.Some? {
        assert a.value.userId == id;
        assert a.value in kept;
        assert b.Some?;
        FirstMatchSurvives(tokens, (x: Token) => x.userId != users[id].username, jwt);
      } else {
        assert b.None?;
      }
    }
  }

  /** Helper: when every record with that token string is kept by the filter,
      the filtered table finds the same first record. */
  lemma {:induction false} FirstMatchSurvives(tokens: seq<Token>, keep: Token -> bool, jwt: string)
    requires forall x :: x in tokens && x.token == jwt ==> keep(x)
    ensures TokenByValue(Filter(tokens, keep), jwt) == TokenByValue(tokens, jwt)
  {
    if tokens != [] {
      FirstMatchSurvives(tokens[1..], keep, jwt);
      var rest := Filter(tokens[1..], keep);
      TokenByValueCons(tokens[0], tokens[1..], jwt);
      assert [tokens[0]] + tokens[1..] == tokens;
      if keep(tokens[0]) {
        assert Filter(tokens, keep) == [tokens[0]] + rest;
        TokenByValueCons(tokens[0], rest, jwt);
      } else {
        assert Filter(tokens, keep) == rest;
      }
    }
  }

  /** Helper: the lookup on a table with a first record. */
  lemma TokenByValueCons(t: Token, rest: seq<Token>, jwt: string)
    ensures TokenByValue([t] + rest, jwt) == if t.token == jwt then Some(t) else TokenByValue(rest, jwt)
  {
    assert ([t] + rest)[1..] == rest;
  }

  /** A token record whose user_id is empty, as a login through a backup code
      writes, is never admitted: no user is stored under the empty id. */
  lemma OrphanTokenRejected(users: map<string, User>, tokens: seq<Token>, header: string,
                            roleRequired: seq<string>, now: int)
    requires "" !in users
    requires ExtractToken(header).Ok? && TokenByValue(tokens, ExtractToken(header).value).Some?
    requires TokenByValue(tokens, ExtractToken(header).value).value.userId == ""
    ensures AuthCheck(users, tokens, header, roleRequired, now).Abort?
  {
  }

  /** PasswordMiddleware: a user in the context, a non-empty Password header,
      and that header matching the user's password hash. */
  function PasswordCheck(ctx: Context, password: string): (r: GateResult)
    ensures r.Next? <==> ctx.user.Some? && password != "" && Matches(ctx.user.value.password, password)
    ensures r.Next? ==> r.ctx == ctx
    ensures ctx.user.None? ==> r == Abort(UserNotFound)
    ensures ctx.user.Some? && password == "" ==> r == Abort(PasswordNotProvided)
    ensures ctx.user.Some? && password != "" && r.Abort? ==> r.error == CredentialsIncorrect
  {
    if ctx.user.None? then Abort(UserNotFound)
    else if password == "" then Abort(PasswordNotProvided)
    else match VerifyPassword(ctx.user.value, password)
      case Fail(e) => Abort(e)
      case Pass => Next(ctx)
  }

  /** A user who never set a permanent password (state NEW) never passes the
      password gate. */
  lemma PasswordGateNeedsPassword(ctx: Context, password: string)
    requires ctx.user.Some? && ctx.user.value.password.NoHash?
    ensures PasswordCheck(ctx, password).Abort?
  {
  }

  /** TOTPMiddleware: a user in the context with TOTP active, checked before
      the TOTP header is read, then a non-empty header that VerifyTOTP
      accepts. VerifyTOTP works on the context's own user struct, so after a
      backup code the context's user carries the blanked Id. */
  method TOTPGate(svc: AuthService, ctx: Context, code: string, now: int) returns (r: GateResult)
    requires svc.Valid() && (ctx.user.Some? ==> svc.Issued(ctx.user.value))
    modifies svc, svc.db
    ensures svc.Valid()
    ensures ctx.user.None? ==> r == Abort(UserNotFound) && unchanged(svc, svc.db)
    ensures ctx.user.Some? && !ctx.user.value.totpActive ==> r == Abort(TOTPNotActivated) && unchanged(svc, svc.db)
    ensures ctx.user.Some? && ctx.user.value.totpActive && code == "" ==>
              r == Abort(TOTPNotProvided) && unchanged(svc, svc.db)
    ensures ctx.user.Some? && ctx.user.value.totpActive && code != "" ==>
              var u := ctx.user.value;
              && (u.state != ACTIVE ==> r == Abort(NotActive) && unchanged(svc, svc.db))
              && (r.Next? <==> u.state == ACTIVE && (svc.validate(code, u.totpSecret, now) || AnyMatch(u.backupCodes, code)))
              && (r.Next? && svc.validate(code, u.totpSecret, now) ==> r.ctx == ctx && unchanged(svc, svc.db))
              && (r.Next? && !svc.validate(code, u.totpSecret, now) ==>
                    r.ctx == ctx.(user := Some(u.(id := ""))) && svc.db.users == old(Replaced(svc.db.users, u)))
              && (u.state == ACTIVE && r.Abort? ==> r.error == TOTPHeaderNotValid && unchanged(svc, svc.db))
    ensures svc.db.order == old(svc.db.order) && svc.db.tokens == old(svc.db.tokens)
  {
    if ctx.user.None? {
      return Abort(UserNotFound);
    }
    var user := ctx.user.value;
    if !user.totpActive {
      return Abort(TOTPNotActivated);
    }
    if code == "" {
      return Abort(TOTPNotProvided);
    }
    var correct, err, caller := svc.VerifyTOTP(user, code, now);
    if err.Fail? {
      return Abort(err.error);
    }
    if !correct {
      return Abort(TOTPHeaderNotValid);
    }
    r := Next(ctx.(user := Some(caller)));
  }
}
