/** The authentication middleware of backend/src/middleware/authMiddleware.ts:
    token extraction and the checks of `protect`, the password-change test,
    and `restrictTo`. Token verification and the user lookup are library and
    database calls; they are parameters here. */
module AuthMiddleware {
  import opened Wrappers
  import opened ErrorHandler

  /** `s.split(sep)` for a one-character separator: the pieces between the
      separators, empty ones included. */
  function Split(s: string, sep: char): (pieces: seq<string>)
    ensures |pieces| >= 1
    ensures forall i :: 0 <= i < |pieces| ==> sep !in pieces[i]
    ensures |pieces| == 1 <==> sep !in s
  {
    if s == [] then [""]
    else
      var rest := Split(s[1..], sep);
      if s[0] == sep then [""] + rest
      else [[s[0]] + rest[0]] + rest[1..]
  }

  /** `pieces.join(sep)`. */
  function Join(pieces: seq<string>, sep: char): string
    requires |pieces| >= 1
  {
    if |pieces| == 1 then pieces[0] else pieces[0] + [sep] + Join(pieces[1..], sep)
  }

  /** Splitting loses nothing: joining the pieces gives the string back. */
  lemma {:induction false} JoinSplit(s: string, sep: char)
    ensures Join(Split(s, sep), sep) == s
  {
    if s != [] {
      var rest := Split(s[1..], sep);
      JoinSplit(s[1..], sep);
      if s[0] == sep {
        assert Split(s, sep)[1..] == rest;
      } else {
        var pieces := Split(s, sep);
        if |rest| == 1 {
          assert pieces == [[s[0]] + rest[0]];
        } else {
          assert pieces[1..] == rest[1..];
          assert Join(rest, sep) == rest[0] + [sep] + Join(rest[1..], sep);
        }
      }
    }
  }

  /** A string without the separator is a single piece. */
  lemma {:induction false} SplitPlain(s: string, sep: char)
    requires sep !in s
    ensures Split(s, sep) == [s]
  {
    if s != [] {
      SplitPlain(s[1..], sep);
      assert [s[0]] + s[1..] == s;
    }
  }

  /** Splitting at the first separator. */
  lemma {:induction false} SplitFirst(a: string, sep: char, b: string)
    requires sep !in a
    ensures Split(a + [sep] + b, sep) == [a] + Split(b, sep)
  {
    if a == [] {
      assert a + [sep] + b == [sep] + b;
      assert ([sep] + b)[1..] == b;
    } else {
      assert (a + [sep] + b)[1..] == a[1..] + [sep] + b;
      SplitFirst(a[1..], sep, b);
      assert [a[0]] + a[1..] == a;
    }
  }

  /** The token `protect` looks at: the second space-separated piece of an
      Authorization header that starts with `Bearer`, otherwise the `jwt`
      cookie when it is non-empty. */
  function ExtractToken(authorization: Option<string>, cookieJwt: Option<string>): (r: Option<string>)
    ensures authorization.Some? && "Bearer" <= authorization.value ==>
      (r.Some? <==> ' ' in authorization.value) && (r.Some? ==> ' ' !in r.value)
    ensures !(authorization.Some? && "Bearer" <= authorization.value) ==>
      (r.Some? <==> cookieJwt.Some? && cookieJwt.value != "") && (r.Some? ==> r == cookieJwt)
  {
    if authorization.Some? && "Bearer" <= authorization.value then
      var pieces := Split(authorization.value, ' ');
      if |pieces| > 1 then Some(pieces[1]) else None
    else if cookieJwt.Some? && cookieJwt.value != "" then cookieJwt
    else None
  }

  /** `Bearer <token>` yields the token, whatever the cookie holds. */
  lemma BearerToken(token: string, cookieJwt: Option<string>)
    requires ' ' !in token
    ensures ExtractToken(Some("Bearer " + token), cookieJwt) == Some(token)
  {
    assert "Bearer " + token == "Bearer" + [' '] + token;
    SplitFirst("Bearer", ' ', token);
    SplitPlain(token, ' ');
  }

  /** A header of just `Bearer` yields no token, and the cookie is not consulted. */
  lemma BearerWithoutToken(cookieJwt: Option<string>)
    ensures ExtractToken(Some("Bearer"), cookieJwt) == None
  {
    SplitPlain("Bearer", ' ');
  }

  /** Without a Bearer header, the cookie is the token when it is non-empty. */
  lemma CookieFallback(authorization: Option<string>, cookieJwt: Option<string>)
    requires authorization.None? || !("Bearer" <= authorization.value)
    ensures ExtractToken(authorization, cookieJwt) ==
      if cookieJwt.Some? && cookieJwt.value != "" then cookieJwt else None
  {
  }

  /** `isTokenIssuedBeforePasswordChanged(iat, passwordChangedAt)`: the token's
      issue time in seconds against the change time in milliseconds, divided
      by 1000. */
  function IsTokenIssuedBeforePasswordChanged(iat: int, changedMs: int): (r: bool)
    ensures r <==> (iat as real) < (changedMs as real) / 1000.0
  {
    iat * 1000 < changedMs
  }

  /** The payload `jwt.verify` returns. */
  datatype Decoded = Decoded(userId: string, iat: int)

  /** The user record `protect` loads; `passwordChangedAt` in milliseconds. */
  datatype User = User(role: string, passwordChangedAt: Option<int>)

  /** How `protect` ends: access granted with the user attached to the
      request, an `AppError` passed to `next`, or the exception thrown by
      `jwt.verify` passed on by `catchAsync`. */
  datatype AuthResult = Granted(user: User) | Rejected(error: AppError) | VerifyFailed

  const NotLoggedIn := "You are not logged in. Please log in to get access"
  const UserGone := "The user belonging to this token no longer exists"
  const PasswordChanged := "User recently changed password. Please log in again"
  const Forbidden := "You do not have permission to perform this action"

  /** `protect`: `verify` stands for `jwt.verify` with the configured secret
      (`None` when it throws), `findUser` for `User.findById`. */
  function Protect(authorization: Option<string>, cookieJwt: Option<string>,
                   verify: string -> Option<Decoded>, findUser: string -> Option<User>): (r: AuthResult)
    ensures var token := ExtractToken(authorization, cookieJwt);
      (token.None? || token.value == "") <==> r == Rejected(NewAppError(NotLoggedIn, 401))
    ensures r.Rejected? ==> r.error.statusCode == 401 && r.error.isOperational
    ensures r.VerifyFailed? ==> verify(ExtractToken(authorization, cookieJwt).value).None?
    ensures var token := ExtractToken(authorization, cookieJwt);
      r.Granted? <==>
        && token.Some? && token.value != ""
        && verify(token.value).Some?
        && findUser(verify(token.value).value.userId).Some?
        && (var user := findUser(verify(token.value).value.userId).value;
            !(user.passwordChangedAt.Some?
              && IsTokenIssuedBeforePasswordChanged(verify(token.value).value.iat, user.passwordChangedAt.value)))
    ensures r.Granted? ==>
      findUser(verify(ExtractToken(authorization, cookieJwt).value).value.userId) == Some(r.user)
    ensures var token := ExtractToken(authorization, cookieJwt);
      token.Some? && token.value != "" ==> (r.VerifyFailed? <==> verify(token.value).None?)
    ensures var token := ExtractToken(authorization, cookieJwt);
      token.Some? && token.value != "" && verify(token.value).Some?
      && findUser(verify(token.value).value.userId).None?
      ==> r == Rejected(NewAppError(UserGone, 401))
    ensures var token := ExtractToken(authorization, cookieJwt);
      token.Some? && token.value != "" && verify(token.value).Some?
      && findUser(verify(token.value).value.userId).Some?
      && (var user := findUser(verify(token.value).value.userId).value;
          user.passwordChangedAt.Some?
          && IsTokenIssuedBeforePasswordChanged(verify(token.value).value.iat, user.passwordChangedAt.value))
      ==> r == Rejected(NewAppError(PasswordChanged, 401))
  {
    var token := ExtractToken(authorization, cookieJwt);
    if token.None? || token.value == "" then Rejected(NewAppError(NotLoggedIn, 401))
    else
      var decoded := verify(token.value);
      if decoded.None? then VerifyFailed
      else
        var user := findUser(decoded.value.userId);
        if user.None? then Rejected(NewAppError(UserGone, 401))
        else if user.value.passwordChangedAt.Some?
             && IsTokenIssuedBeforePasswordChanged(decoded.value.iat, user.value.passwordChangedAt.value)
        then Rejected(NewAppError(PasswordChanged, 401))
        else Granted(user.value)
  }

  /** A valid token issued before the user's last password change is refused;
      a user who never changed the password is let in. */
  lemma PasswordChangeRevokes(token: string, cookieJwt: Option<string>,
                              verify: string -> Option<Decoded>, findUser: string -> Option<User>)
    requires ' ' !in token && token != ""
    requires verify(token).Some? && findUser(verify(token).value.userId).Some?
    ensures var user := findUser(verify(token).value.userId).value;
      var r := Protect(Some("Bearer " + token), cookieJwt, verify, findUser);
      && (user.passwordChangedAt.None? ==> r == Granted(user))
      && (user.passwordChangedAt.Some? && verify(token).value.iat * 1000 < user.passwordChangedAt.value
          ==> r == Rejected(NewAppError(PasswordChanged, 401)))
  {
    BearerToken(token, cookieJwt);
  }

  /** What `restrictTo(...roles)` does with the request's user: pass on,
      refuse with 403, or fail reading the role of a missing user. */
  datatype Gate = Pass | Denied(error: AppError) | NoUser

  function RestrictTo(roles: seq<string>, user: Option<User>): (r: Gate)
    ensures r.Pass? <==> user.Some? && user.value.role in roles
    ensures r.Denied? <==> user.Some? && user.value.role !in roles
    ensures r.Denied? ==> r.error == NewAppError(Forbidden, 403)
  {
    if user.None? then NoUser
    else if user.value.role !in roles then Denied(NewAppError(Forbidden, 403))
    else Pass
  }
}
