/** The JWT guard (src/auth/guards/jwt-auth/jwt-auth.guard.ts): it takes the
    access token out of the `Cookie` header, verifies it with the default key, and
    on success writes the payload, its `userId` and its `sessionId` onto the
    request. */
module JwtAuthGuard {
  import opened Base
  import opened Records

  // ---------------------------------------------------------------------------
  // `String.prototype.split` with a one-character separator

  /** The pieces of `s` between the occurrences of `sep`, as JavaScript's
      `split` returns them: one more piece than there are separators, empty
      pieces included. */
  function Split(s: string, sep: char): (r: seq<string>)
    ensures |r| >= 1
    ensures forall i :: 0 <= i < |r| ==> sep !in r[i]
  {
    if |s| == 0 then [""]
    else
      var rest := Split(s[1..], sep);
      if s[0] == sep then [""] + rest
      else [[s[0]] + rest[0]] + rest[1..]
  }

  /** The pieces glued back together with `sep` between them. */
  function Join(parts: seq<string>, sep: char): string
    requires |parts| >= 1
  {
    if |parts| == 1 then parts[0] else parts[0] + [sep] + Join(parts[1..], sep)
  }

  /** Splitting loses nothing: joining the pieces gives the string back. */
  lemma {:induction false} JoinSplit(s: string, sep: char)
    ensures Join(Split(s, sep), sep) == s
  {
    if |s| > 0 {
      JoinSplit(s[1..], sep);
      var rest := Split(s[1..], sep);
      if s[0] == sep {
        assert s == [sep] + s[1..];
      } else if |rest| == 1 {
        assert s == [s[0]] + s[1..];
      } else {
        assert Join(rest, sep) == rest[0] + [sep] + Join(rest[1..], sep);
        assert s == [s[0]] + s[1..];
      }
    }
  }

  /** Pieces without the separator come back from splitting their join. */
  lemma {:induction false} SplitJoin(parts: seq<string>, sep: char)
    requires |parts| >= 1
    requires forall i :: 0 <= i < |parts| ==> sep !in parts[i]
    ensures Split(Join(parts, sep), sep) == parts
  {
    if |parts| == 1 {
      SplitPlain(parts[0], sep);
    } else {
      SplitJoin(parts[1..], sep);
      SplitAfterPiece(parts[0], Join(parts[1..], sep), sep);
      assert parts == [parts[0]] + parts[1..];
    }
  }

  /** A string without the separator is one piece. */
  lemma {:induction false} SplitPlain(s: string, sep: char)
    requires sep !in s
    ensures Split(s, sep) == [s]
  {
    if |s| > 0 {
      SplitPlain(s[1..], sep);
      assert s == [s[0]] + s[1..];
    }
  }

  /** A piece without the separator, then the separator, then `t`: the piece,
      followed by the pieces of `t`. */
  lemma {:induction false} SplitAfterPiece(a: string, t: string, sep: char)
    requires sep !in a
    ensures Split(a + [sep] + t, sep) == [a] + Split(t, sep)
  {
    if |a| == 0 {
      assert a + [sep] + t == [sep] + t;
      assert ([sep] + t)[1..] == t;
    } else {
      var s := a + [sep] + t;
      assert s[0] == a[0];
      assert s[1..] == a[1..] + [sep] + t;
      SplitAfterPiece(a[1..], t, sep);
      assert [a[0]] + a[1..] == a;
    }
  }

  // ---------------------------------------------------------------------------
  // `extractTokenFromHeader`

  /** What the extraction yields: `null` (no header, or an empty one),
      `undefined` (a header without '='), or the second piece. */
  datatype TokenLookup = NullToken | Undefined | Token(value: string)

  /** `extractTokenFromHeader`: the second '='-separated piece of the `Cookie`
      header; null when the header is absent or empty. */
  function ExtractTokenFromHeader(cookie: Option<string>): (r: TokenLookup)
    ensures r.NullToken? <==> cookie.None? || cookie.value == ""
    ensures r.Undefined? <==> cookie.Some? && cookie.value != "" && '=' !in cookie.value
    ensures r.Token? ==> '=' !in r.value
  {
    if cookie.None? || cookie.value == "" then NullToken
    else
      var parts := Split(cookie.value, '=');
      assert '=' in cookie.value ==> |parts| >= 2 by {
        JoinSplit(cookie.value, '=');
      }
      assert '=' !in cookie.value ==> |parts| == 1 by {
        if '=' !in cookie.value { SplitPlain(cookie.value, '='); }
      }
      if |parts| < 2 then Undefined else Token(parts[1])
  }

  /** The extracted token is exactly the text between the first '=' of the
      header and the next '=' (or the end of the header). */
  lemma ExtractedIsSecondPiece(cookie: string)
    requires ExtractTokenFromHeader(Some(cookie)).Token?
    ensures var t := ExtractTokenFromHeader(Some(cookie)).value;
            exists i :: 0 <= i && i + 1 + |t| <= |cookie| && cookie[i] == '=' && '=' !in cookie[..i] &&
                        cookie[i + 1..i + 1 + |t|] == t && (i + 1 + |t| == |cookie| || cookie[i + 1 + |t|] == '=')
  {
    var parts := Split(cookie, '=');
    var t := parts[1];
    JoinSplit(cookie, '=');
    var tail := parts[1..];
    var rest := if |tail| == 1 then "" else "=" + Join(tail[1..], '=');
    assert Join(tail, '=') == t + rest;
    var a := parts[0];
    assert cookie == a + "=" + t + rest;
    var i := |a|;
    assert cookie[..i] == a;
    assert cookie[i + 1..i + 1 + |t|] == t;
    assert i + 1 + |t| < |cookie| ==> cookie[i + 1 + |t|] == rest[0];
  }

  /** A header holding just `name=token` yields the token. */
  lemma SingleCookie(name: string, token: string)
    requires '=' !in name && '=' !in token
    ensures ExtractTokenFromHeader(Some(name + "=" + token)) == Token(token)
  {
    SplitJoin([name, token], '=');
    assert Join([name, token], '=') == name + "=" + token;
  }

  /** With a second cookie after the first, the extracted text runs on past the
      first cookie's value into the second cookie's name. */
  lemma ExtraCookieJoinsToken(name: string, token: string, other: string, value: string)
    requires '=' !in name && '=' !in token && '=' !in other && '=' !in value
    ensures ExtractTokenFromHeader(Some(name + "=" + token + "; " + other + "=" + value))
              == Token(token + "; " + other)
  {
    var parts := [name, token + "; " + other, value];
    SplitJoin(parts, '=');
    assert parts[1..][1..] == [value];
    assert Join(parts[1..], '=') == (token + "; " + other) + "=" + value;
    assert Join(parts, '=') == name + "=" + ((token + "; " + other) + "=" + value);
    assert name + "=" + token + "; " + other + "=" + value == Join(parts, '=');
  }

  // ---------------------------------------------------------------------------
  // `canActivate`

  /** The accept/reject decision of `canActivate`: a missing or empty token, or
      one the verifier rejects under the default key, is Unauthorized; otherwise
      the verified payload. */
  function Authenticate(ext: Externals, token: TokenLookup, now: int): (r: Result<Claims>)
    ensures r.Err? ==> r.error == Unauthorized("Unauthorized access token")
    ensures r.Ok? <==> token.Token? && token.value != "" && ext.verifyJwt(token.value, DefaultKey, now).Some?
    ensures r.Ok? ==> ext.verifyJwt(token.value, DefaultKey, now) == Some(r.value)
  {
    if !token.Token? || token.value == "" then Err(Unauthorized("Unauthorized access token"))
    else
      match ext.verifyJwt(token.value, DefaultKey, now)
      case None => Err(Unauthorized("Unauthorized access token"))
      case Some(payload) => Ok(payload)
  }

  /** `payload.userId`: access payloads carry it, refresh payloads (which name
      the user under `sub`) leave it undefined. */
  function PayloadUserId(c: Claims): (r: Option<string>)
    ensures r.Some? <==> c.AccessClaims?
    ensures c.AccessClaims? ==> r == Some(c.userId)
  {
    match c
    case AccessClaims(userId, _) => Some(userId)
    case RefreshClaims(_, _) => None
  }

  /** The parts of an incoming request the guard reads and writes. */
  class Request {
    var cookie: Option<string>
    var user: Option<Claims>
    var userId: Option<string>
    var sessionId: Option<string>

    constructor (cookie: Option<string>)
      ensures this.cookie == cookie
      ensures user.None? && userId.None? && sessionId.None?
    {
      this.cookie := cookie;
      user, userId, sessionId := None, None, None;
    }
  }

  /** `canActivate`: rejects with Unauthorized, writing nothing, when
      `Authenticate` rejects the extracted token; otherwise sets `user` to the
      payload, `userId` and `sessionId` to its fields, and answers true. */
  method CanActivate(request: Request, ext: Externals, now: int) returns (r: Result<bool>)
    modifies request
    ensures request.cookie == old(request.cookie)
    ensures var d := Authenticate(ext, ExtractTokenFromHeader(old(request.cookie)), now);
            && (d.Err? ==> r == Err(d.error) && request.user == old(request.user) &&
                           request.userId == old(request.userId) && request.sessionId == old(request.sessionId))
            && (d.Ok? ==> r == Ok(true) && request.user == Some(d.value) &&
                          request.userId == PayloadUserId(d.value) && request.sessionId == d.value.sessionId)
  {
    var token := ExtractTokenFromHeader(request.cookie);
    if !token.Token? || token.value == "" {
      return Err(Unauthorized("Unauthorized access token"));
    }
    var payload := ext.verifyJwt(token.value, DefaultKey, now);
    if payload.None? {
      return Err(Unauthorized("Unauthorized access token"));
    }
    request.user := payload;
    request.userId := PayloadUserId(payload.value);
    request.sessionId := payload.value.sessionId;
    r := Ok(true);
  }
}
