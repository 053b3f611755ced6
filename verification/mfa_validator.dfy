/** The request schemas of the MFA endpoints (src/commons/validators/mfa.validator.ts):
    each field is trimmed, then its length is bounded; the parsed object holds the
    trimmed values. Lengths are those of JavaScript strings, in UTF-16 code units. */
module MfaValidator {
  import opened Base

  /** The characters `String.prototype.trim` removes: the ECMAScript WhiteSpace
      and LineTerminator characters. */
  predicate IsTrimmable(c: char)
  {
    || c == '\t' || c == '\n' || c == '\U{000B}' || c == '\U{000C}' || c == '\r' || c == ' '
    || c == '\U{00A0}' || c == '\U{1680}' || ('\U{2000}' <= c <= '\U{200A}')
    || c == '\U{2028}' || c == '\U{2029}' || c == '\U{202F}' || c == '\U{205F}'
    || c == '\U{3000}' || c == '\U{FEFF}'
  }

  /** `s` without its leading trimmable characters. */
  function TrimStart(s: string): (r: string)
    ensures |r| <= |s| && r == s[|s| - |r|..]
    ensures forall i :: 0 <= i < |s| - |r| ==> IsTrimmable(s[i])
    ensures |r| > 0 ==> !IsTrimmable(r[0])
  {
    if |s| > 0 && IsTrimmable(s[0]) then TrimStart(s[1..]) else s
  }

  /** `s` without its trailing trimmable characters. */
  function TrimEnd(s: string): (r: string)
    ensures |r| <= |s| && r == s[..|r|]
    ensures forall i :: |r| <= i < |s| ==> IsTrimmable(s[i])
    ensures |r| > 0 ==> !IsTrimmable(r[|r| - 1])
  {
    if |s| > 0 && IsTrimmable(s[|s| - 1]) then TrimEnd(s[..|s| - 1]) else s
  }

  /** `r` is the part of `s` that starts at `k`, and everything of `s` before
      and after it is trimmable. */
  ghost predicate InnerPart(s: string, k: int, r: string)
  {
    && 0 <= k && k + |r| <= |s| && r == s[k..k + |r|]
    && (forall i :: 0 <= i < k ==> IsTrimmable(s[i]))
    && (forall i :: k + |r| <= i < |s| ==> IsTrimmable(s[i]))
  }

  /** `String.prototype.trim`: the part of `s` left once trimmable characters
      are removed from both ends; it neither starts nor ends with one. */
  function Trim(s: string): (r: string)
    ensures exists k :: InnerPart(s, k, r)
    ensures |r| > 0 ==> !IsTrimmable(r[0]) && !IsTrimmable(r[|r| - 1])
  {
    var front := TrimStart(s);
    var r := TrimEnd(front);
    var k := |s| - |front|;
    assert InnerPart(s, k, r);
    assert |r| > 0 ==> r[0] == front[0];
    r
  }

  /** A string that neither starts nor ends with a trimmable character is left
      as it is. */
  lemma {:induction false} TrimmedIsFixed(s: string)
    requires |s| > 0 ==> !IsTrimmable(s[0]) && !IsTrimmable(s[|s| - 1])
    ensures Trim(s) == s
  {
  }

  /** Trimming twice is trimming once. */
  lemma TrimIdempotent(s: string)
    ensures Trim(Trim(s)) == Trim(s)
  {
    TrimmedIsFixed(Trim(s));
  }

  /** The length JavaScript reports: characters beyond the Basic Multilingual
      Plane take two UTF-16 code units. */
  function Utf16Length(s: string): (n: nat)
  {
    if |s| == 0 then 0 else (if s[0] as int > 0xFFFF then 2 else 1) + Utf16Length(s[1..])
  }

  /** `z.string().trim().min(lo).max(hi)` on a field that may be missing: the
      trimmed value when the field is there and its trimmed length is in range. */
  function TrimmedInRange(field: Option<string>, lo: nat, hi: nat): (r: Option<string>)
    ensures r.Some? <==> field.Some? && lo <= Utf16Length(Trim(field.value)) <= hi
    ensures r.Some? ==> r.value == Trim(field.value)
  {
    if field.Some? && lo <= Utf16Length(Trim(field.value)) <= hi then Some(Trim(field.value)) else None
  }

  /** A parsed `mfaSchema` object. */
  datatype MfaInput = MfaInput(code: string, secretKey: string)

  /** A parsed `verifyMfaForLoginSchema` object. */
  datatype MfaLoginInput = MfaLoginInput(code: string, email: string, userAgent: Option<string>)

  /** `mfaSchema`: `code` of 1 to 6 and `secretKey` of 1 to 100 characters after
      trimming; the object is rejected if either is missing or out of range. */
  function ParseMfa(code: Option<string>, secretKey: Option<string>): (r: Option<MfaInput>)
    ensures r.Some? <==> code.Some? && 1 <= Utf16Length(Trim(code.value)) <= 6 &&
                         secretKey.Some? && 1 <= Utf16Length(Trim(secretKey.value)) <= 100
    ensures r.Some? ==> r.value == MfaInput(Trim(code.value), Trim(secretKey.value))
  {
    var c := TrimmedInRange(code, 1, 6);
    var k := TrimmedInRange(secretKey, 1, 100);
    if c.Some? && k.Some? then Some(MfaInput(c.value, k.value)) else None
  }

  /** `verifyMfaForLoginSchema`: `code` as in `mfaSchema`; `email` of 5 to 255
      characters after trimming that passes the email check (a library check,
      here the parameter `isEmail`); `userAgent` any string, or absent. */
  function ParseMfaLogin(isEmail: string -> bool, code: Option<string>, email: Option<string>,
                         userAgent: Option<string>): (r: Option<MfaLoginInput>)
    ensures r.Some? <==> code.Some? && 1 <= Utf16Length(Trim(code.value)) <= 6 &&
                         email.Some? && 5 <= Utf16Length(Trim(email.value)) <= 255 && isEmail(Trim(email.value))
    ensures r.Some? ==> r.value == MfaLoginInput(Trim(code.value), Trim(email.value), userAgent)
  {
    var c := TrimmedInRange(code, 1, 6);
    var e := TrimmedInRange(email, 5, 255);
    if c.Some? && e.Some? && isEmail(e.value) then Some(MfaLoginInput(c.value, e.value, userAgent)) else None
  }

  /** Parsing a parsed object again accepts it and changes nothing. */
  lemma ParseMfaIdempotent(code: Option<string>, secretKey: Option<string>)
    requires ParseMfa(code, secretKey).Some?
    ensures var v := ParseMfa(code, secretKey).value;
            ParseMfa(Some(v.code), Some(v.secretKey)) == Some(v)
  {
    var v := ParseMfa(code, secretKey).value;
    TrimIdempotent(code.value);
    TrimIdempotent(secretKey.value);
    assert Trim(v.code) == v.code && Trim(v.secretKey) == v.secretKey;
    assert TrimmedInRange(Some(v.code), 1, 6) == Some(v.code);
    assert TrimmedInRange(Some(v.secretKey), 1, 100) == Some(v.secretKey);
  }

  /** Parsing a parsed login object again accepts it and changes nothing. */
  lemma ParseMfaLoginIdempotent(isEmail: string -> bool, code: Option<string>, email: Option<string>,
                                userAgent: Option<string>)
    requires ParseMfaLogin(isEmail, code, email, userAgent).Some?
    ensures var v := ParseMfaLogin(isEmail, code, email, userAgent).value;
            ParseMfaLogin(isEmail, Some(v.code), Some(v.email), v.userAgent) == Some(v)
  {
    TrimIdempotent(code.value);
    TrimIdempotent(email.value);
  }

  /** Surrounding whitespace does not matter: a padded field is accepted exactly
      when the bare one is, with the same value. */
  lemma PaddingIgnored(code: string, codeLeft: string, codeRight: string,
                       secretKey: string, keyLeft: string, keyRight: string)
    requires AllTrimmable(codeLeft) && AllTrimmable(codeRight)
    requires AllTrimmable(keyLeft) && AllTrimmable(keyRight)
    requires |code| > 0 ==> !IsTrimmable(code[0]) && !IsTrimmable(code[|code| - 1])
    requires |secretKey| > 0 ==> !IsTrimmable(secretKey[0]) && !IsTrimmable(secretKey[|secretKey| - 1])
    ensures ParseMfa(Some(codeLeft + code + codeRight), Some(keyLeft + secretKey + keyRight))
              == ParseMfa(Some(code), Some(secretKey))
  {
    PaddedFieldChecksSame(code, codeLeft, codeRight, 1, 6);
    PaddedFieldChecksSame(secretKey, keyLeft, keyRight, 1, 100);
  }

  /** Every character of `pad` is one that `trim` removes. */
  predicate AllTrimmable(pad: string)
  {
    forall i :: 0 <= i < |pad| ==> IsTrimmable(pad[i])
  }

  /** The range check of a padded field is that of the bare field. */
  lemma PaddedFieldChecksSame(s: string, left: string, right: string, lo: nat, hi: nat)
    requires AllTrimmable(left) && AllTrimmable(right)
    requires |s| > 0 ==> !IsTrimmable(s[0]) && !IsTrimmable(s[|s| - 1])
    ensures TrimmedInRange(Some(left + s + right), lo, hi) == TrimmedInRange(Some(s), lo, hi)
  {
    TrimPadded(s, left, right);
    TrimmedIsFixed(s);
  }

  /** Leading trimmable characters are skipped. */
  lemma {:induction false} TrimStartSkips(pad: string, s: string)
    requires AllTrimmable(pad)
    ensures TrimStart(pad + s) == TrimStart(s)
  {
    if |pad| > 0 {
      assert (pad + s)[1..] == pad[1..] + s;
      TrimStartSkips(pad[1..], s);
    } else {
      assert pad + s == s;
    }
  }

  /** Trailing trimmable characters are skipped. */
  lemma {:induction false} TrimEndSkips(s: string, pad: string)
    requires AllTrimmable(pad)
    ensures TrimEnd(s + pad) == TrimEnd(s)
  {
    if |pad| > 0 {
      var t := s + pad;
      assert t[..|t| - 1] == s + pad[..|pad| - 1];
      TrimEndSkips(s, pad[..|pad| - 1]);
    } else {
      assert s + pad == s;
    }
  }

  /** Trimming removes padding of trimmable characters on both sides. */
  lemma TrimPadded(s: string, left: string, right: string)
    requires AllTrimmable(left) && AllTrimmable(right)
    requires |s| > 0 ==> !IsTrimmable(s[0]) && !IsTrimmable(s[|s| - 1])
    ensures Trim(left + s + right) == s
  {
    assert left + s + right == left + (s + right);
    TrimStartSkips(left, s + right);
    TrimEndSkips(s, right);
    if |s| == 0 {
      assert s + right == right + "";
      TrimStartSkips(right, "");
      TrimEndSkips("", right);
    }
  }
}
