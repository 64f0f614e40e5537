/**
  Reading the payload of a JSON Web Token without checking its signature
  (core/utils/jwt.ts). The token is the compact serialisation of section 7.1
  of RFC 7515: dot-separated base64url segments, the payload second. The
  payload segment is turned from the URL-safe alphabet of section 5 of RFC
  4648 into the standard alphabet of section 4, padded with `=` to a multiple
  of four, and handed to `atob`, UTF-8 decoding and `JSON.parse`. Those three
  are foreign and appear here as one decoder parameter that may fail.
 */
module Jwt {
  import opened Wrappers
  import opened Text

  /** The nested `user` object some backends put in the payload. */
  datatype UserClaims = UserClaims(oid: Option<string>, id: Option<string>, role: Option<string>, name: Option<string>)

  /**
    The payload fields the client reads; `oid` is the `_id` claim. A missing
    claim is `None`. Only string-valued claims are modelled.
   */
  datatype Claims = Claims(
    sub: Option<string>, oid: Option<string>, id: Option<string>,
    user_id: Option<string>, userId: Option<string>,
    role: Option<string>, name: Option<string>, user: Option<UserClaims>)

  /**
    `p?.role || p?.user?.role`: the payload's own role when it is a non-empty
    string, else the nested user's, else nothing.
   */
  function TruthyRole(p: Claims): (r: Option<string>)
    ensures r.Some? ==> r.value != ""
    ensures p.role.Some? && p.role.value != "" ==> r == p.role
    ensures r.Some? && r != p.role ==> p.user.Some? && r == p.user.value.role
  {
    if p.role.Some? && p.role.value != "" then p.role
    else if p.user.Some? && p.user.value.role.Some? && p.user.value.role.value != "" then p.user.value.role
    else None
  }

  /**
    `atob`, UTF-8 decoding and `JSON.parse` together; `None` stands for a
    thrown error. Only `decodeJwt` applies the UTF-8 step; the guard hands
    the raw `atob` text to `JSON.parse`, so its decoder differs on non-ASCII
    payloads.
   */
  type Decoder = string -> Option<Claims>

  // ---------------------------------------------------------------------------
  // base64url to base64
  // ---------------------------------------------------------------------------

  predicate IsUrlChar(c: char) { IsAlnum(c) || c == '-' || c == '_' }
  predicate IsStdChar(c: char) { IsAlnum(c) || c == '+' || c == '/' }

  function UrlToStdChar(c: char): char {
    if c == '-' then '+' else if c == '_' then '/' else c
  }

  function StdToUrlChar(c: char): char {
    if c == '+' then '-' else if c == '/' then '_' else c
  }

  /** `.replace(/-/g, '+').replace(/_/g, '/')`: a character-wise translation. */
  function UrlToStd(s: string): (r: string)
    ensures |r| == |s|
    ensures forall i | 0 <= i < |s| :: r[i] == UrlToStdChar(s[i])
  {
    seq(|s|, i requires 0 <= i < |s| => UrlToStdChar(s[i]))
  }

  /** The reverse translation, from section 4 back to section 5 of RFC 4648. */
  function StdToUrl(s: string): (r: string)
    ensures |r| == |s|
    ensures forall i | 0 <= i < |s| :: r[i] == StdToUrlChar(s[i])
  {
    seq(|s|, i requires 0 <= i < |s| => StdToUrlChar(s[i]))
  }

  /**
    The translation changes only `-` and `_`, leaves neither behind, and
    maps the URL-safe alphabet onto the standard one; on text without `+`
    or `/` it is undone by the reverse translation.
   */
  lemma UrlToStdProperties(s: string)
    ensures '-' !in UrlToStd(s) && '_' !in UrlToStd(s)
    ensures forall i | 0 <= i < |s| :: s[i] != '-' && s[i] != '_' ==> UrlToStd(s)[i] == s[i]
    ensures (forall i | 0 <= i < |s| :: IsUrlChar(s[i])) ==> forall i | 0 <= i < |s| :: IsStdChar(UrlToStd(s)[i])
    ensures '+' !in s && '/' !in s ==> StdToUrl(UrlToStd(s)) == s
  {
    var r := UrlToStd(s);
    assert forall i | 0 <= i < |r| :: r[i] != '-' && r[i] != '_';
    if '+' !in s && '/' !in s {
      forall i | 0 <= i < |s|
        ensures StdToUrl(r)[i] == s[i]
      {
        assert s[i] != '+' && s[i] != '/';
      }
    }
  }

  // ---------------------------------------------------------------------------
  // Padding
  // ---------------------------------------------------------------------------

  /** `b64.length % 4 ? 4 - b64.length % 4 : 0`. */
  function PadCount(n: nat): (k: nat)
    ensures k < 4 && (n + k) % 4 == 0
    ensures k == 0 <==> n % 4 == 0
  {
    if n % 4 != 0 then 4 - n % 4 else 0
  }

  function Repeat(c: char, k: nat): (r: string)
    ensures |r| == k && forall i | 0 <= i < k :: r[i] == c
  {
    if k == 0 then "" else [c] + Repeat(c, k - 1)
  }

  /** The text followed by as many `=` as make its length a multiple of four. */
  function Pad(s: string): (r: string)
    ensures |r| % 4 == 0 && |s| <= |r| < |s| + 4
    ensures r[..|s|] == s
    ensures forall i | |s| <= i < |r| :: r[i] == '='
    ensures |s| % 4 == 0 ==> r == s
  {
    s + Repeat('=', PadCount(|s|))
  }

  /** Trailing `=` removed. */
  function Unpad(s: string): (r: string)
    ensures |r| <= |s| && r == s[..|r|]
    decreases |s|
  {
    if |s| > 0 && s[|s| - 1] == '=' then Unpad(s[..|s| - 1]) else s
  }

  /** Removing the padding gives back any text that does not itself end in `=`. */
  lemma {:induction false} UnpadPad(s: string, k: nat)
    requires s == [] || s[|s| - 1] != '='
    ensures Unpad(s + Repeat('=', k)) == s
    decreases k
  {
    if k == 0 {
      assert s + Repeat('=', 0) == s;
    } else {
      var t := s + Repeat('=', k);
      assert t[|t| - 1] == '=';
      assert t[..|t| - 1] == s + Repeat('=', k - 1);
      UnpadPad(s, k - 1);
    }
  }

  // ---------------------------------------------------------------------------
  // decodeJwt
  // ---------------------------------------------------------------------------

  /** What the decoder receives for a payload segment. */
  function Prepared(segment: string): (r: string)
    ensures |r| % 4 == 0
  {
    Pad(UrlToStd(segment))
  }

  /**
    A base64url segment becomes standard base64 with correct padding, and
    the segment can be read back from it.
   */
  lemma PreparedIsBase64(segment: string)
    requires forall i | 0 <= i < |segment| :: IsUrlChar(segment[i])
    ensures var r := Prepared(segment);
      && (forall i | 0 <= i < |segment| :: IsStdChar(r[i]))
      && (forall i | |segment| <= i < |r| :: r[i] == '=')
      && |r| - |segment| == PadCount(|segment|)
      && StdToUrl(Unpad(r)) == segment
  {
    var b := UrlToStd(segment);
    UrlToStdProperties(segment);
    if b != [] {
      assert IsStdChar(b[|b| - 1]);
    }
    UnpadPad(b, PadCount(|b|));
    assert Unpad(Prepared(segment)) == b;
  }

  /**
    `decodeJwt`: `None` for a missing or empty token and for one without a
    dot; otherwise whatever the decoder makes of the prepared second segment.
   */
  function DecodeJwt(token: Option<string>, decode: Decoder): (r: Option<Claims>)
    ensures token.None? || token.value == "" ==> r.None?
    ensures token.Some? && '.' !in token.value ==> r.None?
    ensures token.Some? && token.value != "" && |Split(token.value, '.')| >= 2 ==> r == decode(Prepared(Split(token.value, '.')[1]))
  {
    if token.None? || token.value == "" then None
    else
      var parts := Split(token.value, '.');
      SplitMany(token.value, '.');
      if |parts| < 2 then None else decode(Prepared(parts[1]))
  }

  /** A compact token `header.payload.signature` is read from its payload segment alone. */
  lemma DecodeCompact(header: string, payload: string, signature: string, decode: Decoder)
    requires '.' !in header && '.' !in payload && '.' !in signature
    ensures DecodeJwt(Some(header + "." + payload + "." + signature), decode) == decode(Prepared(payload))
  {
    var t := header + "." + payload + "." + signature;
    assert t == header + ['.'] + (payload + ['.'] + signature);
    SplitAfterHead(header, '.', payload + ['.'] + signature);
    SplitAfterHead(payload, '.', signature);
    assert Split(t, '.')[1] == payload;
    assert t[|header|] == '.';
  }
}
