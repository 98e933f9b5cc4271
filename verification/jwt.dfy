/** Signed bearer credentials as the token service sees them. A raw token is
    either the output of the signer (its claims payload under a membership's
    crypto settings) or text the signer never produced. Claim names follow
    section 4.1 of RFC 7519: `sub` (4.1.2), `iat` (4.1.6), `jti` (4.1.7); the
    membership id travels in the non-registered `prn` claim. */
module Jwt {
  import opened Results

  const JtiClaim: string := "jti"
  const SubClaim: string := "sub"
  const PrnClaim: string := "prn"
  /** `TokenService.REFRESH_TOKEN_CLAIM`. */
  const RefreshTokenClaim: string := "refresh_token"
  /** The text a boolean `true` claim carries in a decoded token. */
  const TrueText: string := "true"

  datatype Claim = Claim(kind: string, value: string)

  /** The decoded view of a token: its named claims in order, its issue
      instant and its expiry instant (seconds). */
  datatype Payload = Payload(claims: seq<Claim>, issuedAt: int, validTo: int)

  /** A membership's hash algorithm and text encoding, used both to hash
      passwords and to sign tokens. */
  datatype CryptoSettings = CryptoSettings(hashAlgorithm: string, encoding: string)

  datatype RawToken = Signed(payload: Payload, settings: CryptoSettings) | Malformed(text: string)

  /** `TokenClaims`: token id, subject, membership, lifetime, plus added claims. */
  datatype TokenClaims = TokenClaims(tokenId: string, userId: string, membershipId: string, expiresIn: int, extra: seq<Claim>)

  /** `Claims.FirstOrDefault(x => x.Type == kind)`: the value of the first claim of that kind. */
  function FindClaim(claims: seq<Claim>, kind: string): (v: Option<string>)
    ensures v.None? <==> forall i :: 0 <= i < |claims| ==> claims[i].kind != kind
    ensures v.Some? ==> exists i :: 0 <= i < |claims| && claims[i] == Claim(kind, v.value)
                                   && forall j :: 0 <= j < i ==> claims[j].kind != kind
  {
    if |claims| == 0 then None
    else if claims[0].kind == kind then Some(claims[0].value)
    else
      var v := FindClaim(claims[1..], kind);
      assert forall i :: 1 <= i < |claims| ==> claims[i] == claims[1..][i - 1];
      if v.Some? then
        var i :| 0 <= i < |claims[1..]| && claims[1..][i] == Claim(kind, v.value)
                 && forall j :: 0 <= j < i ==> claims[1..][j].kind != kind;
        assert claims[i + 1] == Claim(kind, v.value);
        v
      else v
  }

  /** The first claim of a kind is the one found. */
  lemma FindClaimAt(claims: seq<Claim>, kind: string, i: int)
    requires 0 <= i < |claims| && claims[i].kind == kind
    requires forall j :: 0 <= j < i ==> claims[j].kind != kind
    ensures FindClaim(claims, kind) == Some(claims[i].value)
  {
    var v := FindClaim(claims, kind);
    var k :| 0 <= k < |claims| && claims[k] == Claim(kind, v.value)
             && forall j :: 0 <= j < k ==> claims[j].kind != kind;
    assert k == i;
  }

  /** `TokenClaims.AddClaim`. */
  function AddClaim(c: TokenClaims, kind: string, value: string): TokenClaims {
    c.(extra := c.extra + [Claim(kind, value)])
  }

  /** The claims a token issued at `issuedAt` carries; it expires `expiresIn` later. */
  function Serialize(c: TokenClaims, issuedAt: int): Payload {
    Payload([Claim(JtiClaim, c.tokenId), Claim(SubClaim, c.userId), Claim(PrnClaim, c.membershipId)] + c.extra,
            issuedAt, issuedAt + c.expiresIn)
  }

  /** `jwtService.GenerateToken`. */
  function Sign(c: TokenClaims, issuedAt: int, settings: CryptoSettings): RawToken {
    Signed(Serialize(c, issuedAt), settings)
  }

  /** `jwtService.TryDecodeToken`. */
  function Decode(t: RawToken): Option<Payload> {
    match t
    case Signed(p, _) => Some(p)
    case Malformed(_) => None
  }

  /** Decoding what was signed gives back the claims, with the standard names. */
  lemma DecodeSign(c: TokenClaims, issuedAt: int, settings: CryptoSettings)
    ensures Decode(Sign(c, issuedAt, settings)).Some?
    ensures var p := Decode(Sign(c, issuedAt, settings)).value;
      && FindClaim(p.claims, JtiClaim) == Some(c.tokenId)
      && FindClaim(p.claims, SubClaim) == Some(c.userId)
      && FindClaim(p.claims, PrnClaim) == Some(c.membershipId)
      && p.issuedAt == issuedAt
      && p.validTo == issuedAt + c.expiresIn
  {
    var claims := Serialize(c, issuedAt).claims;
    FindClaimAt(claims, JtiClaim, 0);
    FindClaimAt(claims, SubClaim, 1);
    FindClaimAt(claims, PrnClaim, 2);
  }

  /** Signing is injective: two tokens are equal only when everything signed is. */
  lemma SignInjective(c1: TokenClaims, i1: int, s1: CryptoSettings, c2: TokenClaims, i2: int, s2: CryptoSettings)
    requires Sign(c1, i1, s1) == Sign(c2, i2, s2)
    ensures c1 == c2 && i1 == i2 && s1 == s2
  {
    var p1, p2 := Serialize(c1, i1), Serialize(c2, i2);
    assert p1.claims == p2.claims;
    assert p1.claims[0] == Claim(JtiClaim, c1.tokenId) && p2.claims[0] == Claim(JtiClaim, c2.tokenId);
    assert p1.claims[1] == Claim(SubClaim, c1.userId) && p2.claims[1] == Claim(SubClaim, c2.userId);
    assert p1.claims[2] == Claim(PrnClaim, c1.membershipId) && p2.claims[2] == Claim(PrnClaim, c2.membershipId);
    assert c1.extra == p1.claims[3..] == p2.claims[3..] == c2.extra;
  }

  /** `char.IsWhiteSpace`: the controls U+0009 to U+000D and U+0085, the
      space separators, and the line and paragraph separators. */
  predicate IsWhiteSpace(ch: char) {
    || ('\t' <= ch <= '\r') || ch == ' ' || ch == '\U{85}' || ch == '\U{A0}' || ch == '\U{1680}'
    || ('\U{2000}' <= ch <= '\U{200A}') || ch == '\U{2028}' || ch == '\U{2029}'
    || ch == '\U{202F}' || ch == '\U{205F}' || ch == '\U{3000}'
  }

  /** What `bool.TryParse` strips from both ends of its input: white space and NUL. */
  predicate Trimmable(ch: char) {
    IsWhiteSpace(ch) || ch == '\0'
  }

  predicate AllTrimmable(s: string) {
    forall i :: 0 <= i < |s| ==> Trimmable(s[i])
  }

  /** Leading white space and NUL characters dropped. */
  function TrimStart(s: string): (t: string)
    ensures |t| <= |s|
    ensures t == s[|s| - |t|..]
    ensures |t| > 0 ==> !Trimmable(t[0])
    ensures forall k :: 0 <= k < |s| - |t| ==> Trimmable(s[k])
  {
    if |s| > 0 && Trimmable(s[0]) then
      var t := TrimStart(s[1..]);
      assert forall k :: 0 <= k < |s| - |t| ==> Trimmable(s[k]) by {
        forall k | 0 < k < |s| - |t| ensures Trimmable(s[k]) {
          assert s[k] == s[1..][k - 1];
        }
      }
      t
    else s
  }

  /** Trailing white space and NUL characters dropped. */
  function TrimEnd(s: string): (t: string)
    ensures |t| <= |s|
    ensures t == s[..|t|]
    ensures |t| > 0 ==> !Trimmable(t[|t| - 1])
    ensures forall k :: |t| <= k < |s| ==> Trimmable(s[k])
  {
    if |s| > 0 && Trimmable(s[|s| - 1]) then
      var t := TrimEnd(s[..|s| - 1]);
      assert forall k :: |t| <= k < |s| ==> Trimmable(s[k]) by {
        forall k | |t| <= k < |s| - 1 ensures Trimmable(s[k]) {
          assert s[k] == s[..|s| - 1][k];
        }
      }
      t
    else s
  }

  /** `TrimWhiteSpaceAndNull`: both ends. */
  function Trim(s: string): string {
    TrimEnd(TrimStart(s))
  }

  /** Dropping a trimmable prefix up to the first character that is not
      trimmable is what `TrimStart` does. */
  lemma TrimStartStopsAt(s: string, i: nat)
    requires i < |s| && !Trimmable(s[i])
    requires forall k :: 0 <= k < i ==> Trimmable(s[k])
    ensures TrimStart(s) == s[i..]
  {
  }

  /** Dropping a trimmable suffix back to the last character that is not
      trimmable is what `TrimEnd` does. */
  lemma TrimEndStopsAt(s: string, j: nat)
    requires 0 < j <= |s| && !Trimmable(s[j - 1])
    requires forall k :: j <= k < |s| ==> Trimmable(s[k])
    ensures TrimEnd(s) == s[..j]
  {
  }

  /** A run of trimmable characters, read by index. */
  lemma AllTrimmableAt(s: string, lo: int, hi: int)
    requires 0 <= lo <= hi <= |s|
    ensures AllTrimmable(s[lo..hi]) <==> forall k :: lo <= k < hi ==> Trimmable(s[k])
  {
    if forall k :: lo <= k < hi ==> Trimmable(s[k]) {
      forall i | 0 <= i < hi - lo ensures Trimmable(s[lo..hi][i]) {
        assert s[lo..hi][i] == s[lo + i];
      }
    }
    if AllTrimmable(s[lo..hi]) {
      forall k | lo <= k < hi ensures Trimmable(s[k]) {
        assert s[k] == s[lo..hi][k - lo];
      }
    }
  }

  function LowerAscii(ch: char): char {
    if 'A' <= ch <= 'Z' then (ch as int + 32) as char else ch
  }

  function Lower(s: string): (t: string)
    ensures |t| == |s|
    ensures forall i :: 0 <= i < |s| ==> t[i] == LowerAscii(s[i])
  {
    if |s| == 0 then "" else [LowerAscii(s[0])] + Lower(s[1..])
  }

  /** `text` is `word`, in any ASCII letter case, with nothing but white
      space and NUL characters around it. */
  predicate PaddedWord(text: string, word: string) {
    exists i, j :: 0 <= i <= j <= |text| && AllTrimmable(text[..i]) && AllTrimmable(text[j..]) && Lower(text[i..j]) == word
  }

  /** Trimming and lower-casing yields a word that starts and ends with a
      character that is not trimmable exactly when the text is that word
      padded. */
  lemma TrimFindsPaddedWord(text: string, word: string)
    requires |word| > 0 && !Trimmable(word[0]) && !Trimmable(word[|word| - 1])
    ensures Lower(Trim(text)) == word <==> PaddedWord(text, word)
  {
    if Lower(Trim(text)) == word {
      TrimIsPadded(text, word);
    }
    if PaddedWord(text, word) {
      PaddedIsTrim(text, word);
    }
  }

  /** The trimmed text is the word padded. */
  lemma TrimIsPadded(text: string, word: string)
    requires Lower(Trim(text)) == word
    ensures PaddedWord(text, word)
  {
    var i, j := TrimmedIsPadded(text);
    assert Lower(text[i..j]) == word;
  }

  /** A padded word trims to the word. */
  lemma PaddedIsTrim(text: string, word: string)
    requires |word| > 0 && !Trimmable(word[0]) && !Trimmable(word[|word| - 1])
    requires PaddedWord(text, word)
    ensures Lower(Trim(text)) == word
  {
    var a, b :| 0 <= a <= b <= |text| && AllTrimmable(text[..a]) && AllTrimmable(text[b..]) && Lower(text[a..b]) == word;
    PaddedCoreTrims(text, word, a, b);
  }

  /** The padding around a given occurrence of the word is exactly what
      trimming removes. */
  lemma PaddedCoreTrims(text: string, word: string, a: int, b: int)
    requires |word| > 0 && !Trimmable(word[0]) && !Trimmable(word[|word| - 1])
    requires 0 <= a <= b <= |text| && AllTrimmable(text[..a]) && AllTrimmable(text[b..]) && Lower(text[a..b]) == word
    ensures Trim(text) == text[a..b]
  {
    LowerEndsNotTrimmable(text[a..b], word);
    EndsOfSlice(text, a, b);
    PaddedTrims(text, a, b);
  }

  lemma EndsOfSlice<T>(s: seq<T>, a: int, b: int)
    requires 0 <= a < b <= |s|
    ensures s[a..b][0] == s[a] && s[a..b][b - a - 1] == s[b - 1]
  {
  }

  /** What trimming leaves is the text with a trimmable run taken off each end. */
  lemma TrimmedIsPadded(text: string) returns (i: int, j: int)
    ensures 0 <= i <= j <= |text|
    ensures AllTrimmable(text[..i]) && AllTrimmable(text[j..]) && Trim(text) == text[i..j]
  {
    i := TrimStartSplit(text);
    var front := text[i..];
    var m := TrimEndSplit(front);
    j := i + m;
    SliceOfSuffix(text, i, m);
  }

  lemma SliceOfSuffix<T>(s: seq<T>, i: int, m: int)
    requires 0 <= i && 0 <= m && i + m <= |s|
    ensures s[i..][..m] == s[i..i + m] && s[i..][m..] == s[i + m..]
  {
  }

  /** `TrimStart` takes a trimmable prefix off. */
  lemma TrimStartSplit(text: string) returns (i: int)
    ensures 0 <= i <= |text| && TrimStart(text) == text[i..] && AllTrimmable(text[..i])
  {
    i := |text| - |TrimStart(text)|;
    AllTrimmableAt(text, 0, i);
    assert text[0..i] == text[..i];
  }

  /** `TrimEnd` takes a trimmable suffix off. */
  lemma TrimEndSplit(text: string) returns (j: int)
    ensures 0 <= j <= |text| && TrimEnd(text) == text[..j] && AllTrimmable(text[j..])
  {
    j := |TrimEnd(text)|;
    AllTrimmableAt(text, j, |text|);
    assert text[j..|text|] == text[j..];
  }

  /** A text with a trimmable run taken off each end, and whose remaining
      middle starts and ends with characters that are not trimmable, trims to
      that middle. */
  lemma PaddedTrims(text: string, a: int, b: int)
    requires 0 <= a < b <= |text| && !Trimmable(text[a]) && !Trimmable(text[b - 1])
    requires AllTrimmable(text[..a]) && AllTrimmable(text[b..])
    ensures Trim(text) == text[a..b]
  {
    assert text[0..a] == text[..a];
    AllTrimmableAt(text, 0, a);
    TrimStartStopsAt(text, a);
    TrimEndOfSuffix(text, a, b);
  }

  /** The trimmable run after position `b` is what `TrimEnd` drops from the
      suffix starting at `a`. */
  lemma TrimEndOfSuffix(text: string, a: int, b: int)
    requires 0 <= a < b <= |text| && !Trimmable(text[b - 1]) && AllTrimmable(text[b..])
    ensures TrimEnd(text[a..]) == text[a..b]
  {
    var front := text[a..];
    assert text[b..|text|] == text[b..];
    AllTrimmableAt(text, b, |text|);
    forall k | b - a <= k < |front| ensures Trimmable(front[k]) {
      assert front[k] == text[a + k];
    }
    assert front[b - a - 1] == text[b - 1];
    TrimEndStopsAt(front, b - a);
  }

  /** Lower-casing never turns a trimmable character into another one, so a
      text whose lower case starts and ends with characters that are not
      trimmable starts and ends with such characters itself. */
  lemma LowerEndsNotTrimmable(core: string, word: string)
    requires |word| > 0 && !Trimmable(word[0]) && !Trimmable(word[|word| - 1])
    requires Lower(core) == word
    ensures |core| == |word| && !Trimmable(core[0]) && !Trimmable(core[|core| - 1])
  {
    assert LowerAscii(core[0]) == word[0];
    assert LowerAscii(core[|core| - 1]) == word[|word| - 1];
    LowerKeepsTrimmable(core[0]);
    LowerKeepsTrimmable(core[|core| - 1]);
  }

  /** No trimmable character is an upper-case ASCII letter. */
  lemma LowerKeepsTrimmable(ch: char)
    ensures Trimmable(ch) ==> LowerAscii(ch) == ch
  {
  }

  /** `bool.TryParse`: true exactly for `true` and false exactly for `false`,
      in any ASCII letter case and padded with white space or NUL; no value
      for any other text. */
  function ParseBool(text: string): (b: Option<bool>)
    ensures b == Some(true) <==> PaddedWord(text, "true")
    ensures b == Some(false) <==> PaddedWord(text, "false")
    ensures b.None? <==> !PaddedWord(text, "true") && !PaddedWord(text, "false")
  {
    TrimFindsPaddedWord(text, "true");
    TrimFindsPaddedWord(text, "false");
    var t := Lower(Trim(text));
    if t == "true" then Some(true) else if t == "false" then Some(false) else None
  }

  /** Text without upper-case ASCII letters is its own lower case. */
  lemma {:induction false} LowerKeepsLowerCase(s: string)
    requires forall i :: 0 <= i < |s| ==> !('A' <= s[i] <= 'Z')
    ensures Lower(s) == s
  {
    if |s| > 0 {
      LowerKeepsLowerCase(s[1..]);
      assert s == [s[0]] + s[1..];
    }
  }

  lemma ParseBoolTrueText()
    ensures ParseBool(TrueText) == Some(true)
  {
    LowerKeepsLowerCase(TrueText);
    assert TrueText[..0] == [] && TrueText[4..] == [] && TrueText[0..4] == TrueText;
    assert PaddedWord(TrueText, "true");
  }

  /** NUL characters around the word are ignored like white space. */
  lemma ParseBoolNulPadded()
    ensures ParseBool("\0true") == Some(true)
  {
    var text := "\0true";
    LowerKeepsLowerCase(text[1..5]);
    assert text[..1] == "\0" && text[5..] == [] && text[1..5] == TrueText;
    assert PaddedWord(text, "true");
  }

  /** `TokenService.IsRefreshToken`: the first `refresh_token` claim exists and
      parses as boolean true. */
  predicate IsRefreshToken(p: Payload) {
    match FindClaim(p.claims, RefreshTokenClaim)
    case Some(v) => ParseBool(v) == Some(true)
    case None => false
  }

  /** A payload is refresh-typed exactly when its first `refresh_token` claim
      reads as `true`, ignoring letter case and surrounding white space and NUL. */
  lemma RefreshTokenMeansTrueClaim(p: Payload)
    ensures IsRefreshToken(p) <==>
      && FindClaim(p.claims, RefreshTokenClaim).Some?
      && PaddedWord(FindClaim(p.claims, RefreshTokenClaim).value, "true")
  {
  }

  /** No claim of that kind among the added claims. */
  predicate Lacks(c: TokenClaims, kind: string) {
    forall i :: 0 <= i < |c.extra| ==> c.extra[i].kind != kind
  }

  /** Claims without a refresh claim sign to an access token; adding the
      refresh claim signs to a refresh token. */
  lemma RefreshClaimDecidesType(c: TokenClaims, issuedAt: int)
    requires Lacks(c, RefreshTokenClaim)
    ensures !IsRefreshToken(Serialize(c, issuedAt))
    ensures IsRefreshToken(Serialize(AddClaim(c, RefreshTokenClaim, TrueText), issuedAt))
  {
    var plain := Serialize(c, issuedAt).claims;
    assert forall i :: 0 <= i < |plain| ==> plain[i].kind != RefreshTokenClaim by {
      forall i | 0 <= i < |plain| ensures plain[i].kind != RefreshTokenClaim {
        if i >= 3 { assert plain[i] == c.extra[i - 3]; }
      }
    }
    var marked := Serialize(AddClaim(c, RefreshTokenClaim, TrueText), issuedAt).claims;
    assert marked == plain + [Claim(RefreshTokenClaim, TrueText)];
    FindClaimAt(marked, RefreshTokenClaim, |plain|);
    ParseBoolTrueText();
  }

  /** The two tokens of a pair: signed from the same claims and instant, the
      second with the refresh claim added; only the second is refresh-typed. */
  lemma SignedPair(c: TokenClaims, issuedAt: int, settings: CryptoSettings)
    requires c.extra == []
    ensures var access := Decode(Sign(c, issuedAt, settings));
            var refresh := Decode(Sign(AddClaim(c, RefreshTokenClaim, TrueText), issuedAt, settings));
      && access.Some? && refresh.Some?
      && refresh.value.claims == access.value.claims + [Claim(RefreshTokenClaim, TrueText)]
      && access.value.issuedAt == refresh.value.issuedAt == issuedAt
      && access.value.validTo == refresh.value.validTo == issuedAt + c.expiresIn
      && !IsRefreshToken(access.value) && IsRefreshToken(refresh.value)
  {
    var marked := AddClaim(c, RefreshTokenClaim, TrueText);
    var pa, pr := Serialize(c, issuedAt), Serialize(marked, issuedAt);
    assert Decode(Sign(c, issuedAt, settings)) == Some(pa);
    assert Decode(Sign(marked, issuedAt, settings)) == Some(pr);
    assert marked.extra == [Claim(RefreshTokenClaim, TrueText)];
    assert pr.claims == pa.claims + [Claim(RefreshTokenClaim, TrueText)];
    RefreshClaimDecidesType(c, issuedAt);
  }
}
