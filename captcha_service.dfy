/**
 * CaptchaServiceImpl: issuing a challenge token bound to its answer text in
 * the store, and verifying a submitted answer against it exactly once.
 *
 * `RandomStringUtils.randomAlphanumeric(16)` becomes the parameter
 * `candidates`, the successive tokens it would return; the random draws of
 * the answer text are `rolls`, as in TextCreator.
 */
module CaptchaService {
  import opened Results
  import TextCreator
  import opened RedisStore

  /** CODE_PERFIX: the namespace of every key the service writes. */
  const CodePrefix: string := "captcha"

  /** The length of a token drawn by randomAlphanumeric. */
  const TokenLength: nat := 16

  /** Seconds a binding stays live after it is claimed. */
  const TtlSeconds: int := 180

  /** The outcomes of RepCodeEnum that verification can report. */
  datatype RepCode = Success | NullError | ApiCaptchaInvalid | ApiCaptchaCoordinateError

  /** The repCode string carried in the response for each outcome. */
  function Code(r: RepCode): (code: string)
    ensures |code| == 4
  {
    match r
    case Success => "0000"
    case NullError => "0011"
    case ApiCaptchaInvalid => "6110"
    case ApiCaptchaCoordinateError => "6111"
  }

  /** A client tells the four outcomes apart by their codes. */
  lemma CodesDistinct(a: RepCode, b: RepCode)
    ensures Code(a) == Code(b) <==> a == b
  {
  }

  /** The store key of a token: prefix, ':' and the token itself. */
  function CacheKey(token: string): (key: string)
    ensures |key| == |CodePrefix| + 1 + |token|
    ensures key[..|CodePrefix| + 1] == "captcha:" && key[|CodePrefix| + 1..] == token
  {
    CodePrefix + ":" + token
  }

  /** Every key carries the prefix, and distinct tokens never share a key. */
  lemma {:induction false} CacheKeyInjective(a: string, b: string)
    ensures CacheKey(a)[..|CodePrefix| + 1] == "captcha:"
    ensures CacheKey(a) == CacheKey(b) <==> a == b
  {
    assert CacheKey(a)[|CodePrefix| + 1..] == a;
    assert CacheKey(b)[|CodePrefix| + 1..] == b;
  }

  /** What randomAlphanumeric(16) can return. */
  predicate IsToken(t: string)
  {
    |t| == TokenLength && forall i :: 0 <= i < |t| ==> TextCreator.IsAlphanumeric(t[i])
  }

  /**
   * Character.isWhitespace: the ASCII separators and the Unicode space,
   * line and paragraph separators other than the no-break spaces.
   */
  predicate IsWhitespace(c: char): (r: bool)
    ensures r ==> c as int < 0x1_0000
    ensures c == ' ' || c == '\t' || c == '\n' || c == '\r' ==> r
    ensures c as int == 0xA0 || c as int == 0x2007 || c as int == 0x202F ==> !r
    ensures TextCreator.IsAlphanumeric(c) ==> !r
  {
    var n := c as int;
    (0x09 <= n <= 0x0D) || (0x1C <= n <= 0x20) || n == 0x1680
    || (0x2000 <= n <= 0x2006) || (0x2008 <= n <= 0x200A)
    || n == 0x2028 || n == 0x2029 || n == 0x205F || n == 0x3000
  }

  /** StringUtils.isBlank: null, empty, or whitespace only. */
  predicate IsBlank(s: Option<string>): (r: bool)
    ensures s.Some? && |s.value| == 0 ==> r
    ensures r && s.Some? ==> forall i :: 0 <= i < |s.value| ==> !TextCreator.IsAlphanumeric(s.value[i])
  {
    s.None? || forall i :: 0 <= i < |s.value| ==> IsWhitespace(s.value[i])
  }

  /** A drawn token is never blank. */
  lemma {:induction false} TokenNotBlank(t: string)
    requires IsToken(t)
    ensures !IsBlank(Some(t))
  {
    assert !IsWhitespace(t[0]);
  }

  /** A generated answer text is never blank. */
  lemma {:induction false} TextNotBlank(rolls: seq<int>)
    requires TextCreator.ValidRolls(rolls)
    ensures !IsBlank(Some(TextCreator.TextOf(rolls)))
  {
    var text := TextCreator.TextOf(rolls);
    assert text[0] == TextCreator.CharSequence[rolls[0]];
    TextCreator.TableIsAlphanumeric();
    assert !IsWhitespace(text[0]);
  }

  /** Character.toUpperCase, on the ASCII letters. */
  function ToUpper(c: char): char
  {
    if 'a' <= c <= 'z' then (c as int - 32) as char else c
  }

  /** Character.toLowerCase, on the ASCII letters. */
  function ToLower(c: char): char
  {
    if 'A' <= c <= 'Z' then (c as int + 32) as char else c
  }

  /** The character test of String.regionMatches with ignoreCase. */
  predicate SameIgnoringCase(a: char, b: char)
  {
    a == b || ToUpper(a) == ToUpper(b) || ToLower(ToUpper(a)) == ToLower(ToUpper(b))
  }

  /** String.equalsIgnoreCase against a non-null argument. */
  predicate EqualsIgnoreCase(s: string, t: string): (r: bool)
    ensures s == t ==> r
    ensures r ==> |s| == |t| && forall i :: 0 <= i < |s| ==> ToLower(ToUpper(s[i])) == ToLower(ToUpper(t[i]))
  {
    |s| == |t| && forall i :: 0 <= i < |s| ==> SameIgnoringCase(s[i], t[i])
  }

  function UpperCase(s: string): (u: string)
    ensures |u| == |s|
  {
    seq(|s|, i requires 0 <= i < |s| => ToUpper(s[i]))
  }

  /**
   * Two strings match ignoring case exactly when their upper-case forms are
   * equal; so the comparison is an equivalence.
   */
  lemma {:induction false} EqualsIgnoreCaseIsUpperCaseEquality(s: string, t: string)
    ensures EqualsIgnoreCase(s, t) <==> UpperCase(s) == UpperCase(t)
  {
    if EqualsIgnoreCase(s, t) {
      forall i | 0 <= i < |s| ensures UpperCase(s)[i] == UpperCase(t)[i] {
        assert SameIgnoringCase(s[i], t[i]);
      }
    }
    if UpperCase(s) == UpperCase(t) {
      forall i | 0 <= i < |s| ensures SameIgnoringCase(s[i], t[i]) {
        assert UpperCase(s)[i] == UpperCase(t)[i];
      }
    }
  }

  /** An answer typed entirely in upper case is accepted. */
  lemma {:induction false} UpperCaseAnswerMatches(s: string)
    ensures EqualsIgnoreCase(s, UpperCase(s))
  {
    forall i | 0 <= i < |s| ensures SameIgnoringCase(s[i], UpperCase(s)[i]) {
      assert UpperCase(s)[i] == ToUpper(s[i]);
    }
  }

  /**
   * verifyCaptcha on a store whose live bindings are `live`: the outcome and
   * the bindings afterwards.
   */
  function VerifyStep(token: Option<string>, code: Option<string>, live: map<string, string>): (r: (RepCode, map<string, string>))
    ensures r.0 == NullError <==> IsBlank(token) || IsBlank(code)
    ensures r.1.Keys <= live.Keys && forall k :: k in r.1 ==> r.1[k] == live[k]
    ensures r.1 == live <==> r.0 == NullError || r.0 == ApiCaptchaInvalid
  {
    if IsBlank(token) || IsBlank(code) then (NullError, live)
    else
      var key := CacheKey(token.value);
      if key !in live then (ApiCaptchaInvalid, live)
      else
        var after := live - {key};
        if EqualsIgnoreCase(live[key], code.value) then (Success, after)
        else (ApiCaptchaCoordinateError, after)
  }

  /** A blank token or code is refused and the bindings stay as they are. */
  lemma BlankIsNullError(token: Option<string>, code: Option<string>, live: map<string, string>)
    requires IsBlank(token) || IsBlank(code)
    ensures VerifyStep(token, code, live) == (NullError, live)
  {
  }

  /** A token with no live binding is invalid and the bindings stay as they are. */
  lemma UnboundTokenIsInvalid(token: string, code: string, live: map<string, string>)
    requires !IsBlank(Some(token)) && !IsBlank(Some(code))
    ensures VerifyStep(Some(token), Some(code), live).0 == ApiCaptchaInvalid <==> CacheKey(token) !in live
    ensures CacheKey(token) !in live ==> VerifyStep(Some(token), Some(code), live).1 == live
  {
  }

  /**
   * A live binding is deleted whatever the comparison says, and the answer
   * succeeds exactly when it matches the bound text ignoring case.
   */
  lemma BoundTokenIsConsumed(token: string, code: string, live: map<string, string>)
    requires !IsBlank(Some(token)) && !IsBlank(Some(code)) && CacheKey(token) in live
    ensures VerifyStep(Some(token), Some(code), live).1 == live - {CacheKey(token)}
    ensures VerifyStep(Some(token), Some(code), live).0 == Success <==> EqualsIgnoreCase(live[CacheKey(token)], code)
    ensures VerifyStep(Some(token), Some(code), live).0 != Success ==> VerifyStep(Some(token), Some(code), live).0 == ApiCaptchaCoordinateError
  {
  }

  /** Verification touches at most the binding of its own token. */
  lemma {:induction false} VerifyTouchesOnlyItsKey(token: Option<string>, code: Option<string>, live: map<string, string>, k: string)
    requires token.Some? ==> k != CacheKey(token.value)
    ensures var after := VerifyStep(token, code, live).1;
      (k in after <==> k in live) && (k in after ==> after[k] == live[k])
  {
  }

  /** Whatever the first attempt said, a second one with the same token is invalid. */
  lemma {:induction false} SecondVerifyIsInvalid(token: string, code: string, code2: string, live: map<string, string>)
    requires !IsBlank(Some(token)) && !IsBlank(Some(code)) && !IsBlank(Some(code2))
    ensures VerifyStep(Some(token), Some(code2), VerifyStep(Some(token), Some(code), live).1).0 == ApiCaptchaInvalid
  {
    var after := VerifyStep(Some(token), Some(code), live).1;
    assert CacheKey(token) !in after;
  }

  /**
   * The first candidate whose key holds no binding: where the do-while of
   * createCaptcha stops.
   */
  function FirstFree(keys: set<string>, candidates: seq<string>): (j: Option<nat>)
    ensures j.Some? ==> j.value < |candidates| && CacheKey(candidates[j.value]) !in keys
    ensures j.Some? ==> forall i :: 0 <= i < j.value ==> CacheKey(candidates[i]) in keys
    ensures j.None? <==> forall i :: 0 <= i < |candidates| ==> CacheKey(candidates[i]) in keys
  {
    if |candidates| == 0 then None
    else if CacheKey(candidates[0]) !in keys then Some(0)
    else
      match FirstFree(keys, candidates[1..])
      case None => None
      case Some(j) => Some(j + 1)
  }

  /** What createCaptcha hands back besides the image: the token, and the text the image shows. */
  datatype Issued = Issued(token: string, text: string)

  /**
   * Issuing and then verifying with the answer succeeds and restores the
   * bindings there were before; verifying again is invalid.
   */
  lemma {:induction false} IssuedAnswerVerifiesOnce(live: map<string, string>, token: string, rolls: seq<int>)
    requires IsToken(token) && TextCreator.ValidRolls(rolls) && CacheKey(token) !in live
    ensures var text := TextCreator.TextOf(rolls);
      var first := VerifyStep(Some(token), Some(text), live[CacheKey(token) := text]);
      first == (Success, live) && VerifyStep(Some(token), Some(text), first.1).0 == ApiCaptchaInvalid
  {
    var text := TextCreator.TextOf(rolls);
    TokenNotBlank(token);
    TextNotBlank(rolls);
    UpperCaseAnswerMatches(text);
    EqualsIgnoreCaseIsUpperCaseEquality(text, text);
    assert live[CacheKey(token) := text] - {CacheKey(token)} == live;
  }

  /**
   * Once TtlSeconds have passed since a binding was claimed, the store has
   * dropped it and its token is invalid, though no one verified it.
   */
  lemma {:induction false} ExpiredTokenIsInvalid(entries: map<string, Binding>, token: string, text: string, code: string, t: int, s: nat)
    requires !IsBlank(Some(token)) && !IsBlank(Some(code)) && s >= TtlSeconds
    ensures var later := Purge(entries[CacheKey(token) := Binding(text, t + TtlSeconds)], t + s);
      VerifyStep(Some(token), Some(code), Values(later)) == (ApiCaptchaInvalid, Values(later))
  {
    LiveForTtl(entries, CacheKey(token), text, t, TtlSeconds, s);
  }

  class CaptchaServiceImpl {
    /** The injected StringRedisTemplate. */
    const store: Store

    constructor (store: Store)
      ensures this.store == store
    {
      this.store := store;
    }

    /**
     * createCaptcha without the image: the text is drawn once, then
     * candidate tokens are tried in order until one claims a free key for
     * TtlSeconds. A rejected candidate leaves the store as it was.
     */
    method CreateCaptcha(rolls: seq<int>, candidates: seq<string>) returns (r: Result<Issued>)
      requires store.Valid() && TextCreator.ValidRolls(rolls)
      requires forall i :: 0 <= i < |candidates| ==> IsToken(candidates[i])
      modifies store`entries, store`trips
      ensures store.Valid() && store.now == old(store.now)
      ensures match FirstFree(old(store.entries).Keys, candidates)
        case None =>
          r == Err(RetriesExhausted) && store.entries == old(store.entries)
        case Some(j) =>
          r == Ok(Issued(candidates[j], TextCreator.TextOf(rolls)))
          && IsToken(r.value.token)
          && store.entries == old(store.entries)[CacheKey(candidates[j]) := Binding(r.value.text, store.now + TtlSeconds)]
    {
      var text := TextCreator.GetText(rolls);
      var i := 0;
      while i < |candidates|
        invariant 0 <= i <= |candidates|
        invariant store.Valid() && store.now == old(store.now) && store.entries == old(store.entries)
        invariant forall k :: 0 <= k < i ==> CacheKey(candidates[k]) in old(store.entries)
      {
        var token := candidates[i];
        var cacheKey := CacheKey(token);
        var success := store.SetIfAbsent(cacheKey, text, TtlSeconds);
        if success {
          r := Ok(Issued(token, text));
          return;
        }
        i := i + 1;
      }
      r := Err(RetriesExhausted);
    }

    /**
     * verifyCaptcha: the blank check before any store access, then GET,
     * DEL of a found binding, and the case-insensitive comparison.
     */
    method VerifyCaptcha(token: Option<string>, code: Option<string>) returns (outcome: RepCode)
      requires store.Valid()
      modifies store`entries, store`trips
      ensures store.Valid() && store.now == old(store.now)
      ensures (outcome, store.Contents()) == VerifyStep(token, code, old(store.Contents()))
      ensures IsBlank(token) || IsBlank(code) ==> outcome == NullError && store.trips == old(store.trips)
      ensures forall k :: k in store.entries ==> k in old(store.entries) && store.entries[k] == old(store.entries)[k]
    {
      if IsBlank(token) || IsBlank(code) {
        return NullError;
      }
      var cacheKey := CacheKey(token.value);
      var expectedCode := store.Get(cacheKey);
      if expectedCode.None? {
        return ApiCaptchaInvalid;
      }
      var removed := store.Delete(cacheKey);
      assert store.Contents() == old(store.Contents()) - {cacheKey};
      if EqualsIgnoreCase(expectedCode.value, code.value) {
        return Success;
      }
      return ApiCaptchaCoordinateError;
    }
  }
}
