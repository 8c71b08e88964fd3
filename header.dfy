/**
 * Reading the bearer token out of the `Authorization` header, as
 * `_verify_jwt_from_request` does before it hands the token to the decoder.
 */
module Header {
  import opened Values

  const BadHeaderMessage := "Badly formatted authorization header. Should be 'Bearer <JWT>'"

  /** The characters Python's argument-less `str.split()` treats as whitespace. */
  predicate IsSpace(c: char)
  {
    || ('\t' <= c <= '\r')
    || ('\U{1C}' <= c <= ' ')
    || c == '\U{85}' || c == '\U{A0}' || c == '\U{1680}'
    || ('\U{2000}' <= c <= '\U{200A}')
    || c == '\U{2028}' || c == '\U{2029}' || c == '\U{202F}' || c == '\U{205F}' || c == '\U{3000}'
  }

  /** A piece `split()` can return: non-empty and free of whitespace. */
  predicate IsWord(w: string)
  {
    w != [] && forall i | 0 <= i < |w| :: !IsSpace(w[i])
  }

  /** Length of the whitespace-free prefix of `s`. */
  function WordLength(s: string): (k: nat)
    ensures k <= |s|
    ensures forall i | 0 <= i < k :: !IsSpace(s[i])
    ensures k == |s| || IsSpace(s[k])
  {
    if s == [] || IsSpace(s[0]) then 0 else 1 + WordLength(s[1..])
  }

  /** Python's `s.split()`: the maximal runs of non-whitespace, in order. */
  function Split(s: string): (words: seq<string>)
    ensures forall i | 0 <= i < |words| :: IsWord(words[i])
    decreases |s|
  {
    if s == [] then []
    else if IsSpace(s[0]) then Split(s[1..])
    else
      var k := WordLength(s);
      [s[..k]] + Split(s[k..])
  }

  /** `' '.join(words)`. */
  function JoinSpaces(words: seq<string>): string
  {
    if words == [] then ""
    else if |words| == 1 then words[0]
    else words[0] + " " + JoinSpaces(words[1..])
  }

  lemma {:induction false} WordLengthOfWord(w: string, rest: string)
    requires IsWord(w)
    requires rest == [] || IsSpace(rest[0])
    ensures WordLength(w + rest) == |w|
    decreases |w|
  {
    if |w| > 1 {
      assert (w + rest)[1..] == w[1..] + rest;
      WordLengthOfWord(w[1..], rest);
    }
  }

  /** A word followed by whitespace (or nothing) is split off as the first piece. */
  lemma SplitWordThen(w: string, rest: string)
    requires IsWord(w)
    requires rest == [] || IsSpace(rest[0])
    ensures Split(w + rest) == [w] + Split(rest)
  {
    WordLengthOfWord(w, rest);
    assert (w + rest)[..|w|] == w;
    assert (w + rest)[|w|..] == rest;
  }

  /** Splitting undoes joining with single spaces, for pieces `split()` could produce. */
  lemma {:induction false} SplitJoinSpaces(words: seq<string>)
    requires forall i | 0 <= i < |words| :: IsWord(words[i])
    ensures Split(JoinSpaces(words)) == words
  {
    if |words| == 1 {
      SplitWordThen(words[0], []);
      assert words[0] + [] == words[0];
    } else if |words| > 1 {
      var tail := JoinSpaces(words[1..]);
      assert words[0] + " " + tail == words[0] + (" " + tail);
      SplitWordThen(words[0], " " + tail);
      assert (" " + tail)[1..] == tail;
      SplitJoinSpaces(words[1..]);
    }
  }

  /** `split()` returns nothing exactly when the string is all whitespace. */
  lemma {:induction false} SplitEmptyIffBlank(s: string)
    ensures Split(s) == [] <==> forall i | 0 <= i < |s| :: IsSpace(s[i])
    decreases |s|
  {
    if s != [] && IsSpace(s[0]) {
      SplitEmptyIffBlank(s[1..]);
      assert forall i | 1 <= i < |s| :: s[i] == s[1..][i - 1];
    }
  }

  /** A word stops where `s` has whitespace, so text appended after that point does not change it. */
  lemma {:induction false} WordLengthOfPrefix(s: string, t: string)
    requires WordLength(s) < |s| || (t != [] && IsSpace(t[0]))
    ensures WordLength(s + t) == WordLength(s)
    decreases |s|
  {
    if s != [] && !IsSpace(s[0]) {
      assert (s + t)[1..] == s[1..] + t;
      WordLengthOfPrefix(s[1..], t);
    }
  }

  /**
   * A whitespace character separates: what `split()` makes of the text before
   * it and of the text after it, in order, is what it makes of the whole.
   * With `Split([]) == []` and `SplitWordThen(w, [])` this fixes `Split` on
   * every string.
   */
  lemma {:induction false} SplitAtSpace(a: string, c: char, b: string)
    requires IsSpace(c)
    ensures Split(a + [c] + b) == Split(a) + Split(b)
    decreases |a|
  {
    var s := a + [c] + b;
    if a == [] {
      assert s[1..] == b;
    } else if IsSpace(a[0]) {
      assert s[1..] == a[1..] + [c] + b;
      SplitAtSpace(a[1..], c, b);
    } else {
      var k := WordLength(a);
      WordLengthOfPrefix(a, [c] + b);
      assert s == a + ([c] + b);
      assert s[..k] == a[..k];
      assert s[k..] == a[k..] + [c] + b;
      SplitAtSpace(a[k..], c, b);
    }
  }

  predicate IsBlank(s: string)
  {
    forall i | 0 <= i < |s| :: IsSpace(s[i])
  }

  /** Leading whitespace is dropped. */
  lemma {:induction false} SplitAfterBlank(p: string, x: string)
    requires IsBlank(p)
    ensures Split(p + x) == Split(x)
    decreases |p|
  {
    if p == [] {
      assert p + x == x;
    } else {
      assert (p + x)[0] == p[0] && IsSpace(p[0]);
      assert (p + x)[1..] == p[1..] + x;
      assert IsBlank(p[1..]) by {
        forall i | 0 <= i < |p[1..]| ensures IsSpace(p[1..][i]) { assert p[1..][i] == p[i + 1]; }
      }
      SplitAfterBlank(p[1..], x);
    }
  }

  /** Trailing whitespace is dropped. */
  lemma SplitBeforeBlank(x: string, q: string)
    requires IsBlank(q)
    ensures Split(x + q) == Split(x)
  {
    if q == [] {
      assert x + q == x;
    } else {
      assert x + q == x + [q[0]] + q[1..];
      assert IsSpace(q[0]);
      SplitAtSpace(x, q[0], q[1..]);
      assert IsBlank(q[1..]) by {
        forall i | 0 <= i < |q[1..]| ensures IsSpace(q[1..][i]) { assert q[1..][i] == q[i + 1]; }
      }
      SplitEmptyIffBlank(q[1..]);
      assert Split(x) + [] == Split(x);
    }
  }

  /** The outcomes of reading the header, before any decoding. */
  datatype HeaderResult =
    | NoAuthHeader                   // NoAuthHeaderError
    | InvalidHeader(msg: string)     // InvalidHeaderError
    | HeaderIndexError               // `parts[0]` on an empty split: an uncaught IndexError
    | BearerToken(token: string)     // the token handed to the decoder

  /**
   * Lines 143-156 of `_verify_jwt_from_request`. An absent or empty header is
   * missing; a header of whitespace only is truthy but splits to nothing, so
   * indexing its first part raises; a header is accepted only when it splits
   * into exactly `Bearer` and one token.
   */
  function ParseHeader(header: Option<string>): (r: HeaderResult)
    ensures r == NoAuthHeader <==> header == None || header == Some("")
    ensures r == HeaderIndexError <==>
              header.Some? && header.value != "" && forall i | 0 <= i < |header.value| :: IsSpace(header.value[i])
    ensures r.BearerToken? <==> header.Some? && |Split(header.value)| == 2 && Split(header.value)[0] == "Bearer"
    ensures r.BearerToken? ==> IsWord(r.token) && Split(header.value) == ["Bearer", r.token]
    ensures r.InvalidHeader? ==> r.msg == BadHeaderMessage
  {
    if header == None || header.value == "" then NoAuthHeader
    else
      var parts := Split(header.value);
      SplitEmptyIffBlank(header.value);
      if |parts| == 0 then HeaderIndexError
      else if parts[0] != "Bearer" then InvalidHeader(BadHeaderMessage)
      else if |parts| != 2 then InvalidHeader(BadHeaderMessage)
      else BearerToken(parts[1])
  }

  /**
   * The header a client builds as `'Bearer {}'.format(token)` yields exactly
   * that token, and does so only when the token is a single word.
   */
  lemma BearerRoundTrip(token: string)
    ensures ParseHeader(Some("Bearer " + token)) == BearerToken(token) <==> IsWord(token)
  {
    var h := "Bearer " + token;
    assert h == "Bearer" + (" " + token);
    SplitWordThen("Bearer", " " + token);
    assert (" " + token)[1..] == token;
    assert Split(h) == ["Bearer"] + Split(token);
    if IsWord(token) {
      SplitJoinSpaces(["Bearer", token]);
      assert JoinSpaces(["Bearer", token]) == h;
    }
  }

  /**
   * Whitespace around the two parts, and the kind and amount of whitespace
   * between them, do not matter: `" Bearer  tok "` and `"Bearer\ttok"` both
   * yield `tok`.
   */
  lemma BearerAnySpacing(before: string, between: string, after: string, token: string)
    requires IsBlank(before) && IsBlank(after) && IsBlank(between) && between != []
    requires IsWord(token)
    ensures ParseHeader(Some(before + "Bearer" + between + token + after)) == BearerToken(token)
  {
    var rest := between[1..] + (token + after);
    var h := before + "Bearer" + between + token + after;
    assert h == before + ("Bearer" + [between[0]] + rest);
    assert IsBlank(between[1..]) by {
      forall i | 0 <= i < |between[1..]| ensures IsSpace(between[1..][i]) { assert between[1..][i] == between[i + 1]; }
    }
    calc {
      Split(h);
      { SplitAfterBlank(before, "Bearer" + [between[0]] + rest); }
      Split("Bearer" + [between[0]] + rest);
      { SplitAtSpace("Bearer", between[0], rest); }
      Split("Bearer") + Split(rest);
      { SplitWordThen("Bearer", []); assert "Bearer" + [] == "Bearer"; }
      ["Bearer"] + Split(rest);
      { SplitAfterBlank(between[1..], token + after); }
      ["Bearer"] + Split(token + after);
      { SplitBeforeBlank(token, after); }
      ["Bearer"] + Split(token);
      { SplitWordThen(token, []); assert token + [] == token; }
      ["Bearer", token];
    }
  }
}
