/** The JavaScript string primitives the contributor checks and the card rely
    on: `trim`, `toLowerCase`, `toUpperCase` and `endsWith`. */
module JsText {

  /** The ECMAScript WhiteSpace and LineTerminator code points: the
      characters `String.prototype.trim` removes from both ends. */
  predicate IsWhitespace(c: char) {
    || c == ' '
    || '\t' <= c <= '\r'           // tab, line feed, vertical tab, form feed, carriage return
    || c == '\U{00A0}'             // no-break space
    || c == '\U{1680}'
    || '\U{2000}' <= c <= '\U{200A}'
    || c == '\U{2028}' || c == '\U{2029}'   // line and paragraph separators
    || c == '\U{202F}' || c == '\U{205F}' || c == '\U{3000}'
    || c == '\U{FEFF}'             // byte order mark
  }

  /** `String.prototype.trim`: `s` without its leading and its trailing
      whitespace. What it promises is stated in `TrimSpec`. */
  function Trim(s: string): string
    decreases |s|
  {
    if |s| > 0 && IsWhitespace(s[0]) then Trim(s[1..])
    else if |s| > 0 && IsWhitespace(s[|s| - 1]) then Trim(s[..|s| - 1])
    else s
  }

  /** The trimmed string is no longer than `s` and neither starts nor ends
      with whitespace; it is empty exactly when `s` is all whitespace. */
  lemma {:induction false} TrimSpec(s: string)
    ensures |Trim(s)| <= |s|
    ensures Trim(s) != [] ==> !IsWhitespace(Trim(s)[0]) && !IsWhitespace(Trim(s)[|Trim(s)| - 1])
    ensures Trim(s) == [] <==> forall k :: 0 <= k < |s| ==> IsWhitespace(s[k])
    decreases |s|
  {
    if |s| > 0 && IsWhitespace(s[0]) {
      TrimSpec(s[1..]);
      assert forall k :: 1 <= k < |s| ==> s[k] == s[1..][k - 1];
    } else if |s| > 0 && IsWhitespace(s[|s| - 1]) {
      TrimSpec(s[..|s| - 1]);
      assert forall k :: 0 <= k < |s| - 1 ==> s[k] == s[..|s| - 1][k];
    }
  }

  /** Only whitespace comes before position `a` and from position `b` on. */
  predicate PaddedAround(s: string, a: int, b: int) {
    && 0 <= a <= b <= |s|
    && (forall k :: 0 <= k < a ==> IsWhitespace(s[k]))
    && (forall k :: b <= k < |s| ==> IsWhitespace(s[k]))
  }

  lemma PaddedAfterLeading(s: string, a: int, b: int)
    requires |s| > 0 && IsWhitespace(s[0]) && PaddedAround(s[1..], a, b)
    ensures PaddedAround(s, a + 1, b + 1) && s[1..][a..b] == s[a + 1..b + 1]
  {
    assert forall k :: 1 <= k < |s| ==> s[k] == s[1..][k - 1];
  }

  lemma PaddedBeforeTrailing(s: string, a: int, b: int)
    requires |s| > 0 && IsWhitespace(s[|s| - 1]) && PaddedAround(s[..|s| - 1], a, b)
    ensures PaddedAround(s, a, b) && s[..|s| - 1][a..b] == s[a..b]
  {
    assert forall k :: 0 <= k < |s| - 1 ==> s[k] == s[..|s| - 1][k];
  }

  /** The trimmed string is a slice of `s` with only whitespace before and
      after it; with `TrimSpec`, that slice is `s` without its leading and
      trailing whitespace. */
  lemma {:induction false} TrimIsSlice(s: string)
    ensures exists a, b :: PaddedAround(s, a, b) && Trim(s) == s[a..b]
    decreases |s|
  {
    if |s| > 0 && IsWhitespace(s[0]) {
      TrimIsSlice(s[1..]);
      var a, b :| PaddedAround(s[1..], a, b) && Trim(s[1..]) == s[1..][a..b];
      PaddedAfterLeading(s, a, b);
      assert Trim(s) == s[a + 1..b + 1];
    } else if |s| > 0 && IsWhitespace(s[|s| - 1]) {
      TrimIsSlice(s[..|s| - 1]);
      var a, b :| PaddedAround(s[..|s| - 1], a, b) && Trim(s[..|s| - 1]) == s[..|s| - 1][a..b];
      PaddedBeforeTrailing(s, a, b);
      assert Trim(s) == s[a..b];
    } else {
      assert PaddedAround(s, 0, |s|) && Trim(s) == s[0..|s|];
    }
  }

  /** Whitespace in front of a string is all trimmed away. */
  lemma {:induction false} TrimDropsLeading(p: string, s: string)
    requires forall k :: 0 <= k < |p| ==> IsWhitespace(p[k])
    ensures Trim(p + s) == Trim(s)
    decreases |p|
  {
    if p == [] {
      assert p + s == s;
    } else {
      assert (p + s)[1..] == p[1..] + s;
      TrimDropsLeading(p[1..], s);
    }
  }

  /** Whitespace after a string is all trimmed away. */
  lemma {:induction false} TrimDropsTrailing(s: string, q: string)
    requires forall k :: 0 <= k < |q| ==> IsWhitespace(q[k])
    ensures Trim(s + q) == Trim(s)
    decreases |s| + |q|
  {
    if s == [] {
      assert s + q == q;
      TrimSpec(q);
    } else if IsWhitespace(s[0]) {
      assert (s + q)[1..] == s[1..] + q;
      TrimDropsTrailing(s[1..], q);
    } else if q == [] {
      assert s + q == s;
    } else {
      var m := |q| - 1;
      assert (s + q)[..|s + q| - 1] == s + q[..m];
      TrimDropsTrailing(s, q[..m]);
    }
  }

  /** Trimming twice trims nothing more. */
  lemma TrimIdempotent(s: string)
    ensures Trim(Trim(s)) == Trim(s)
  {
    TrimSpec(s);
  }

  /** Trimming two strings that agree up to ASCII case removes the same
      positions from both, so the results still agree up to case. */
  lemma {:induction false} TrimAgreesUpToCase(a: string, b: string)
    requires |a| == |b| && forall k :: 0 <= k < |a| ==> LowerChar(a[k]) == LowerChar(b[k])
    ensures |Trim(a)| == |Trim(b)|
    ensures forall k :: 0 <= k < |Trim(a)| ==> LowerChar(Trim(a)[k]) == LowerChar(Trim(b)[k])
    decreases |a|
  {
    if |a| > 0 && IsWhitespace(a[0]) {
      assert LowerChar(a[0]) == LowerChar(b[0]);
      TrimAgreesUpToCase(a[1..], b[1..]);
    } else if |a| > 0 && IsWhitespace(a[|a| - 1]) {
      assert LowerChar(a[|a| - 1]) == LowerChar(b[|a| - 1]);
      TrimAgreesUpToCase(a[..|a| - 1], b[..|a| - 1]);
    } else if |a| > 0 {
      assert LowerChar(a[0]) == LowerChar(b[0]);
      assert LowerChar(a[|a| - 1]) == LowerChar(b[|a| - 1]);
    }
  }

  predicate IsAsciiUpper(c: char) { 'A' <= c <= 'Z' }

  predicate IsAsciiLower(c: char) { 'a' <= c <= 'z' }

  function LowerChar(c: char): char {
    if IsAsciiUpper(c) then (c as int + 32) as char else c
  }

  function UpperChar(c: char): char {
    if IsAsciiLower(c) then (c as int - 32) as char else c
  }

  /** `toLowerCase` on the ASCII letters; every other character is kept. */
  function ToLower(s: string): string {
    if s == [] then [] else [LowerChar(s[0])] + ToLower(s[1..])
  }

  /** `toUpperCase` on the ASCII letters; every other character is kept. */
  function ToUpper(s: string): string {
    if s == [] then [] else [UpperChar(s[0])] + ToUpper(s[1..])
  }

  /** `toUpperCase` maps each character on its own and leaves no ASCII
      lower-case letter behind. */
  lemma {:induction false} ToUpperSpec(s: string)
    ensures |ToUpper(s)| == |s|
    ensures forall k :: 0 <= k < |s| ==> ToUpper(s)[k] == UpperChar(s[k])
    ensures forall k :: 0 <= k < |s| ==> !IsAsciiLower(ToUpper(s)[k])
  {
    if s != [] {
      ToUpperSpec(s[1..]);
    }
  }

  /** `toLowerCase` maps each character on its own and leaves no ASCII
      upper-case letter behind. */
  lemma {:induction false} ToLowerSpec(s: string)
    ensures |ToLower(s)| == |s|
    ensures forall k :: 0 <= k < |s| ==> ToLower(s)[k] == LowerChar(s[k])
    ensures forall k :: 0 <= k < |s| ==> !IsAsciiUpper(ToLower(s)[k])
  {
    if s != [] {
      ToLowerSpec(s[1..]);
    }
  }

  /** `String.prototype.endsWith`. */
  predicate EndsWith(s: string, suffix: string) {
    |suffix| <= |s| && s[|s| - |suffix|..] == suffix
  }
}
