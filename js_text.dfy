/**
 * The JavaScript string primitives the slip pipeline relies on:
 * `String.prototype.trim`, `toLowerCase`, `toUpperCase`, `split` on a
 * one-character separator, `startsWith`, and the decimal form a template
 * literal gives a non-negative integer.
 */
module JsText {

  /** ECMAScript WhiteSpace and LineTerminator code points: what `trim` removes. */
  predicate IsWhiteSpace(c: char) {
    if c <= ' ' then
      c == ' ' || '\t' <= c <= '\r'
    else if c < '\U{00A0}' then
      false
    else
      || c == '\U{00A0}' || c == '\U{1680}' || '\U{2000}' <= c <= '\U{200A}' || c == '\U{2028}' || c == '\U{2029}'
      || c == '\U{202F}' || c == '\U{205F}' || c == '\U{3000}' || c == '\U{FEFF}'
  }

  predicate AllWhiteSpace(s: string) {
    forall i :: 0 <= i < |s| ==> IsWhiteSpace(s[i])
  }

  /** Neither end of `s` is white space. */
  predicate IsTrimmed(s: string) {
    s == [] || (!IsWhiteSpace(s[0]) && !IsWhiteSpace(s[|s| - 1]))
  }

  /** `trimStart`: white space removed from the front. */
  function TrimStart(s: string): string {
    if |s| > 0 && IsWhiteSpace(s[0]) then TrimStart(s[1..]) else s
  }

  /** `trimEnd`: white space removed from the back. */
  function TrimEnd(s: string): string {
    if |s| > 0 && IsWhiteSpace(s[|s| - 1]) then TrimEnd(s[..|s| - 1]) else s
  }

  /** `trim`: white space removed from both ends. */
  function Trim(s: string): string {
    TrimEnd(TrimStart(s))
  }

  /** `trimStart` keeps the suffix that starts at the first non-white-space character. */
  lemma {:induction false} TrimStartSpec(s: string)
    ensures var r := TrimStart(s);
            && |r| <= |s| && r == s[|s| - |r|..]
            && AllWhiteSpace(s[..|s| - |r|])
            && (r == [] || !IsWhiteSpace(r[0]))
  {
    if |s| > 0 && IsWhiteSpace(s[0]) {
      TrimStartSpec(s[1..]);
      var r := TrimStart(s);
      assert s[..|s| - |r|] == [s[0]] + s[1..][..|s| - 1 - |r|];
    }
  }

  /** `trimEnd` keeps the prefix that ends at the last non-white-space character. */
  lemma {:induction false} TrimEndSpec(s: string)
    ensures var r := TrimEnd(s);
            && |r| <= |s| && r == s[..|r|]
            && AllWhiteSpace(s[|r|..])
            && (r == [] || !IsWhiteSpace(r[|r| - 1]))
  {
    if |s| > 0 && IsWhiteSpace(s[|s| - 1]) {
      TrimEndSpec(s[..|s| - 1]);
      var r := TrimEnd(s);
      assert s[|r|..] == s[..|s| - 1][|r|..] + [s[|s| - 1]];
    }
  }

  /** `trim` leaves neither end white. */
  lemma TrimSpec(s: string)
    ensures |Trim(s)| <= |s| && IsTrimmed(Trim(s))
  {
    var t := TrimStart(s);
    TrimStartSpec(s);
    TrimEndSpec(t);
    var r := TrimEnd(t);
    assert r != [] ==> r[0] == t[0];
  }

  lemma {:induction false} TrimStartSkips(w: string, rest: string)
    requires AllWhiteSpace(w)
    requires rest == [] || !IsWhiteSpace(rest[0])
    ensures TrimStart(w + rest) == rest
  {
    if w != [] {
      assert (w + rest)[1..] == w[1..] + rest;
      TrimStartSkips(w[1..], rest);
    } else {
      assert w + rest == rest;
    }
  }

  lemma {:induction false} TrimEndSkips(rest: string, w: string)
    requires AllWhiteSpace(w)
    requires rest == [] || !IsWhiteSpace(rest[|rest| - 1])
    ensures TrimEnd(rest + w) == rest
  {
    if w != [] {
      var s := rest + w;
      assert s[..|s| - 1] == rest + w[..|w| - 1];
      TrimEndSkips(rest, w[..|w| - 1]);
    } else {
      assert rest + w == rest;
    }
  }

  /**
   * Trimming is determined by its result: surrounding a trimmed string with
   * white space on both sides and trimming gives back that string.
   */
  lemma TrimUnique(w1: string, t: string, w2: string)
    requires AllWhiteSpace(w1) && AllWhiteSpace(w2) && IsTrimmed(t)
    ensures Trim(w1 + t + w2) == t
  {
    if t == [] {
      assert w1 + t + w2 == (w1 + w2) + [];
      TrimStartSkips(w1 + w2, []);
      assert TrimEnd([]) == [];
    } else {
      assert w1 + t + w2 == w1 + (t + w2);
      TrimStartSkips(w1, t + w2);
      TrimEndSkips(t, w2);
    }
  }

  /** Every string is its trimmed form with white space before and after. */
  lemma TrimSplitsString(s: string)
    ensures var a := |s| - |TrimStart(s)|;
            && 0 <= a && a + |Trim(s)| <= |s|
            && s == s[..a] + Trim(s) + s[a + |Trim(s)|..]
            && AllWhiteSpace(s[..a]) && AllWhiteSpace(s[a + |Trim(s)|..])
  {
    var t := TrimStart(s);
    var a := |s| - |t|;
    var r := TrimEnd(t);
    TrimStartSpec(s);
    TrimEndSpec(t);
    assert t == s[a..];
    assert r == s[a..a + |r|];
    assert t[|r|..] == s[a + |r|..];
    assert s == s[..a] + s[a..a + |r|] + s[a + |r|..];
  }

  /** `trim` is idempotent. */
  lemma TrimIdempotent(s: string)
    ensures Trim(Trim(s)) == Trim(s)
  {
    TrimSpec(s);
    TrimOfTrimmed(Trim(s));
  }

  lemma TrimOfTrimmed(s: string)
    requires IsTrimmed(s)
    ensures Trim(s) == s
  {
    assert [] + s + [] == s;
    TrimUnique([], s, []);
  }

  predicate IsAsciiUpper(c: char) {
    'A' <= c <= 'Z'
  }

  predicate IsAsciiLower(c: char) {
    'a' <= c <= 'z'
  }

  function LowerChar(c: char): char {
    if IsAsciiUpper(c) then (c as int + 32) as char else c
  }

  function UpperChar(c: char): char {
    if IsAsciiLower(c) then (c as int - 32) as char else c
  }

  predicate HasNoUpper(s: string) {
    forall i :: 0 <= i < |s| ==> !IsAsciiUpper(s[i])
  }

  /** `toLowerCase`, on the ASCII letters. */
  function ToLower(s: string): (r: string)
    ensures |r| == |s|
  {
    if s == [] then [] else [LowerChar(s[0])] + ToLower(s[1..])
  }

  /** Lower-casing works character by character. */
  lemma {:induction false} ToLowerSpec(s: string)
    ensures forall i :: 0 <= i < |s| ==> ToLower(s)[i] == LowerChar(s[i])
  {
    if s != [] {
      ToLowerSpec(s[1..]);
    }
  }

  /** `toUpperCase`, on the ASCII letters. */
  function ToUpper(s: string): (r: string)
    ensures |r| == |s|
  {
    if s == [] then [] else [UpperChar(s[0])] + ToUpper(s[1..])
  }

  /** Upper-casing works character by character. */
  lemma {:induction false} ToUpperSpec(s: string)
    ensures forall i :: 0 <= i < |s| ==> ToUpper(s)[i] == UpperChar(s[i])
  {
    if s != [] {
      ToUpperSpec(s[1..]);
    }
  }

  /** Lower-casing leaves no upper-case letter, and leaves exactly the strings without one unchanged. */
  lemma ToLowerFixedPoints(s: string)
    ensures HasNoUpper(ToLower(s))
    ensures ToLower(s) == s <==> HasNoUpper(s)
  {
    ToLowerSpec(s);
    if HasNoUpper(s) {
      assert ToLower(s) == s;
    }
    if ToLower(s) == s {
      forall i | 0 <= i < |s| ensures !IsAsciiUpper(s[i]) {
        assert LowerChar(s[i]) == s[i];
      }
    }
  }

  /** Lower-casing keeps white space where it was, so it commutes with `trim`. */
  lemma ToLowerKeepsWhiteSpace(s: string)
    ensures forall i :: 0 <= i < |s| ==> (IsWhiteSpace(ToLower(s)[i]) <==> IsWhiteSpace(s[i]))
    ensures IsTrimmed(s) ==> IsTrimmed(ToLower(s))
  {
    ToLowerSpec(s);
  }

  /** The normalisation `x.trim().toLowerCase()` used for every comparison. */
  function Normalize(s: string): string {
    ToLower(Trim(s))
  }

  /** A normal form is trimmed, has no upper-case letter and is no longer than its source. */
  lemma NormalizeSpec(s: string)
    ensures var r := Normalize(s);
            IsTrimmed(r) && HasNoUpper(r) && |r| <= |s|
  {
    TrimSpec(s);
    ToLowerKeepsWhiteSpace(Trim(s));
    ToLowerFixedPoints(Trim(s));
  }

  /** Normalising twice is normalising once. */
  lemma NormalizeIdempotent(s: string)
    ensures Normalize(Normalize(s)) == Normalize(s)
  {
    var n := Normalize(s);
    NormalizeSpec(s);
    TrimOfTrimmed(n);
    ToLowerFixedPoints(n);
  }

  /** `s.startsWith(prefix)`. */
  predicate StartsWith(s: string, prefix: string) {
    |prefix| <= |s| && s[..|prefix|] == prefix
  }

  /** `s.split(sep)` for a one-character separator; never empty, like JavaScript's. */
  function Split(s: string, sep: char): (parts: seq<string>)
    ensures |parts| >= 1
    ensures forall k :: 0 <= k < |parts| ==> sep !in parts[k]
  {
    if s == [] then [""]
    else
      var rest := Split(s[1..], sep);
      if s[0] == sep then [""] + rest
      else [[s[0]] + rest[0]] + rest[1..]
  }

  /** `parts.join(sep)`. */
  function Join(parts: seq<string>, sep: char): string
    requires |parts| >= 1
  {
    if |parts| == 1 then parts[0] else parts[0] + [sep] + Join(parts[1..], sep)
  }

  /** Joining the pieces of a split gives back the string. */
  lemma {:induction false} JoinSplit(s: string, sep: char)
    ensures Join(Split(s, sep), sep) == s
  {
    if s != [] {
      var rest := Split(s[1..], sep);
      JoinSplit(s[1..], sep);
      if s[0] == sep {
        assert ([""] + rest)[1..] == rest;
      } else {
        var parts := [[s[0]] + rest[0]] + rest[1..];
        if |rest| == 1 {
          assert parts == [[s[0]] + rest[0]];
        } else {
          assert parts[1..] == rest[1..];
          assert Join(rest, sep) == rest[0] + [sep] + Join(rest[1..], sep);
        }
      }
    }
  }

  /** Splitting a join of separator-free pieces gives back the pieces. */
  lemma {:induction false} SplitJoin(parts: seq<string>, sep: char)
    requires |parts| >= 1
    requires forall k :: 0 <= k < |parts| ==> sep !in parts[k]
    ensures Split(Join(parts, sep), sep) == parts
  {
    if |parts| == 1 {
      SplitPlain(parts[0], sep);
    } else {
      SplitJoin(parts[1..], sep);
      SplitAfterPlain(parts[0], Join(parts[1..], sep), sep);
      assert [parts[0]] + parts[1..] == parts;
    }
  }

  lemma {:induction false} SplitPlain(a: string, sep: char)
    requires sep !in a
    ensures Split(a, sep) == [a]
  {
    if a != [] {
      SplitPlain(a[1..], sep);
      assert [a[0]] + a[1..] == a;
    }
  }

  lemma {:induction false} SplitAfterPlain(a: string, b: string, sep: char)
    requires sep !in a
    ensures Split(a + [sep] + b, sep) == [a] + Split(b, sep)
  {
    var s := a + [sep] + b;
    if a == [] {
      assert s[1..] == b;
    } else {
      assert s[1..] == a[1..] + [sep] + b;
      SplitAfterPlain(a[1..], b, sep);
      assert [a[0]] + a[1..] == a;
    }
  }

  predicate IsDigit(c: char) {
    '0' <= c <= '9'
  }

  function DigitChar(d: nat): (c: char)
    requires d < 10
    ensures IsDigit(c)
  {
    ('0' as int + d) as char
  }

  function DigitValue(c: char): (d: nat)
    requires IsDigit(c)
    ensures d < 10 && DigitChar(d) == c
  {
    c as int - '0' as int
  }

  /** `${n}` for a non-negative integer: its decimal digits, without leading zeros. */
  function DecimalString(n: nat): (s: string)
    ensures |s| >= 1 && forall i :: 0 <= i < |s| ==> IsDigit(s[i])
    ensures |s| == 1 || s[0] != '0'
  {
    if n < 10 then [DigitChar(n)] else DecimalString(n / 10) + [DigitChar(n % 10)]
  }

  /** The number a string of decimal digits denotes. */
  function DecimalValue(s: string): nat
    requires forall i :: 0 <= i < |s| ==> IsDigit(s[i])
  {
    if s == [] then 0 else DecimalValue(s[..|s| - 1]) * 10 + DigitValue(s[|s| - 1])
  }

  /** Reading the decimal form back gives the number. */
  lemma {:induction false} DecimalRoundTrip(n: nat)
    ensures DecimalValue(DecimalString(n)) == n
  {
    var s := DecimalString(n);
    if n >= 10 {
      DecimalRoundTrip(n / 10);
      assert s[..|s| - 1] == DecimalString(n / 10);
    }
  }

  /** Different numbers print differently. */
  lemma DecimalStringInjective(m: nat, n: nat)
    requires DecimalString(m) == DecimalString(n)
    ensures m == n
  {
    DecimalRoundTrip(m);
    DecimalRoundTrip(n);
  }
}
