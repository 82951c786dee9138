/** String primitives the scraper relies on: Python's whitespace and digit
    classes, `str.strip`, ASCII `str.lower`, literal occurrence tests,
    `str.split(sep)[1]`, `str.replace(pat, '')` and `int()` on digit runs. */
module Text {

  datatype Option<T> = None | Some(value: T)

  /** Python's `str.isspace`, which is also what `\s` and `strip()` use. */
  predicate IsSpace(c: char) {
    || c == ' '
    || '\t' <= c <= '\r'
    || '\U{1C}' <= c <= '\U{1F}'
    || c == '\U{85}' || c == '\U{A0}' || c == '\U{1680}'
    || '\U{2000}' <= c <= '\U{200A}'
    || c == '\U{2028}' || c == '\U{2029}' || c == '\U{202F}' || c == '\U{205F}'
    || c == '\U{3000}'
  }

  predicate IsDigit(c: char) {
    '0' <= c <= '9'
  }

  predicate AllDigits(s: string) {
    forall i :: 0 <= i < |s| ==> IsDigit(s[i])
  }

  predicate AllSpaces(s: string) {
    forall i :: 0 <= i < |s| ==> IsSpace(s[i])
  }

  /** `p` occurs in `s` at index `k`. */
  predicate At(s: string, p: string, k: int) {
    0 <= k && k + |p| <= |s| && s[k..k + |p|] == p
  }

  predicate StartsWith(s: string, p: string) {
    At(s, p, 0)
  }

  /** The index of the first occurrence of `c` in `s` at or after `i`, or `|s|`. */
  function CharFrom(s: string, c: char, i: nat): (k: nat)
    requires i <= |s|
    ensures i <= k <= |s|
    ensures forall j :: i <= j < k ==> s[j] != c
    ensures k < |s| ==> s[k] == c
    decreases |s| - i
  {
    if i == |s| || s[i] == c then i else CharFrom(s, c, i + 1)
  }

  /** The index of the first occurrence of `p` in `s` at or after `i`, if any. */
  function FindFrom(s: string, p: string, i: nat): (r: Option<nat>)
    requires i <= |s|
    ensures r.Some? ==> i <= r.value <= |s| && At(s, p, r.value)
    ensures r.Some? ==> forall j :: i <= j < r.value ==> !At(s, p, j)
    ensures r.None? ==> forall j :: i <= j ==> !At(s, p, j)
    decreases |s| - i
  {
    if At(s, p, i) then Some(i)
    else if i == |s| then None
    else FindFrom(s, p, i + 1)
  }

  /** Python's `p in s`. */
  predicate Contains(s: string, p: string) {
    FindFrom(s, p, 0).Some?
  }

  lemma {:induction false} ContainsAt(s: string, p: string, k: int)
    requires At(s, p, k)
    ensures Contains(s, p)
  {
  }

  /** The longest prefix of `s` made of digits: what a greedy `\d+` or `\d*` takes. */
  function DigitRun(s: string): (d: string)
    ensures |d| <= |s| && d == s[..|d|]
    ensures AllDigits(d)
    ensures |d| < |s| ==> !IsDigit(s[|d|])
  {
    if s != [] && IsDigit(s[0]) then [s[0]] + DigitRun(s[1..]) else []
  }

  /** A digit run is determined by the text it starts: any all-digit prefix
      followed by a non-digit (or by the end) is the run. */
  lemma {:induction false} DigitRunOf(d: string, rest: string)
    requires AllDigits(d)
    requires rest == [] || !IsDigit(rest[0])
    ensures DigitRun(d + rest) == d
  {
    if d != [] {
      assert (d + rest)[1..] == d[1..] + rest;
      DigitRunOf(d[1..], rest);
    } else {
      assert d + rest == rest;
    }
  }

  /** Python's `int()` of a run of ASCII digits. */
  function DigitsValue(d: string): nat
    requires AllDigits(d)
  {
    if d == [] then 0 else 10 * DigitsValue(d[..|d| - 1]) + (d[|d| - 1] as int - '0' as int)
  }

  /** Decimal rendering of a natural number, without leading zeros. */
  function Decimal(n: nat): (d: string)
    ensures d != [] && AllDigits(d)
  {
    var last := ['0' + (n % 10) as char];
    if n < 10 then last else Decimal(n / 10) + last
  }

  /** `int()` reads back what `Decimal` writes. */
  lemma {:induction false} DecimalValue(n: nat)
    ensures DigitsValue(Decimal(n)) == n
  {
    var d := Decimal(n);
    assert d[..|d| - 1] == if n < 10 then [] else Decimal(n / 10);
    if n >= 10 {
      DecimalValue(n / 10);
    }
  }

  /** Number of whitespace characters at the start of `s`. */
  function LeadingSpaces(s: string): (k: nat)
    ensures k <= |s| && AllSpaces(s[..k])
    ensures k < |s| ==> !IsSpace(s[k])
  {
    if s != [] && IsSpace(s[0]) then
      assert s[..1 + LeadingSpaces(s[1..])] == [s[0]] + s[1..][..LeadingSpaces(s[1..])];
      1 + LeadingSpaces(s[1..])
    else 0
  }

  /** Number of whitespace characters at the end of `s`. */
  function TrailingSpaces(s: string): (k: nat)
    ensures k <= |s| && AllSpaces(s[|s| - k..])
    ensures k < |s| ==> !IsSpace(s[|s| - k - 1])
  {
    if s != [] && IsSpace(s[|s| - 1]) then
      var init := s[..|s| - 1];
      var k := TrailingSpaces(init);
      assert forall i :: |init| - k <= i < |init| ==> IsSpace(init[i]);
      1 + k
    else 0
  }

  /** Python's `str.strip()` with no argument. */
  function Trim(s: string): (r: string)
    ensures r == [] || (!IsSpace(r[0]) && !IsSpace(r[|r| - 1]))
    ensures |r| <= |s|
  {
    var a := LeadingSpaces(s);
    var rest := s[a..];
    rest[..|rest| - TrailingSpaces(rest)]
  }

  /** `strip()` removes exactly the surrounding whitespace: whatever `t` is
      wrapped in whitespace, the result is `t` when `t` has no whitespace at
      either end. */
  lemma TrimExact(a: string, t: string, b: string)
    requires AllSpaces(a) && AllSpaces(b)
    requires t == [] || (!IsSpace(t[0]) && !IsSpace(t[|t| - 1]))
    ensures Trim(a + t + b) == t
  {
    var s := a + t + b;
    var la := LeadingSpaces(s);
    if t == [] {
      assert AllSpaces(s);
      assert la == |s|;
    } else {
      assert s[|a|] == t[0];
      assert la == |a|;
      var rest := s[la..];
      assert rest == t + b;
      var lb := TrailingSpaces(rest);
      assert rest[|t| - 1] == t[|t| - 1];
      assert lb == |b|;
      assert rest[..|rest| - lb] == t;
    }
  }

  /** `strip()` keeps a middle slice: every character of the result comes
      from the input. */
  lemma TrimWithin(s: string)
    ensures forall c :: c in Trim(s) ==> c in s
  {
    var a := LeadingSpaces(s);
    var rest := s[a..];
    var r := rest[..|rest| - TrailingSpaces(rest)];
    forall c | c in r ensures c in s {
      var m :| 0 <= m < |r| && r[m] == c;
      assert s[a + m] == c;
    }
  }

  /** Stripping a text made only of whitespace leaves nothing. */
  lemma TrimBlank(s: string)
    requires AllSpaces(s)
    ensures Trim(s) == []
  {
    var none: string := [];
    TrimExact(s, none, none);
    assert s + none + none == s;
  }

  lemma TrimIdempotent(s: string)
    ensures Trim(Trim(s)) == Trim(s)
  {
    TrimExact([], Trim(s), []);
    assert [] + Trim(s) + [] == Trim(s);
  }

  function LowerChar(c: char): char {
    if 'A' <= c <= 'Z' then (c as int - 'A' as int + 'a' as int) as char else c
  }

  /** `str.lower()` restricted to ASCII letters. */
  function Lower(s: string): (r: string)
    ensures |r| == |s|
    ensures forall i :: 0 <= i < |s| ==> r[i] == LowerChar(s[i])
  {
    seq(|s|, i requires 0 <= i < |s| => LowerChar(s[i]))
  }

  /** Lower-casing leaves no upper-case ASCII letter and keeps whitespace
      where it was, so a trimmed text stays trimmed. */
  lemma LowerShape(s: string)
    ensures forall i :: 0 <= i < |s| ==> !('A' <= Lower(s)[i] <= 'Z')
    ensures forall i :: 0 <= i < |s| ==> (IsSpace(Lower(s)[i]) <==> IsSpace(s[i]))
    ensures Lower(Lower(s)) == Lower(s)
  {
  }

  /** Python's `s.split(sep)[1]`: the text between the first and the second
      occurrence of `sep` (or the end); `None` where Python raises IndexError. */
  function SplitSecond(s: string, sep: string): (r: Option<string>)
    requires sep != []
  {
    match FindFrom(s, sep, 0)
    case None => None
    case Some(k) =>
      var rest := s[k + |sep|..];
      match FindFrom(rest, sep, 0)
      case None => Some(rest)
      case Some(k2) => Some(rest[..k2])
  }

  /** An occurrence inside a prefix is an occurrence in the whole text. */
  lemma ContainsPrefix(w: string, x: string, p: string)
    requires Contains(w, p)
    ensures Contains(w + x, p)
  {
    var k := FindFrom(w, p, 0).value;
    assert (w + x)[k..k + |p|] == w[k..k + |p|];
    ContainsAt(w + x, p, k);
  }

  /** When no occurrence of `sep` begins inside `a`, the first one is the
      `sep` written right after `a`. */
  lemma FirstOccurrence(a: string, sep: string, rest: string)
    requires sep != []
    requires !Contains(a + sep[..|sep| - 1], sep)
    ensures FindFrom(a + sep + rest, sep, 0) == Some(|a|)
  {
    var s := a + sep + rest;
    assert At(s, sep, |a|) by { assert s[|a|..|a| + |sep|] == sep; }
    forall j | 0 <= j < |a| ensures !At(s, sep, j) {
      var w := a + sep[..|sep| - 1];
      if At(s, sep, j) {
        assert s[j..j + |sep|] == w[j..j + |sep|];
        ContainsAt(w, sep, j);
      }
    }
  }

  /** The piece after a single separator is everything that follows it, up to
      the next separator. */
  lemma SplitSecondOf(a: string, sep: string, b: string, c: string)
    requires sep != []
    requires !Contains(a + sep[..|sep| - 1], sep)
    requires !Contains(b + sep[..|sep| - 1], sep)
    requires c == [] || At(c, sep, 0)
    ensures SplitSecond(a + sep + b + c, sep) == Some(b)
  {
    var s := a + sep + b + c;
    assert s == a + sep + (b + c);
    FirstOccurrence(a, sep, b + c);
    var rest := s[|a| + |sep|..];
    assert rest == b + c;
    if c == [] {
      if Contains(b, sep) {
        ContainsPrefix(b, sep[..|sep| - 1], sep);
      }
      assert rest == b;
    } else {
      assert c == sep + c[|sep|..];
      assert rest == b + sep + c[|sep|..];
      FirstOccurrence(b, sep, c[|sep|..]);
      assert rest[..|b|] == b;
    }
  }

  /** Python's `s.replace(pat, '')`: occurrences are removed left to right,
      without overlap. */
  function RemoveAll(s: string, pat: string): (r: string)
    requires pat != []
    ensures |r| <= |s|
    decreases |s|
  {
    if |s| < |pat| then s
    else if s[..|pat|] == pat then RemoveAll(s[|pat|..], pat)
    else [s[0]] + RemoveAll(s[1..], pat)
  }

  /** `replace` changes the text exactly when the pattern occurs in it. */
  lemma {:induction false} RemoveAllUnchanged(s: string, pat: string)
    requires pat != []
    ensures RemoveAll(s, pat) == s <==> !Contains(s, pat)
    decreases |s|
  {
    if |s| < |pat| {
      assert !At(s, pat, 0);
    } else if s[..|pat|] == pat {
      assert At(s, pat, 0);
      assert |RemoveAll(s, pat)| < |s|;
    } else {
      RemoveAllUnchanged(s[1..], pat);
      assert !At(s, pat, 0);
      forall j | 0 <= j ensures At(s, pat, j + 1) <==> At(s[1..], pat, j) {
        if j + 1 + |pat| <= |s| {
          assert s[j + 1..j + 1 + |pat|] == s[1..][j..j + |pat|];
        }
      }
      assert Contains(s, pat) <==> Contains(s[1..], pat) by {
        if Contains(s[1..], pat) {
          var k := FindFrom(s[1..], pat, 0).value;
          ContainsAt(s, pat, k + 1);
        }
        if Contains(s, pat) {
          var k := FindFrom(s, pat, 0).value;
          assert k != 0;
          ContainsAt(s[1..], pat, k - 1);
        }
      }
      if RemoveAll(s, pat) == s {
        assert RemoveAll(s[1..], pat) == s[1..];
      }
    }
  }
}
