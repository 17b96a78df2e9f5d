/**
  String helpers shared by every other module: the ASCII subset of JavaScript's
  `trim`, `toLowerCase`, `split`, `join` and `Number.prototype.toString`.
  Strings are sequences of code points; the source works on UTF-16 code units,
  which agree with code points on the Basic Multilingual Plane.
 */
module Text {

  /** The ASCII characters JavaScript's `trim` removes. */
  predicate IsSpace(c: char)
  {
    c == ' ' || c == '\t' || c == '\n' || c == '\r' || c == 11 as char || c == 12 as char
  }

  predicate IsDigit(c: char)
  {
    '0' <= c <= '9'
  }

  predicate IsUpper(c: char)
  {
    'A' <= c <= 'Z'
  }

  predicate AllSpace(s: string)
  {
    forall i :: 0 <= i < |s| ==> IsSpace(s[i])
  }

  predicate AllDigits(s: string)
  {
    forall i :: 0 <= i < |s| ==> IsDigit(s[i])
  }

  /** A string with no surrounding whitespace: what `trim` leaves behind. */
  predicate IsTrimmed(s: string)
  {
    s == [] || (!IsSpace(s[0]) && !IsSpace(s[|s| - 1]))
  }

  // ---------------------------------------------------------------------------
  // trim
  // ---------------------------------------------------------------------------

  /** The index of the first non-space character at or after `i`, or `|s|`. */
  function SkipSpaces(s: string, i: nat): (k: nat)
    requires i <= |s|
    ensures i <= k <= |s|
    ensures k < |s| ==> !IsSpace(s[k])
    decreases |s| - i
  {
    if i < |s| && IsSpace(s[i]) then SkipSpaces(s, i + 1) else i
  }

  /** Everything `SkipSpaces` skips is whitespace. */
  lemma {:induction false} SkipSpacesSkipped(s: string, i: nat)
    requires i <= |s|
    ensures forall j :: i <= j < SkipSpaces(s, i) ==> IsSpace(s[j])
    decreases |s| - i
  {
    if i < |s| && IsSpace(s[i]) {
      SkipSpacesSkipped(s, i + 1);
    }
  }

  /** The end of `s[..j]` once its trailing whitespace is dropped. */
  function SkipSpacesBack(s: string, j: nat): (k: nat)
    requires j <= |s|
    ensures k <= j
    ensures k > 0 ==> !IsSpace(s[k - 1])
  {
    if j > 0 && IsSpace(s[j - 1]) then SkipSpacesBack(s, j - 1) else j
  }

  /** Everything `SkipSpacesBack` skips is whitespace. */
  lemma {:induction false} SkipSpacesBackSkipped(s: string, j: nat)
    requires j <= |s|
    ensures forall m :: SkipSpacesBack(s, j) <= m < j ==> IsSpace(s[m])
  {
    if j > 0 && IsSpace(s[j - 1]) {
      SkipSpacesBackSkipped(s, j - 1);
    }
  }

  /** JavaScript's `String.prototype.trim` on ASCII whitespace: the result
      has no whitespace at either end (see `TrimIsSlice` for what it keeps). */
  function Trim(s: string): (r: string)
    ensures |r| <= |s|
    ensures IsTrimmed(r)
  {
    var a := SkipSpaces(s, 0);
    SkipSpacesBackSkipped(s, |s|);
    if a == |s| then [] else s[a..SkipSpacesBack(s, |s|)]
  }

  /** `s` is whitespace, then `Trim(s)`, then whitespace. */
  lemma TrimIsSlice(s: string)
    ensures exists k :: 0 <= k <= |s| - |Trim(s)| && Trim(s) == s[k..k + |Trim(s)|]
                        && AllSpace(s[..k]) && AllSpace(s[k + |Trim(s)|..])
  {
    var a := SkipSpaces(s, 0);
    SkipSpacesSkipped(s, 0);
    SkipSpacesBackSkipped(s, |s|);
    if a == |s| {
      assert AllSpace(s[..a]);
    } else {
      var b := SkipSpacesBack(s, |s|);
      assert Trim(s) == s[a..b];
      assert AllSpace(s[..a]);
      assert AllSpace(s[b..]);
    }
  }

  /** Trimming never introduces a character. */
  lemma TrimSubset(s: string, c: char)
    ensures c in Trim(s) ==> c in s
  {
    var a := SkipSpaces(s, 0);
    if a < |s| && c in Trim(s) {
      var r := Trim(s);
      var i :| 0 <= i < |r| && r[i] == c;
      assert s[a + i] == c;
    }
  }

  /** A string that `trim` leaves empty: JavaScript's `!s.trim()`. */
  predicate IsBlank(s: string)
  {
    Trim(s) == []
  }

  /** `trim` is exactly the identity on strings without surrounding whitespace. */
  lemma TrimOfTrimmed(s: string)
    ensures Trim(s) == s <==> IsTrimmed(s)
  {
    if IsTrimmed(s) && s != [] {
      assert SkipSpaces(s, 0) == 0;
      assert SkipSpacesBack(s, |s|) == |s|;
    }
  }

  lemma TrimIdempotent(s: string)
    ensures Trim(Trim(s)) == Trim(s)
  {
    TrimOfTrimmed(Trim(s));
  }

  /** A string is blank exactly when every character is whitespace. */
  lemma BlankIffAllSpace(s: string)
    ensures IsBlank(s) <==> AllSpace(s)
  {
    var a := SkipSpaces(s, 0);
    SkipSpacesSkipped(s, 0);
    SkipSpacesBackSkipped(s, |s|);
    if a < |s| {
      assert Trim(s)[0] == s[a];
    }
  }

  // ---------------------------------------------------------------------------
  // toLowerCase
  // ---------------------------------------------------------------------------

  function LowerChar(c: char): char
  {
    if IsUpper(c) then (c as int + 32) as char else c
  }

  /** JavaScript's `toLowerCase` restricted to ASCII letters. */
  function ToLower(s: string): (r: string)
    ensures |r| == |s|
    ensures forall i :: 0 <= i < |s| ==> r[i] == LowerChar(s[i])
  {
    seq(|s|, i requires 0 <= i < |s| => LowerChar(s[i]))
  }

  /** Lowercasing twice is lowercasing once: a lowercased string is its own
      case-insensitive representative. */
  lemma ToLowerIdempotent(s: string)
    ensures ToLower(ToLower(s)) == ToLower(s)
  {
  }

  /** Lowercasing keeps whitespace where it was, and creates none. */
  lemma ToLowerSpace(s: string, i: int)
    requires 0 <= i < |s|
    ensures IsSpace(ToLower(s)[i]) <==> IsSpace(s[i])
  {
  }

  // ---------------------------------------------------------------------------
  // slices, filters, split and join
  // ---------------------------------------------------------------------------

  /** `s.slice(0, n)` for n >= 0. */
  function Take(s: string, n: nat): (r: string)
    ensures |r| <= n && |r| <= |s|
    ensures r == s[..|r|]
    ensures |s| <= n ==> r == s
    ensures n <= |s| ==> |r| == n
  {
    if |s| <= n then s else s[..n]
  }

  /** `s` with every character of `drop` deleted, the rest kept in order. */
  function Without(s: string, drop: set<char>): (r: string)
    ensures |r| <= |s|
    ensures forall c :: c in r <==> c in s && c !in drop
  {
    if s == [] then []
    else
      var rest := Without(s[..|s| - 1], drop);
      var c := s[|s| - 1];
      assert s == s[..|s| - 1] + [c];
      if c in drop then rest else rest + [c]
  }

  lemma WithoutAppend(a: string, b: string, drop: set<char>)
    ensures Without(a + b, drop) == Without(a, drop) + Without(b, drop)
  {
    if b != [] {
      assert (a + b)[..|a + b| - 1] == a + b[..|b| - 1];
      WithoutAppend(a, b[..|b| - 1], drop);
    } else {
      assert a + b == a;
    }
  }

  /** Deleting characters that do not occur changes nothing. */
  lemma {:induction false} WithoutNone(s: string, drop: set<char>)
    requires forall i :: 0 <= i < |s| ==> s[i] !in drop
    ensures Without(s, drop) == s
  {
    if s != [] {
      var init := s[..|s| - 1];
      WithoutNone(init, drop);
      assert s == init + [s[|s| - 1]];
    }
  }

  /** Occurrences of `c` in `s`. */
  function Count(s: string, c: char): (n: nat)
    ensures n <= |s|
    ensures n == 0 <==> c !in s
  {
    if s == [] then 0
    else
      assert s == s[..|s| - 1] + [s[|s| - 1]];
      Count(s[..|s| - 1], c) + (if s[|s| - 1] == c then 1 else 0)
  }

  lemma CountAppend(a: string, b: string, c: char)
    ensures Count(a + b, c) == Count(a, c) + Count(b, c)
  {
    if b != [] {
      assert (a + b)[..|a + b| - 1] == a + b[..|b| - 1];
      CountAppend(a, b[..|b| - 1], c);
    } else {
      assert a + b == a;
    }
  }

  /** `parts.join(sep)`. */
  function JoinWith(parts: seq<string>, sep: char): string
  {
    if |parts| == 0 then []
    else if |parts| == 1 then parts[0]
    else JoinWith(parts[..|parts| - 1], sep) + [sep] + parts[|parts| - 1]
  }

  /** `s.split(sep)` for a one-character separator: the pieces contain no
      separator, there is one more piece than separators, and joining the
      pieces with the separator gives back `s`. */
  function SplitOn(s: string, sep: char): (parts: seq<string>)
    ensures |parts| == Count(s, sep) + 1
    ensures forall i :: 0 <= i < |parts| ==> sep !in parts[i]
    ensures JoinWith(parts, sep) == s
  {
    if s == [] then [[]]
    else
      var init := s[..|s| - 1];
      var c := s[|s| - 1];
      var p := SplitOn(init, sep);
      assert s == init + [c];
      if c == sep then
        p + [[]]
      else
        var last := p[|p| - 1] + [c];
        var r := p[..|p| - 1] + [last];
        assert r[..|r| - 1] == p[..|p| - 1];
        if |p| == 1 then r
        else
          assert p[..|p| - 1][..|p| - 2] == p[..|p| - 2];
          assert JoinWith(r, sep) == JoinWith(p[..|p| - 1], sep) + [sep] + last;
          r
  }

  /** Joining pieces without separators puts exactly one separator
      between neighbours. */
  lemma {:induction false} CountJoin(parts: seq<string>, sep: char)
    requires |parts| >= 1 && forall i :: 0 <= i < |parts| ==> sep !in parts[i]
    ensures Count(JoinWith(parts, sep), sep) == |parts| - 1
  {
    if |parts| > 1 {
      var init := parts[..|parts| - 1];
      CountJoin(init, sep);
      CountAppend(JoinWith(init, sep), [sep], sep);
      CountAppend(JoinWith(init, sep) + [sep], parts[|parts| - 1], sep);
      assert Count([sep], sep) == Count([], sep) + 1 by {
        assert [sep][..0] == [];
      }
    }
  }

  /** In `a + [sep] + l` with no separator in `l`, the separator before `l`
      is the last one. */
  lemma LastSeparator(s: string, a: string, l: string, sep: char)
    requires s == a + [sep] + l && sep !in l
    ensures s[|s| - 1 - |l|] == sep
    ensures forall k :: |s| - |l| <= k < |s| ==> s[k] != sep
  {
    forall k | |s| - |l| <= k < |s| ensures s[k] != sep {
      assert s[k] == l[k - (|s| - |l|)];
    }
  }

  /** Separator-free pieces can be recovered from their join: two equally
      long lists of pieces with the same join are the same list. */
  lemma {:induction false} JoinWithUnique(p: seq<string>, q: seq<string>, sep: char)
    requires |p| >= 1 && |p| == |q|
    requires forall i :: 0 <= i < |p| ==> sep !in p[i]
    requires forall i :: 0 <= i < |q| ==> sep !in q[i]
    requires JoinWith(p, sep) == JoinWith(q, sep)
    ensures p == q
  {
    if |p| > 1 {
      var s := JoinWith(p, sep);
      var a, l := JoinWith(p[..|p| - 1], sep), p[|p| - 1];
      var b, m := JoinWith(q[..|q| - 1], sep), q[|q| - 1];
      assert s == a + [sep] + l && s == b + [sep] + m;
      LastSeparator(s, a, l, sep);
      LastSeparator(s, b, m, sep);
      assert |l| == |m|;
      assert l == s[|s| - |l|..] == m;
      assert a == s[..|a|] == b;
      JoinWithUnique(p[..|p| - 1], q[..|q| - 1], sep);
      assert p == p[..|p| - 1] + [l];
      assert q == q[..|q| - 1] + [m];
    }
  }

  /** Splitting undoes joining: `parts.join(sep).split(sep)` gives the
      parts back when none of them holds the separator. */
  lemma SplitOnJoin(parts: seq<string>, sep: char)
    requires |parts| >= 1 && forall i :: 0 <= i < |parts| ==> sep !in parts[i]
    ensures SplitOn(JoinWith(parts, sep), sep) == parts
  {
    CountJoin(parts, sep);
    JoinWithUnique(SplitOn(JoinWith(parts, sep), sep), parts, sep);
  }

  // ---------------------------------------------------------------------------
  // decimal numerals
  // ---------------------------------------------------------------------------

  function DigitChar(d: nat): (c: char)
    requires d < 10
    ensures IsDigit(c)
  {
    (48 + d) as char
  }

  function DigitValue(c: char): (d: nat)
    requires IsDigit(c)
    ensures d < 10
  {
    c as int - 48
  }

  /** `n.toString()` for a non-negative integer: decimal digits without a
      leading zero. */
  function NatToString(n: nat): (r: string)
    ensures |r| >= 1 && AllDigits(r)
    ensures n > 0 ==> r[0] != '0'
  {
    if n < 10 then [DigitChar(n)] else NatToString(n / 10) + [DigitChar(n % 10)]
  }

  /** The value of a string of decimal digits. */
  function DigitsValue(s: string): nat
    requires AllDigits(s)
  {
    if s == [] then 0 else 10 * DigitsValue(s[..|s| - 1]) + DigitValue(s[|s| - 1])
  }

  /** Reading back a printed numeral gives the number. */
  lemma {:induction false} NatToStringRoundTrip(n: nat)
    ensures DigitsValue(NatToString(n)) == n
  {
    if n >= 10 {
      NatToStringRoundTrip(n / 10);
      var s := NatToString(n);
      assert s[..|s| - 1] == NatToString(n / 10);
    }
  }

  /** Distinct numbers print differently. */
  lemma NatToStringInjective(a: nat, b: nat)
    ensures NatToString(a) == NatToString(b) ==> a == b
  {
    NatToStringRoundTrip(a);
    NatToStringRoundTrip(b);
  }

  /** A leading zero does not change the value of a numeral. */
  lemma {:induction false} DigitsValueLeadingZero(s: string)
    requires AllDigits(s)
    ensures AllDigits("0" + s) && DigitsValue("0" + s) == DigitsValue(s)
  {
    if s != [] {
      var init := s[..|s| - 1];
      DigitsValueLeadingZero(init);
      assert ("0" + s)[..|"0" + s| - 1] == "0" + init;
    }
  }

  /** `s.padStart(width, fill)`: fill characters in front of `s` up to
      `width` characters; a string already that long is returned as is. */
  function PadStart(s: string, width: nat, fill: char): (r: string)
    ensures |s| >= width ==> r == s
    ensures |s| < width ==> |r| == width
    ensures r[|r| - |s|..] == s
    ensures forall i :: 0 <= i < |r| - |s| ==> r[i] == fill
  {
    if |s| >= width then s else seq(width - |s|, _ => fill) + s
  }
}
