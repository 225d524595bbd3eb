/** The Python `str` operations the plugin relies on: `strip`, `split`,
    `replace`, `"sep".join`, `str(int)` and `float(str)`, over `seq<char>`. */
module Strings {
  import opened Wrappers

  /** Python's `str.isspace` on the characters it accepts below U+0100. */
  predicate IsSpace(c: char) {
    c == ' ' || ('\t' <= c <= '\r') || ('\U{1C}' <= c <= '\U{1F}') || c == '\U{85}' || c == '\U{A0}'
  }

  /** Index of the first character of `s` that is not whitespace (|s| if none). */
  function StripStart(s: string): (i: nat)
    ensures i <= |s|
    ensures forall k :: 0 <= k < i ==> IsSpace(s[k])
    ensures i < |s| ==> !IsSpace(s[i])
  {
    if |s| == 0 || !IsSpace(s[0]) then 0 else 1 + StripStart(s[1..])
  }

  /** One past the last character of `s` that is not whitespace (0 if none). */
  function StripEnd(s: string): (j: nat)
    ensures j <= |s|
    ensures forall k :: j <= k < |s| ==> IsSpace(s[k])
    ensures j > 0 ==> !IsSpace(s[j - 1])
  {
    if |s| == 0 || !IsSpace(s[|s| - 1]) then |s| else StripEnd(s[..|s| - 1])
  }

  /** Python's `s.strip()`: drops leading and trailing whitespace and nothing
      else; every non-whitespace character lies inside the kept slice. */
  function Strip(s: string): (r: string)
    ensures forall k :: 0 <= k < |s| && !IsSpace(s[k]) ==> StripStart(s) <= k < StripEnd(s)
    ensures StripStart(s) <= StripEnd(s) ==> r == s[StripStart(s)..StripEnd(s)]
    ensures StripStart(s) > StripEnd(s) ==> r == "" && forall k :: 0 <= k < |s| ==> IsSpace(s[k])
    ensures |r| > 0 ==> !IsSpace(r[0]) && !IsSpace(r[|r| - 1])
  {
    var i := StripStart(s);
    var j := StripEnd(s);
    if i <= j then s[i..j] else ""
  }

  /** A character of `s` that is not whitespace survives `Strip`. */
  lemma StripKeeps(s: string, k: int)
    requires 0 <= k < |s| && !IsSpace(s[k])
    ensures s[k] in Strip(s)
  {
    assert Strip(s)[k - StripStart(s)] == s[k];
  }

  /** Python's `s.replace(a, b)` for one-character `a` and `b`. */
  function ReplaceChar(s: string, a: char, b: char): (r: string)
    ensures |r| == |s|
    ensures forall k :: 0 <= k < |s| ==> r[k] == if s[k] == a then b else s[k]
  {
    if |s| == 0 then "" else [if s[0] == a then b else s[0]] + ReplaceChar(s[1..], a, b)
  }

  /** Python's `s.replace(c, "")`. */
  function RemoveChar(s: string, c: char): (r: string)
    ensures c !in r
    ensures forall d :: d != c ==> (d in r <==> d in s)
    ensures |r| <= |s|
  {
    if |s| == 0 then "" else (if s[0] == c then "" else [s[0]]) + RemoveChar(s[1..], c)
  }

  /** `sep` occurs in `s` starting at index `k`. */
  predicate IsAt(s: string, sep: string, k: int) {
    0 <= k && k + |sep| <= |s| && s[k..k + |sep|] == sep
  }

  predicate Occurs(s: string, sep: string) {
    exists k :: 0 <= k <= |s| && IsAt(s, sep, k)
  }

  /** Python's `s.split(sep)` (equivalently `re.split` with a pattern free of
      special characters): cut at every leftmost non-overlapping occurrence. */
  function Split(s: string, sep: string): (parts: seq<string>)
    requires |sep| > 0
    ensures |parts| >= 1
    decreases |s|
  {
    if |s| < |sep| then [s]
    else if s[..|sep|] == sep then [""] + Split(s[|sep|..], sep)
    else
      var rest := Split(s[1..], sep);
      [[s[0]] + rest[0]] + rest[1..]
  }

  /** Python's `sep.join(parts)`. */
  function Join(parts: seq<string>, sep: string): string
    requires |parts| >= 1
  {
    if |parts| == 1 then parts[0] else parts[0] + sep + Join(parts[1..], sep)
  }

  /** `split` and `join` are inverse: no character is lost or invented. */
  lemma {:induction false} SplitJoin(s: string, sep: string)
    requires |sep| > 0
    ensures Join(Split(s, sep), sep) == s
    decreases |s|
  {
    if |s| < |sep| {
    } else if s[..|sep|] == sep {
      SplitJoin(s[|sep|..], sep);
      var p := Split(s[|sep|..], sep);
      assert Split(s, sep) == [""] + p;
      assert ([""] + p)[1..] == p;
      assert s == sep + s[|sep|..];
    } else {
      SplitJoin(s[1..], sep);
      var rest := Split(s[1..], sep);
      var parts := [[s[0]] + rest[0]] + rest[1..];
      assert Split(s, sep) == parts;
      if |rest| == 1 {
        assert s == [s[0]] + s[1..];
      } else {
        assert parts[1..] == rest[1..];
        assert Join(rest, sep) == rest[0] + sep + Join(rest[1..], sep);
        assert s == [s[0]] + s[1..];
      }
    }
  }

  /** Without an occurrence of the separator, `split` returns the whole string. */
  lemma {:induction false} SplitNoOccurrence(s: string, sep: string)
    requires |sep| > 0
    requires !Occurs(s, sep)
    ensures Split(s, sep) == [s]
    decreases |s|
  {
    if |s| < |sep| {
    } else {
      assert !IsAt(s, sep, 0);
      assert s[0..|sep|] == s[..|sep|];
      forall k | IsAt(s[1..], sep, k) ensures IsAt(s, sep, k + 1) {
        assert s[1..][k..k + |sep|] == s[k + 1..k + 1 + |sep|];
      }
      SplitNoOccurrence(s[1..], sep);
      assert s == [s[0]] + s[1..];
    }
  }

  /** The first piece of a split ends at the first occurrence of the separator. */
  lemma {:induction false} SplitAtFirst(a: string, sep: string, b: string)
    requires |sep| > 0
    requires forall k :: 0 <= k < |a| ==> !IsAt(a + sep + b, sep, k)
    ensures Split(a + sep + b, sep) == [a] + Split(b, sep)
    decreases |a|
  {
    var s := a + sep + b;
    if |a| == 0 {
      assert s == sep + b;
      assert s[..|sep|] == sep;
      assert s[|sep|..] == b;
    } else {
      assert !IsAt(s, sep, 0);
      assert s[0..|sep|] == s[..|sep|];
      assert s[1..] == a[1..] + sep + b;
      forall k | 0 <= k < |a[1..]| ensures !IsAt(a[1..] + sep + b, sep, k) {
        assert !IsAt(s, sep, k + 1);
        assert s[k + 1..k + 1 + |sep|] == (a[1..] + sep + b)[k..k + |sep|];
      }
      SplitAtFirst(a[1..], sep, b);
      assert a == [a[0]] + a[1..];
    }
  }

  function CountChar(s: string, c: char): nat {
    if |s| == 0 then 0 else (if s[0] == c then 1 else 0) + CountChar(s[1..], c)
  }

  /** Splitting on one character yields one more piece than it has occurrences,
      and no piece contains the separator. */
  lemma {:induction false} SplitCharCount(s: string, c: char)
    ensures |Split(s, [c])| == CountChar(s, c) + 1
    ensures forall i :: 0 <= i < |Split(s, [c])| ==> c !in Split(s, [c])[i]
    decreases |s|
  {
    if |s| == 0 {
    } else {
      SplitCharCount(s[1..], c);
      assert s[..1] == [s[0]];
      if s[0] == c {
        assert s[1..] == s[|[c]|..];
      } else {
        var rest := Split(s[1..], [c]);
        assert Split(s, [c]) == [[s[0]] + rest[0]] + rest[1..];
      }
    }
  }

  lemma OccursChar(s: string, c: char)
    ensures Occurs(s, [c]) <==> c in s
  {
    if c in s {
      var k :| 0 <= k < |s| && s[k] == c;
      assert s[k..k + 1] == [c];
      assert IsAt(s, [c], k);
    }
    if Occurs(s, [c]) {
      var k :| 0 <= k <= |s| && IsAt(s, [c], k);
      assert 0 <= k && k + 1 <= |s| && s[k..k + 1] == [c];
      assert s[k..k + 1][0] == s[k];
    }
  }

  /** A character of `join`'s result that is not in the separator comes from one of the parts. */
  lemma {:induction false} JoinMember(parts: seq<string>, sep: string, c: char)
    requires |parts| >= 1
    requires c in Join(parts, sep) && c !in sep
    ensures exists i :: 0 <= i < |parts| && c in parts[i]
    decreases |parts|
  {
    if |parts| > 1 && c !in parts[0] {
      JoinMember(parts[1..], sep, c);
      var i :| 0 <= i < |parts[1..]| && c in parts[1..][i];
      assert c in parts[i + 1];
    }
  }

  // ---- decimal digits --------------------------------------------------

  predicate IsDigit(c: char) { '0' <= c <= '9' }

  predicate AllDigits(s: string) { forall k :: 0 <= k < |s| ==> IsDigit(s[k]) }

  function DigitChar(d: nat): char
    requires d < 10
  {
    ('0' as int + d) as char
  }

  function Pow10(k: nat): (p: nat)
    ensures p >= 1
  {
    if k == 0 then 1 else 10 * Pow10(k - 1)
  }

  /** The number a string of decimal digits denotes. */
  function DigitsValue(s: string): nat
    requires AllDigits(s)
  {
    if |s| == 0 then 0 else 10 * DigitsValue(s[..|s| - 1]) + (s[|s| - 1] as int - '0' as int)
  }

  /** Python's `str(n)` for a natural number. */
  function NatToString(n: nat): (r: string)
    ensures |r| >= 1 && AllDigits(r)
  {
    if n < 10 then [DigitChar(n)] else NatToString(n / 10) + [DigitChar(n % 10)]
  }

  /** Reading back the digits `str(n)` prints gives `n`. */
  lemma {:induction false} NatToStringValue(n: nat)
    ensures DigitsValue(NatToString(n)) == n
  {
    var r := NatToString(n);
    if n >= 10 {
      NatToStringValue(n / 10);
      assert r[..|r| - 1] == NatToString(n / 10);
    }
  }

  /** Distinct numbers print differently. */
  lemma NatToStringInjective(m: nat, n: nat)
    requires NatToString(m) == NatToString(n)
    ensures m == n
  {
    NatToStringValue(m);
    NatToStringValue(n);
  }

  // ---- float() ------------------------------------------------------------

  /** The decimal numerals this model accepts: an optional sign, digits, an
      optional point and more digits, with at least one digit in all. */
  function ParseDecimal(t: string): Option<real> {
    var neg := |t| > 0 && t[0] == '-';
    var body := if |t| > 0 && (t[0] == '-' || t[0] == '+') then t[1..] else t;
    var pieces := Split(body, ".");
    if |pieces| > 2 then None
    else
      var whole := pieces[0];
      var frac := if |pieces| == 2 then pieces[1] else "";
      if !AllDigits(whole) || !AllDigits(frac) || (|whole| == 0 && |frac| == 0) then None
      else
        var mag := DigitsValue(whole) as real + DigitsValue(frac) as real / Pow10(|frac|) as real;
        Some(if neg then -mag else mag)
  }

  /** Python's `float(s)` on decimal numerals: surrounding whitespace is
      ignored; anything else that is not a numeral gives None (ValueError). */
  function ParseFloat(s: string): Option<real> {
    ParseDecimal(Strip(s))
  }

  /** An ASCII character that no spelling of a Python float uses (not a
      digit, sign, point, whitespace, exponent mark, underscore or letter of
      "infinity" and "nan"; a NUL byte, say) anywhere in the text makes
      `float()` fail. */
  lemma NotANumeral(s: string, k: int)
    requires 0 <= k < |s|
    requires s[k] as int < 128 && !IsDigit(s[k]) && !IsSpace(s[k])
    requires s[k] !in "+-.eE_" && s[k] !in "iInNfFtTyYaA"
    ensures ParseFloat(s) == None
  {
    var c := s[k];
    StripKeeps(s, k);
    var t := Strip(s);
    var body := if |t| > 0 && (t[0] == '-' || t[0] == '+') then t[1..] else t;
    assert c in body by {
      var m :| 0 <= m < |t| && t[m] == c;
      if body != t { assert m != 0; assert body[m - 1] == c; }
    }
    var pieces := Split(body, ".");
    SplitJoin(body, ".");
    JoinMember(pieces, ".", c);
    var i :| 0 <= i < |pieces| && c in pieces[i];
    if |pieces| <= 2 {
      var m :| 0 <= m < |pieces[i]| && pieces[i][m] == c;
      assert !IsDigit(pieces[i][m]);
    }
  }
}
