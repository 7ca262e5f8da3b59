/** The behaviour of Python's `str` operations that the protocol layer uses:
    `isspace`, `strip`, `split(maxsplit=1)`, `in`, `index`, `replace`,
    `lower`, `int(...)` and `str(int)`. */
module Strings {
  import opened Errors

  /** Python's whitespace test for one character (the set `isspace`, `strip`
      and `split` share). */
  predicate IsSpace(c: char) {
    var n := c as int;
    || 0x09 <= n <= 0x0D || 0x1C <= n <= 0x20 || n == 0x85 || n == 0xA0
    || n == 0x1680 || 0x2000 <= n <= 0x200A || n == 0x2028 || n == 0x2029
    || n == 0x202F || n == 0x205F || n == 0x3000
  }

  /** Every character is whitespace (vacuously true of ""). */
  predicate AllSpace(s: string) {
    forall i :: 0 <= i < |s| ==> IsSpace(s[i])
  }

  /** No character is whitespace. */
  predicate NoSpace(s: string) {
    forall i :: 0 <= i < |s| ==> !IsSpace(s[i])
  }

  /** `s.isspace()`: non-empty and all whitespace. */
  predicate IsSpaceString(s: string) {
    |s| > 0 && AllSpace(s)
  }

  /** Neither end of `s` is whitespace. */
  predicate Trimmed(s: string) {
    s == [] || (!IsSpace(s[0]) && !IsSpace(s[|s| - 1]))
  }

  /** `s.lstrip()`. */
  function LStrip(s: string): (r: string)
    ensures |r| <= |s| && r == s[|s| - |r|..]
    ensures AllSpace(s[..|s| - |r|])
    ensures r == [] || !IsSpace(r[0])
    decreases |s|
  {
    if |s| > 0 && IsSpace(s[0]) then LStrip(s[1..]) else s
  }

  /** `s.rstrip()`. */
  function RStrip(s: string): (r: string)
    ensures |r| <= |s| && r == s[..|r|]
    ensures AllSpace(s[|r|..])
    ensures r == [] || !IsSpace(r[|r| - 1])
    decreases |s|
  {
    if |s| > 0 && IsSpace(s[|s| - 1]) then RStrip(s[..|s| - 1]) else s
  }

  /** `s.strip()`. */
  function Strip(s: string): (r: string)
    ensures Trimmed(r)
    ensures r == [] <==> AllSpace(s)
  {
    RStrip(LStrip(s))
  }

  lemma {:induction false} LStripPadded(pre: string, u: string)
    requires AllSpace(pre)
    requires u == [] || !IsSpace(u[0])
    ensures LStrip(pre + u) == u
    decreases |pre|
  {
    if pre != [] {
      assert (pre + u)[1..] == pre[1..] + u;
      LStripPadded(pre[1..], u);
    }
  }

  lemma {:induction false} RStripPadded(u: string, post: string)
    requires AllSpace(post)
    requires u == [] || !IsSpace(u[|u| - 1])
    ensures RStrip(u + post) == u
    decreases |post|
  {
    if post != [] {
      var p := post[..|post| - 1];
      assert (u + post)[..|u + post| - 1] == u + p;
      RStripPadded(u, p);
    }
  }

  /** `strip` removes exactly the whitespace around a trimmed core. */
  lemma StripPadded(pre: string, t: string, post: string)
    requires AllSpace(pre) && AllSpace(post) && Trimmed(t)
    ensures Strip(pre + t + post) == t
  {
    if t == [] {
      assert pre + t + post == pre + post;
      assert AllSpace(pre + post);
    } else {
      assert pre + t + post == pre + (t + post);
      LStripPadded(pre, t + post);
      RStripPadded(t, post);
    }
  }

  /** Drops the leading run of non-whitespace characters. */
  function SkipField(s: string): (r: string)
    ensures |r| <= |s| && r == s[|s| - |r|..]
    ensures NoSpace(s[..|s| - |r|])
    ensures r == [] || IsSpace(r[0])
  {
    s[FieldLength(s)..]
  }

  /** The length of the leading run of non-whitespace characters. */
  function FieldLength(s: string): (k: nat)
    ensures k <= |s|
    ensures forall i :: 0 <= i < k ==> !IsSpace(s[i])
    ensures k < |s| ==> IsSpace(s[k])
    decreases |s|
  {
    if |s| > 0 && !IsSpace(s[0]) then
      var k := FieldLength(s[1..]);
      assert forall i :: 1 <= i < k + 1 ==> s[i] == s[1..][i - 1];
      k + 1
    else 0
  }

  /** `s.split(maxsplit=1)[1]`, with `None` where Python raises IndexError:
      what follows the first whitespace-separated field and the whitespace
      after it, when anything does. */
  function SecondField(s: string): (r: Option<string>)
    ensures r.Some? ==> r.value != [] && !IsSpace(r.value[0])
  {
    var rest := LStrip(SkipField(LStrip(s)));
    if rest == [] then None else Some(rest)
  }

  lemma SkipFieldOf(w: string, u: string)
    requires NoSpace(w)
    requires u == [] || IsSpace(u[0])
    ensures SkipField(w + u) == u
  {
    FieldLengthOf(w, u);
    assert (w + u)[|w|..] == u;
  }

  lemma {:induction false} FieldLengthOf(w: string, u: string)
    requires NoSpace(w)
    requires u == [] || IsSpace(u[0])
    ensures FieldLength(w + u) == |w|
    decreases |w|
  {
    if w != [] {
      assert (w + u)[1..] == w[1..] + u;
      FieldLengthOf(w[1..], u);
    } else {
      assert w + u == u;
    }
  }

  /** The second field of `w + gap + t` is `t`, for a first field `w`, a
      whitespace gap, and a `t` that does not start with whitespace. */
  lemma SecondFieldOf(w: string, gap: string, t: string)
    requires w != [] && NoSpace(w)
    requires IsSpaceString(gap)
    requires t != [] && !IsSpace(t[0])
    ensures SecondField(w + gap + t) == Some(t)
  {
    LStripPadded([], w + gap + t);
    assert [] + (w + gap + t) == w + gap + t;
    assert w + gap + t == w + (gap + t);
    SkipFieldOf(w, gap + t);
    LStripPadded(gap, t);
  }

  /** A single field has no second field. */
  lemma SecondFieldOfOne(w: string, tail: string)
    requires w != [] && NoSpace(w)
    requires AllSpace(tail)
    ensures SecondField(w + tail).None?
  {
    LStripPadded([], w + tail);
    assert [] + (w + tail) == w + tail;
    if tail == [] {
      assert w + tail == w + [];
      SkipFieldOf(w, []);
    } else {
      SkipFieldOf(w, tail);
      LStripPadded(tail, []);
      assert tail + [] == tail;
    }
  }

  /** The substring test `[a, b] in s` for a two-character pattern. */
  function ContainsPair(s: string, a: char, b: char): (r: bool)
    ensures r <==> exists i :: 0 <= i < |s| - 1 && s[i] == a && s[i + 1] == b
    decreases |s|
  {
    if |s| < 2 then false
    else if s[0] == a && s[1] == b then true
    else
      var r' := ContainsPair(s[1..], a, b);
      assert forall i :: 1 <= i < |s| - 1 ==> s[i] == s[1..][i - 1];
      r'
  }

  /** `s.index(c)`, with `None` where Python raises ValueError. */
  function IndexOf(s: string, c: char): (r: Option<nat>)
    ensures r.None? <==> c !in s
    ensures r.Some? ==> r.value < |s| && s[r.value] == c && c !in s[..r.value]
  {
    if s == [] then None
    else if s[0] == c then Some(0)
    else match IndexOf(s[1..], c)
      case None => None
      case Some(k) =>
        assert s[..k + 1] == [s[0]] + s[1..][..k];
        Some(k + 1)
  }

  /** The first occurrence is the only position with no earlier occurrence. */
  lemma IndexOfAt(s: string, c: char, k: nat)
    requires k < |s| && s[k] == c
    requires forall j :: 0 <= j < k ==> s[j] != c
    ensures IndexOf(s, c) == Some(k)
  {
    var r := IndexOf(s, c);
    assert c in s;
    assert forall j :: 0 <= j < r.value ==> s[..r.value][j] == s[j];
  }

  /** `s.replace(c, '')`. */
  function RemoveAll(s: string, c: char): (r: string)
    ensures c !in r
    ensures forall x :: x in r <==> x in s && x != c
    ensures |r| <= |s|
  {
    if s == [] then []
    else (if s[0] == c then [] else [s[0]]) + RemoveAll(s[1..], c)
  }

  lemma {:induction false} RemoveAllAbsent(s: string, c: char)
    requires c !in s
    ensures RemoveAll(s, c) == s
  {
    if s != [] {
      RemoveAllAbsent(s[1..], c);
    }
  }

  lemma {:induction false} RemoveAllAppend(a: string, b: string, c: char)
    ensures RemoveAll(a + b, c) == RemoveAll(a, c) + RemoveAll(b, c)
  {
    if a != [] {
      assert (a + b)[1..] == a[1..] + b;
      RemoveAllAppend(a[1..], b, c);
    } else {
      assert a + b == b;
    }
  }

  predicate IsAsciiUpper(c: char) { 'A' <= c <= 'Z' }

  predicate IsAsciiLower(c: char) { 'a' <= c <= 'z' }

  /** `c.lower()` on ASCII (the only characters it is applied to here). */
  function Lower(c: char): (r: char)
    ensures IsAsciiUpper(c) ==> IsAsciiLower(r) && r as int == c as int + 32
    ensures !IsAsciiUpper(c) ==> r == c
  {
    if IsAsciiUpper(c) then (c as int + 32) as char else c
  }

  predicate IsDigit(c: char) { '0' <= c <= '9' }

  predicate AllDigits(s: string) {
    forall i :: 0 <= i < |s| ==> IsDigit(s[i])
  }

  function DigitChar(d: nat): (c: char)
    requires d < 10
    ensures IsDigit(c)
  {
    (d + '0' as int) as char
  }

  function DigitValue(c: char): (d: nat)
    requires IsDigit(c)
    ensures d < 10 && DigitChar(d) == c
  {
    c as int - '0' as int
  }

  /** `str(n)` for a natural number: decimal digits, no leading zero. */
  function NatToString(n: nat): (r: string)
    ensures |r| > 0 && AllDigits(r)
    ensures r[0] == '0' <==> n == 0
    ensures n < 10 <==> |r| == 1
    decreases n
  {
    if n < 10 then [DigitChar(n)] else NatToString(n / 10) + [DigitChar(n % 10)]
  }

  /** `str(i)` for any integer. */
  function IntToString(i: int): (r: string)
    ensures i >= 0 ==> r == NatToString(i)
    ensures i < 0 ==> r == "-" + NatToString(-i)
  {
    if i < 0 then "-" + NatToString(-i) else NatToString(i)
  }

  /** The number a string of decimal digits denotes. */
  function DigitsValue(s: string): nat
    requires AllDigits(s)
  {
    if s == [] then 0 else 10 * DigitsValue(s[..|s| - 1]) + DigitValue(s[|s| - 1])
  }

  /** `int(s)` on strings of ASCII characters without sign or spaces: the
      only strings it receives in the modelled code (digits, or a letter of
      `pass`/`resign`). */
  function ParseInt(s: string): (r: Result<int>)
    ensures r.Ok? <==> |s| > 0 && AllDigits(s)
    ensures r.Raised? ==> r.exc.ValueError?
  {
    if |s| > 0 && AllDigits(s) then Ok(DigitsValue(s))
    else Raised(ValueError("invalid literal for int() with base 10"))
  }

  /** `int(c)` for one digit. */
  lemma SingleDigit(c: char)
    requires IsDigit(c)
    ensures ParseInt([c]) == Ok(DigitValue(c))
  {
    var d := [c];
    assert AllDigits(d);
    assert d[..0] == [] && d[0] == c;
    assert DigitsValue(d) == 10 * DigitsValue(d[..0]) + DigitValue(d[0]);
  }

  /** The leading digit of a number below 20. */
  lemma LeadingDigitBelowTwenty(n: nat)
    requires 1 <= n <= 19
    ensures NatToString(n)[0] == if n < 10 then DigitChar(n) else '1'
  {
    if n >= 10 {
      assert NatToString(n) == NatToString(1) + [DigitChar(n % 10)];
    }
  }

  /** `int(str(n)) == n`. */
  lemma {:induction false} NatToStringRoundTrip(n: nat)
    ensures DigitsValue(NatToString(n)) == n
    decreases n
  {
    if n >= 10 {
      var s := NatToString(n);
      assert s[..|s| - 1] == NatToString(n / 10);
      NatToStringRoundTrip(n / 10);
    }
  }

  lemma {:induction false} LeadingNonZero(s: string)
    requires |s| > 0 && AllDigits(s) && s[0] != '0'
    ensures DigitsValue(s) >= 1
    ensures |s| > 1 ==> DigitsValue(s) >= 10
    decreases |s|
  {
    if |s| > 1 {
      LeadingNonZero(s[..|s| - 1]);
    }
  }

  /** `str(int(s)) == s` for a canonical decimal (no leading zero). */
  lemma {:induction false} CanonicalRoundTrip(s: string)
    requires |s| > 0 && AllDigits(s) && (s[0] == '0' ==> |s| == 1)
    ensures NatToString(DigitsValue(s)) == s
    decreases |s|
  {
    if |s| > 1 {
      var p := s[..|s| - 1];
      LeadingNonZero(s);
      CanonicalRoundTrip(p);
      var n := DigitsValue(s);
      assert n / 10 == DigitsValue(p) && n % 10 == DigitValue(s[|s| - 1]);
      assert s == p + [s[|s| - 1]];
    }
  }
}
