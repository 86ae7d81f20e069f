/**
 * The string primitives that the generator's expressions rely on:
 * substring search (Python's `in` on strings), the regular-expression
 * substitution `re.sub(<literal> + '.*', repl, s)`, and decimal rendering of
 * integers (Python's `str(int)`), each with the property that makes it
 * usable by the callers.
 */
module Text {
  import opened Wrappers

  /** `p` occurs in `s` starting at index `i`. */
  predicate OccursAt(s: string, p: string, i: nat)
  {
    i + |p| <= |s| && s[i..i + |p|] == p
  }

  /** The first index at which `p` occurs in `s` (Python's `s.find(p)`, with `None` for -1). */
  function FirstIndex(s: string, p: string): (r: Option<nat>)
    ensures r.Some? ==> OccursAt(s, p, r.value)
    ensures r.Some? ==> forall j :: 0 <= j < r.value ==> !OccursAt(s, p, j)
    ensures r.None? ==> forall j: nat :: !OccursAt(s, p, j)
    decreases |s|
  {
    if |s| < |p| then None
    else if OccursAt(s, p, 0) then Some(0)
    else
      var rest := FirstIndex(s[1..], p);
      assert forall j: nat :: OccursAt(s[1..], p, j) <==> OccursAt(s, p, j + 1) by {
        forall j: nat ensures OccursAt(s[1..], p, j) <==> OccursAt(s, p, j + 1) {
          if j + 1 + |p| <= |s| {
            assert s[1..][j..j + |p|] == s[j + 1..j + 1 + |p|];
          }
        }
      }
      assert forall j: nat :: j > 0 ==> (OccursAt(s, p, j) <==> OccursAt(s[1..], p, j - 1));
      match rest
      case None => None
      case Some(i) => Some(i + 1)
  }

  /** Python's `p in s` for strings: `p` occurs somewhere in `s`. */
  predicate Contains(s: string, p: string)
  {
    exists i :: 0 <= i <= |s| && OccursAt(s, p, i)
  }

  /** `p in s` holds exactly when `s.find(p)` finds an index. */
  lemma ContainsIff(s: string, p: string)
    ensures Contains(s, p) <==> FirstIndex(s, p).Some?
  {
    if FirstIndex(s, p).Some? {
      assert OccursAt(s, p, FirstIndex(s, p).value);
    }
  }

  /** A pattern holding a character the string lacks does not occur in it. */
  lemma MissingCharacterExcludesOccurrence(s: string, p: string, k: nat)
    requires k < |p| && p[k] !in s
    ensures !Contains(s, p)
  {
    forall i | 0 <= i <= |s| ensures !OccursAt(s, p, i) {
      if i + |p| <= |s| {
        assert s[i..i + |p|][k] == s[i + k];
      }
    }
  }

  /** Index of the first line break in `s`, or `|s|` when there is none. */
  function LineEnd(s: string): (n: nat)
    ensures n <= |s|
    ensures forall j :: 0 <= j < n ==> s[j] != '\n'
    ensures n < |s| ==> s[n] == '\n'
  {
    if s == [] || s[0] == '\n' then 0 else 1 + LineEnd(s[1..])
  }

  /**
   * Python's `re.sub(re.escape(pat) + '.*', repl, s)`: scanning left to right,
   * each occurrence of `pat` is replaced, together with the rest of its line
   * (the regular expression '.' does not match a line break), by `repl`;
   * scanning resumes at the line break.
   */
  function ReplaceToLineEnd(s: string, pat: string, repl: string): (r: string)
    requires pat != [] && '\n' !in pat
    decreases |s|
  {
    if s == [] then []
    else if OccursAt(s, pat, 0) then
      var n := LineEnd(s);
      repl + ReplaceToLineEnd(s[n..], pat, repl)
    else
      [s[0]] + ReplaceToLineEnd(s[1..], pat, repl)
  }

  /**
   * On a single line the substitution keeps everything before the first
   * occurrence of `pat`, replaces the rest by `repl`, and leaves a line
   * without `pat` unchanged.
   */
  lemma {:induction false} ReplaceToLineEndOnOneLine(s: string, pat: string, repl: string)
    requires pat != [] && '\n' !in pat && '\n' !in s
    ensures ReplaceToLineEnd(s, pat, repl) ==
              match FirstIndex(s, pat)
              case None => s
              case Some(i) => s[..i] + repl
    decreases |s|
  {
    if s == [] {
    } else if OccursAt(s, pat, 0) {
      assert LineEnd(s) == |s|;
      assert s[|s|..] == [];
    } else {
      assert '\n' !in s[1..];
      ReplaceToLineEndOnOneLine(s[1..], pat, repl);
      if |s| >= |pat| {
        match FirstIndex(s[1..], pat)
        case None =>
        case Some(i) =>
          assert [s[0]] + s[1..][..i] == s[..i + 1];
      }
    }
  }

  predicate IsDigit(c: char)
  {
    '0' <= c <= '9'
  }

  predicate AllDigits(s: string)
  {
    forall i :: 0 <= i < |s| ==> IsDigit(s[i])
  }

  function DigitChar(d: nat): (c: char)
    requires d < 10
    ensures IsDigit(c)
  {
    (48 + d) as char
  }

  function DigitValue(c: char): (d: nat)
    requires IsDigit(c)
    ensures d < 10
  {
    c as int - 48
  }

  /** The number written by a string of decimal digits, most significant first. */
  function DigitsValue(s: string): nat
    requires AllDigits(s)
  {
    if s == [] then 0 else DigitsValue(s[..|s| - 1]) * 10 + DigitValue(s[|s| - 1])
  }

  /** Python's `str(n)` for a non-negative integer: digits, no leading zeros. */
  function NatToString(n: nat): (r: string)
    ensures |r| > 0 && AllDigits(r)
    ensures |r| > 1 ==> r[0] != '0'
  {
    if n < 10 then [DigitChar(n)] else NatToString(n / 10) + [DigitChar(n % 10)]
  }

  /** Python's `str(n)` for any integer. */
  function IntToString(n: int): (r: string)
    ensures r != []
  {
    if n < 0 then "-" + NatToString(-n) else NatToString(n)
  }

  /** The digits `NatToString` produces read back as the number written. */
  lemma {:induction false} NatToStringRoundTrip(n: nat)
    ensures DigitsValue(NatToString(n)) == n
  {
    if n >= 10 {
      NatToStringRoundTrip(n / 10);
      var s := NatToString(n);
      assert s[..|s| - 1] == NatToString(n / 10);
    }
  }

  /** Distinct integers are written differently. */
  lemma IntToStringInjective(a: int, b: int)
    ensures IntToString(a) == IntToString(b) ==> a == b
  {
    var sa, sb := IntToString(a), IntToString(b);
    if sa == sb {
      if a < 0 && b < 0 {
        assert NatToString(-a) == sa[1..] == sb[1..] == NatToString(-b);
        NatToStringRoundTrip(-a);
        NatToStringRoundTrip(-b);
      } else if a >= 0 && b >= 0 {
        NatToStringRoundTrip(a);
        NatToStringRoundTrip(b);
      }
    }
  }

  /** `ZeroPad(n, w)` writes `n` in exactly `w` decimal digits with leading zeros. */
  function ZeroPad(n: nat, w: nat): (r: string)
    ensures |r| == w && AllDigits(r)
  {
    if w == 0 then [] else ZeroPad(n / 10, w - 1) + [DigitChar(n % 10)]
  }

  function Pow10(w: nat): (p: nat)
    ensures p >= 1
  {
    if w == 0 then 1 else 10 * Pow10(w - 1)
  }

  /** A number below 10^w survives being written in `w` digits and read back. */
  lemma {:induction false} ZeroPadRoundTrip(n: nat, w: nat)
    requires n < Pow10(w)
    ensures DigitsValue(ZeroPad(n, w)) == n
  {
    if w > 0 {
      var q, d := n / 10, n % 10;
      assert n == q * 10 + d;
      assert q < Pow10(w - 1);
      ZeroPadRoundTrip(q, w - 1);
      var s := ZeroPad(n, w);
      assert s == ZeroPad(q, w - 1) + [DigitChar(d)];
      assert s[..|s| - 1] == ZeroPad(q, w - 1);
      assert DigitValue(s[|s| - 1]) == d;
    }
  }

  /** Digits written back in their own width reproduce themselves. */
  lemma {:induction false} DigitsZeroPadRoundTrip(d: string)
    requires AllDigits(d)
    ensures DigitsValue(d) < Pow10(|d|)
    ensures ZeroPad(DigitsValue(d), |d|) == d
  {
    if d != [] {
      var init := d[..|d| - 1];
      DigitsZeroPadRoundTrip(init);
      var v := DigitsValue(d);
      assert v / 10 == DigitsValue(init) && v % 10 == DigitValue(d[|d| - 1]);
      assert DigitChar(v % 10) == d[|d| - 1];
      assert d == init + [d[|d| - 1]];
    }
  }

  /** `n` zero digits. */
  function Zeros(n: nat): (z: string)
    ensures |z| == n && AllDigits(z)
    ensures forall i :: 0 <= i < n ==> z[i] == '0'
  {
    seq(n, _ => '0')
  }

  /** Digit strings stay digit strings when joined. */
  lemma AllDigitsAppend(a: string, b: string)
    requires AllDigits(a) && AllDigits(b)
    ensures AllDigits(a + b)
  {
    forall i | 0 <= i < |a + b| ensures IsDigit((a + b)[i]) {
      if i >= |a| {
        assert (a + b)[i] == b[i - |a|];
      }
    }
  }

  /** Regrouping a product with ten, kept apart so that the digit proofs stay linear. */
  lemma TimesTen(v: nat, p: nat)
    ensures v * p * 10 == v * (10 * p)
  {
  }

  /** A multiple of 10^j written in w + j digits is the multiplier written in w digits, then j zeros. */
  lemma {:induction false} ZeroPadShift(q: nat, w: nat, j: nat)
    ensures ZeroPad(q * Pow10(j), w + j) == ZeroPad(q, w) + Zeros(j)
  {
    if j == 0 {
      assert ZeroPad(q, w) + Zeros(0) == ZeroPad(q, w);
    } else {
      var shorter := q * Pow10(j - 1);
      TimesTen(q, Pow10(j - 1));
      ZeroPadShift(q, w, j - 1);
      assert ZeroPad(shorter * 10, w + j) == ZeroPad(shorter, w + j - 1) + [DigitChar(0)];
      assert Zeros(j) == Zeros(j - 1) + ['0'];
    }
  }

  /** A number divisible by 10^j, written in w + j digits, ends in j zeros. */
  lemma ZeroPadOfMultiple(n: nat, w: nat, j: nat)
    requires n % Pow10(j) == 0
    ensures ZeroPad(n, w + j) == ZeroPad(n / Pow10(j), w) + Zeros(j)
  {
    assert n == n / Pow10(j) * Pow10(j);
    ZeroPadShift(n / Pow10(j), w, j);
  }

  /** Appending `k` zeros multiplies the value written by 10^k. */
  lemma {:induction false} DigitsValueShift(d: string, k: nat)
    requires AllDigits(d)
    ensures AllDigits(d + Zeros(k))
    ensures DigitsValue(d + Zeros(k)) == DigitsValue(d) * Pow10(k)
  {
    AllDigitsAppend(d, Zeros(k));
    if k == 0 {
      assert d + Zeros(k) == d;
    } else {
      var shorter := d + Zeros(k - 1);
      DigitsValueShift(d, k - 1);
      var longer := d + Zeros(k);
      assert longer == shorter + ['0'];
      assert longer[..|longer| - 1] == shorter;
      assert DigitsValue(longer) == DigitsValue(shorter) * 10 + DigitValue('0');
      TimesTen(DigitsValue(d), Pow10(k - 1));
    }
  }
}
