/**
 * The string operations the forecast code uses: Python's str.split on one
 * character, the `in` substring test, int() and float() on decimal text,
 * and the decimal printing behind f-strings such as f"D-{n}".
 */
module Text {
  import opened Outcomes

  /** s.split(sep): the fields between occurrences of sep; never empty. */
  function Split(s: string, sep: char): (parts: seq<string>)
    ensures |parts| >= 1
  {
    if s == [] then [""]
    else
      var rest := Split(s[1..], sep);
      if s[0] == sep then [""] + rest
      else [[s[0]] + rest[0]] + rest[1..]
  }

  /** sep.join(parts) */
  function Join(parts: seq<string>, sep: char): string
    requires |parts| >= 1
  {
    if |parts| == 1 then parts[0] else parts[0] + [sep] + Join(parts[1..], sep)
  }

  lemma {:induction false} JoinSplit(s: string, sep: char)
    ensures Join(Split(s, sep), sep) == s
  {
    if s != [] {
      var rest := Split(s[1..], sep);
      JoinSplit(s[1..], sep);
      if s[0] == sep {
        assert ([""] + rest)[1..] == rest;
        assert s == [sep] + s[1..];
      } else if |rest| == 1 {
        assert s == [s[0]] + s[1..];
      } else {
        var parts := [[s[0]] + rest[0]] + rest[1..];
        assert parts[1..] == rest[1..];
        assert Join(rest, sep) == rest[0] + [sep] + Join(rest[1..], sep);
        assert s == [s[0]] + s[1..];
      }
    }
  }

  lemma {:induction false} SplitFieldThenRest(p: string, t: string, sep: char)
    requires sep !in p
    ensures Split(p + [sep] + t, sep) == [p] + Split(t, sep)
    ensures Split(p, sep) == [p]
  {
    if p == [] {
      assert p + [sep] + t == [sep] + t;
      assert ([sep] + t)[1..] == t;
    } else {
      SplitFieldThenRest(p[1..], t, sep);
      assert (p + [sep] + t)[1..] == p[1..] + [sep] + t;
      assert [p[0]] + p[1..] == p;
    }
  }

  /** Splitting a join of separator-free fields gives the fields back. */
  lemma {:induction false} SplitJoin(parts: seq<string>, sep: char)
    requires |parts| >= 1
    requires forall i :: 0 <= i < |parts| ==> sep !in parts[i]
    ensures Split(Join(parts, sep), sep) == parts
  {
    if |parts| == 1 {
      SplitFieldThenRest(parts[0], "", sep);
    } else {
      SplitJoin(parts[1..], sep);
      SplitFieldThenRest(parts[0], Join(parts[1..], sep), sep);
      assert [parts[0]] + parts[1..] == parts;
    }
  }

  /** Python's `pat in s`. */
  function Contains(s: string, pat: string): bool
    decreases |s|
  {
    if |pat| > |s| then false
    else s[..|pat|] == pat || Contains(s[1..], pat)
  }

  lemma {:induction false} ContainsAt(s: string, pat: string, i: nat)
    requires i + |pat| <= |s| && s[i..i + |pat|] == pat
    ensures Contains(s, pat)
    decreases i
  {
    if i > 0 {
      assert s[1..][i - 1..i - 1 + |pat|] == s[i..i + |pat|];
      ContainsAt(s[1..], pat, i - 1);
    }
  }

  lemma {:induction false} ContainsWitness(s: string, pat: string) returns (i: nat)
    requires Contains(s, pat)
    ensures i + |pat| <= |s| && s[i..i + |pat|] == pat
    decreases |s|
  {
    if s[..|pat|] == pat {
      i := 0;
    } else {
      var j := ContainsWitness(s[1..], pat);
      assert s[1..][j..j + |pat|] == s[j + 1..j + 1 + |pat|];
      i := j + 1;
    }
  }

  /**
   * When the first character of a non-empty pattern occurs in s at position p
   * only, s contains the pattern exactly when it starts at p.
   */
  lemma ContainsOnlyAt(s: string, pat: string, p: nat)
    requires |pat| > 0 && p < |s|
    requires forall i :: 0 <= i < |s| && s[i] == pat[0] ==> i == p
    ensures Contains(s, pat) <==> (p + |pat| <= |s| && s[p..p + |pat|] == pat)
  {
    if Contains(s, pat) {
      var i := ContainsWitness(s, pat);
      assert s[i] == s[i..i + |pat|][0];
    }
    if p + |pat| <= |s| && s[p..p + |pat|] == pat {
      ContainsAt(s, pat, p);
    }
  }

  predicate IsDigit(c: char) {
    '0' <= c <= '9'
  }

  predicate AllDigits(s: string) {
    forall i :: 0 <= i < |s| ==> IsDigit(s[i])
  }

  function DigitChar(d: nat): (c: char)
    requires d < 10
    ensures IsDigit(c)
  {
    ('0' as int + d) as char
  }

  /** The value of a string of decimal digits ("" has value 0). */
  function DigitsValue(ds: string): nat
    requires AllDigits(ds)
  {
    if ds == [] then 0
    else DigitsValue(ds[..|ds| - 1]) * 10 + (ds[|ds| - 1] as int - '0' as int)
  }

  function Pow10(k: nat): (p: nat)
    ensures p >= 1
  {
    if k == 0 then 1 else 10 * Pow10(k - 1)
  }

  /** str(n) for n >= 0 */
  function ShowNat(n: nat): (s: string)
    ensures |s| >= 1 && AllDigits(s)
  {
    if n < 10 then [DigitChar(n)] else ShowNat(n / 10) + [DigitChar(n % 10)]
  }

  /** str(n) */
  function ShowInt(n: int): string
  {
    if n < 0 then "-" + ShowNat(-n) else ShowNat(n)
  }

  lemma {:induction false} ShowNatValue(n: nat)
    ensures DigitsValue(ShowNat(n)) == n
  {
    if n >= 10 {
      var s := ShowNat(n);
      assert s[..|s| - 1] == ShowNat(n / 10);
      ShowNatValue(n / 10);
    }
  }

  /** Distinct numbers print differently. */
  lemma ShowNatInjective(a: nat, b: nat)
    requires ShowNat(a) == ShowNat(b)
    ensures a == b
  {
    ShowNatValue(a);
    ShowNatValue(b);
  }

  /** int(s): an optional sign and at least one decimal digit. */
  function ParseInt(s: string): Option<int>
  {
    if |s| > 1 && (s[0] == '-' || s[0] == '+') && AllDigits(s[1..]) then
      Some(if s[0] == '-' then -(DigitsValue(s[1..]) as int) else DigitsValue(s[1..]))
    else if |s| > 0 && AllDigits(s) then Some(DigitsValue(s))
    else None
  }

  /** The value of digits[.digits], with at least one digit on either side of the point. */
  function ParseUnsignedDecimal(s: string): Option<real>
  {
    var parts := Split(s, '.');
    if |parts| == 1 then
      if |s| > 0 && AllDigits(s) then Some(DigitsValue(s) as real) else None
    else if |parts| == 2 && AllDigits(parts[0]) && AllDigits(parts[1]) && |parts[0]| + |parts[1]| > 0 then
      Some(DigitsValue(parts[0]) as real + DigitsValue(parts[1]) as real / Pow10(|parts[1]|) as real)
    else None
  }

  /** float(s) on plain decimal text: an optional sign, then digits with an optional point. */
  function ParseDecimal(s: string): Option<real>
  {
    if |s| > 0 && (s[0] == '-' || s[0] == '+') then
      match ParseUnsignedDecimal(s[1..])
      case Some(v) => Some(if s[0] == '-' then -v else v)
      case None => None
    else ParseUnsignedDecimal(s)
  }

  /** int() reads back what str() prints. */
  lemma ParseIntShowInt(n: int)
    ensures ParseInt(ShowInt(n)) == Some(n)
  {
    var s := ShowInt(n);
    if n < 0 {
      ShowNatValue(-n);
      assert s[0] == '-' && s[1..] == ShowNat(-n);
      assert |s| > 1 && AllDigits(s[1..]);
      assert ParseInt(s) == Some(-(DigitsValue(ShowNat(-n)) as int));
    } else {
      ShowNatValue(n);
      assert s == ShowNat(n);
      assert IsDigit(s[0]) && s[0] != '-' && s[0] != '+';
      assert ParseInt(s) == Some(DigitsValue(s) as int);
    }
  }

  lemma SplitDigitsOnPoint(ds: string)
    requires AllDigits(ds)
    ensures Split(ds, '.') == [ds]
  {
    assert '.' !in ds;
    SplitFieldThenRest(ds, "", '.');
  }

  /** float() reads a printed integer as that integer. */
  lemma ParseDecimalShowInt(n: int)
    ensures ParseDecimal(ShowInt(n)) == Some(n as real)
  {
    if n < 0 {
      var s := ShowInt(n);
      assert s[0] == '-' && s[1..] == ShowNat(-n);
      ParseUnsignedShowNat(-n);
    } else {
      ParseUnsignedShowNat(n);
      assert IsDigit(ShowNat(n)[0]);
    }
  }

  /** The digits str() prints for a natural number read back without a sign. */
  lemma ParseUnsignedShowNat(n: nat)
    ensures ParseUnsignedDecimal(ShowNat(n)) == Some(n as real)
  {
    ShowNatValue(n);
    SplitDigitsOnPoint(ShowNat(n));
  }
}
