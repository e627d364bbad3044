/**
 Python's `int(text)` in base 10, restricted to ASCII text: whitespace
 around the literal is ignored, one optional `+` or `-` sign may come first,
 and the digits may carry leading zeros and single underscores between
 digits. Every other text is a `ValueError`, modelled as `None`. The cap
 on the number of digits that newer Python versions enforce is not part
 of this model.
 */
module PyInt {
  import opened Wrappers
  import opened Text

  function DigitValue(c: char): (d: nat)
    requires IsDigit(c)
    ensures d < 10
  {
    c as int - '0' as int
  }

  function DigitChar(d: nat): (c: char)
    requires d < 10
    ensures IsDigit(c) && DigitValue(c) == d
  {
    ('0' as int + d) as char
  }

  /** The unsigned part of a decimal literal as `int()` accepts it: one or
      more digits, with single underscores allowed between two digits
      (the grammar `digit ("_"? digit)*`, read from the right). */
  predicate IsDigitRun(b: string) {
    && |b| > 0
    && IsDigit(b[|b| - 1])
    && (|b| == 1
        || (if b[|b| - 2] == '_' then |b| > 2 && IsDigitRun(b[..|b| - 2])
            else IsDigitRun(b[..|b| - 1])))
  }

  /** The number a digit run denotes; underscores carry no value. */
  function Magnitude(b: string): nat
    requires IsDigitRun(b)
  {
    var d := DigitValue(b[|b| - 1]);
    if |b| == 1 then d
    else if b[|b| - 2] == '_' then 10 * Magnitude(b[..|b| - 2]) + d
    else 10 * Magnitude(b[..|b| - 1]) + d
  }

  /** The sign-and-digits text left once whitespace is stripped. */
  function ParseStripped(t: string): Option<int>
  {
    if |t| > 0 && (t[0] == '+' || t[0] == '-') then
      var b := t[1..];
      if IsDigitRun(b) then
        var m: int := Magnitude(b);
        Some(if t[0] == '-' then -m else m)
      else None
    else if IsDigitRun(t) then Some(Magnitude(t))
    else None
  }

  /** `int(s)`: `Some(value)` for an accepted literal, `None` where Python
      raises `ValueError`. */
  function ParseInt(s: string): Option<int>
  {
    ParseStripped(Strip(s))
  }

  /** A digit run starts with a digit. */
  lemma {:induction false} DigitRunStartsWithDigit(b: string)
    requires IsDigitRun(b)
    ensures IsDigit(b[0])
  {
    if |b| > 1 {
      if b[|b| - 2] == '_' {
        DigitRunStartsWithDigit(b[..|b| - 2]);
        assert b[..|b| - 2][0] == b[0];
      } else {
        DigitRunStartsWithDigit(b[..|b| - 1]);
        assert b[..|b| - 1][0] == b[0];
      }
    }
  }

  /* ---------------------------------------------------- Python's str(int) */

  /** The canonical decimal digits of `n`: no sign, no leading zero. */
  function NatDigits(n: nat): (r: string)
    ensures |r| > 0
    ensures forall i :: 0 <= i < |r| ==> IsDigit(r[i])
  {
    if n < 10 then [DigitChar(n)] else NatDigits(n / 10) + [DigitChar(n % 10)]
  }

  /** Python `str(v)` for an integer `v`. */
  function Render(v: int): (r: string)
    ensures |r| > 0 && '.' !in r
  {
    if v < 0 then "-" + NatDigits(-v) else NatDigits(v)
  }

  lemma {:induction false} NatDigitsRun(n: nat)
    ensures IsDigitRun(NatDigits(n))
    ensures Magnitude(NatDigits(n)) == n
  {
    if n >= 10 {
      var ds := NatDigits(n);
      assert ds[..|ds| - 1] == NatDigits(n / 10);
      NatDigitsRun(n / 10);
    }
  }

  /** A bare digit run needs no stripping and parses to its magnitude. */
  lemma ParseIntOfRun(b: string)
    requires IsDigitRun(b)
    ensures ParseInt(b) == Some(Magnitude(b) as int)
  {
    DigitRunStartsWithDigit(b);
    StripNoSpaceEnds(b);
  }

  /** A sign in front of a digit run gives the run's value with that sign;
      in particular `int("-0") == 0`. */
  lemma ParseIntSigned(b: string)
    requires IsDigitRun(b)
    ensures ParseInt("-" + b) == Some(-(Magnitude(b) as int))
    ensures ParseInt("+" + b) == Some(Magnitude(b) as int)
  {
    var neg := "-" + b;
    var pos := "+" + b;
    StripNoSpaceEnds(neg);
    StripNoSpaceEnds(pos);
    assert neg[1..] == b;
    assert pos[1..] == b;
  }

  /** `int(str(v)) == v` for every integer `v`. */
  lemma ParseIntRender(v: int)
    ensures ParseInt(Render(v)) == Some(v)
  {
    if v < 0 {
      NatDigitsRun(-v);
      ParseIntSigned(NatDigits(-v));
    } else {
      NatDigitsRun(v);
      ParseIntOfRun(NatDigits(v));
    }
  }

  /** Whitespace around a literal never changes what `int()` returns. */
  lemma ParseIntPadded(pre: string, s: string, post: string)
    requires AllSpace(pre) && AllSpace(post)
    ensures ParseInt(pre + s + post) == ParseInt(s)
  {
    StripPadded(pre, s, post);
  }

  /** The empty string, and any string of whitespace only, is rejected. */
  lemma ParseIntBlank(s: string)
    requires AllSpace(s)
    ensures ParseInt(s) == None
  {
    StripLeftAllSpace(s);
  }

  lemma {:induction false} MagnitudeLeadingZero(b: string)
    requires IsDigitRun(b)
    ensures IsDigitRun("0" + b)
    ensures Magnitude("0" + b) == Magnitude(b)
  {
    var z := "0" + b;
    assert z[|z| - 1] == b[|b| - 1];
    if |b| == 1 {
      assert z[..1] == "0";
    } else if b[|b| - 2] == '_' {
      var b' := b[..|b| - 2];
      assert z[|z| - 2] == '_';
      assert z[..|z| - 2] == "0" + b';
      MagnitudeLeadingZero(b');
    } else {
      var b' := b[..|b| - 1];
      assert z[|z| - 2] == b[|b| - 2];
      assert z[..|z| - 1] == "0" + b';
      MagnitudeLeadingZero(b');
    }
  }

  /** A leading zero in front of a digit run is accepted and changes nothing. */
  lemma ParseIntLeadingZero(b: string)
    requires IsDigitRun(b)
    ensures ParseInt("0" + b) == ParseInt(b)
  {
    MagnitudeLeadingZero(b);
    ParseIntOfRun("0" + b);
    ParseIntOfRun(b);
  }

  lemma {:induction false} MagnitudeUnderscore(a: string, b: string)
    requires IsDigitRun(a) && IsDigitRun(b)
    ensures IsDigitRun(a + "_" + b) && IsDigitRun(a + b)
    ensures Magnitude(a + "_" + b) == Magnitude(a + b)
  {
    var u := a + "_" + b;
    var v := a + b;
    assert u[|u| - 1] == b[|b| - 1] == v[|v| - 1];
    if |b| == 1 {
      assert u[|u| - 2] == '_' && u[..|u| - 2] == a;
      assert v[|v| - 2] == a[|a| - 1] && v[..|v| - 1] == a;
    } else if b[|b| - 2] == '_' {
      var b' := b[..|b| - 2];
      assert u[|u| - 2] == '_' && u[..|u| - 2] == a + "_" + b';
      assert v[|v| - 2] == '_' && v[..|v| - 2] == a + b';
      MagnitudeUnderscore(a, b');
    } else {
      var b' := b[..|b| - 1];
      assert u[|u| - 2] == b[|b| - 2] && u[..|u| - 1] == a + "_" + b';
      assert v[|v| - 2] == b[|b| - 2] && v[..|v| - 1] == a + b';
      MagnitudeUnderscore(a, b');
    }
  }

  /** An underscore between two digit runs is accepted and ignored. */
  lemma ParseIntUnderscore(a: string, b: string)
    requires IsDigitRun(a) && IsDigitRun(b)
    ensures ParseInt(a + "_" + b) == ParseInt(a + b)
  {
    MagnitudeUnderscore(a, b);
    ParseIntOfRun(a + "_" + b);
    ParseIntOfRun(a + b);
  }
}
