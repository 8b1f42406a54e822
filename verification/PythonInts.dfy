/** The integers `int` reads from a string. */
module PythonInts {
  import opened Wrappers
  import opened Decimal
  import opened Whitespace

  predicate Numeral(s: string) {
    forall i :: 0 <= i < |s| ==> IsDigit(s[i]) || s[i] == '_'
  }

  /** Digits, with single underscores between digits. */
  predicate Grouped(s: string) {
    && s != "" && Numeral(s)
    && s[0] != '_' && s[|s| - 1] != '_'
    && forall i :: 0 < i < |s| && s[i] == '_' ==> s[i - 1] != '_'
  }

  function Ungroup(s: string): (r: string)
    requires Numeral(s)
    ensures AllDigits(r)
  {
    if s == "" then "" else if s[0] == '_' then Ungroup(s[1..]) else [s[0]] + Ungroup(s[1..])
  }

  function Magnitude(s: string): Option<int> {
    if Grouped(s) then Some(Value(Ungroup(s))) else None
  }

  /** White space around, an optional sign, grouped digits; None is the ValueError. */
  function ParseInt(text: string): Option<int> {
    var s := Strip(text);
    if s == "" then None
    else if s[0] == '-' then
      var n :- Magnitude(s[1..]);
      Some(-n)
    else
      var n :- Magnitude(if s[0] == '+' then s[1..] else s);
      Some(n)
  }

  predicate Blank(s: string) {
    forall i :: 0 <= i < |s| ==> Strippable(s[i])
  }

  lemma {:induction false} StripLeftOfBlank(blank: string, s: string)
    requires Blank(blank) && s != "" && !Strippable(s[0])
    ensures StripLeft(blank + s) == s
  {
    if blank == "" {
      assert blank + s == s;
    } else {
      assert (blank + s)[1..] == blank[1..] + s;
      StripLeftOfBlank(blank[1..], s);
    }
  }

  lemma {:induction false} StripRightOfBlank(s: string, blank: string)
    requires Blank(blank) && s != "" && !Strippable(s[|s| - 1])
    ensures StripRight(s + blank) == s
  {
    if blank == "" {
      assert s + blank == s;
    } else {
      var n := |blank| - 1;
      assert (s + blank)[..|s + blank| - 1] == s + blank[..n];
      StripRightOfBlank(s, blank[..n]);
    }
  }

  lemma {:induction false} UngroupOfDigits(s: string)
    requires AllDigits(s)
    ensures Ungroup(s) == s
  {
    if s == "" {
    } else {
      UngroupOfDigits(s[1..]);
    }
  }

  lemma MagnitudeOfNatural(n: nat)
    ensures Magnitude(Natural(n)) == Some(n)
  {
    UngroupOfDigits(Natural(n));
    ValueOfNatural(n);
  }

  /** A printed integer is read back, whatever white space surrounds it. */
  lemma ParseOfPrint(before: string, n: int, after: string)
    requires Blank(before) && Blank(after)
    ensures ParseInt(before + Print(n) + after) == Some(n)
  {
    var s := Print(n);
    var last := s[|s| - 1];
    assert s[0] == '-' || IsDigit(s[0]);
    assert IsDigit(last) by {
      if n < 0 {
        assert s == "-" + Natural(-n) && last == Natural(-n)[|Natural(-n)| - 1];
      }
    }
    StripLeftOfBlank(before, s + after);
    assert before + s + after == before + (s + after);
    StripRightOfBlank(s, after);
    MagnitudeOfNatural(if n < 0 then -n else n);
    if n < 0 {
      assert s[1..] == Natural(-n);
    }
  }

  lemma {:induction false} UngroupOfConcat(s: string, t: string)
    requires Numeral(s) && Numeral(t)
    ensures Numeral(s + t) && Ungroup(s + t) == Ungroup(s) + Ungroup(t)
  {
    if s == "" {
      assert s + t == t;
    } else {
      assert (s + t)[1..] == s[1..] + t;
      UngroupOfConcat(s[1..], t);
    }
  }

  /** Without sign and white space the whole string is the magnitude. */
  lemma ParseOfNumeral(s: string)
    requires s != "" && Numeral(s)
    ensures ParseInt(s) == Magnitude(s)
  {
    var first, last := s[0], s[|s| - 1];
    assert !Strippable(first) && !Strippable(last);
  }

  lemma MagnitudeOfDigits(a: string)
    requires AllDigits(a) && a != ""
    ensures Magnitude(a) == Some(Value(a))
  {
    UngroupOfDigits(a);
  }

  lemma MagnitudeOfTwoGroups(a: string, b: string)
    requires AllDigits(a) && AllDigits(b) && a != "" && b != ""
    ensures Numeral(a + "_" + b) && Magnitude(a + "_" + b) == Some(Value(a + b))
  {
    TwoGroups(a, b, a + "_" + b);
    UngroupTwo(a, b, "_");
  }

  lemma TwoGroups(a: string, b: string, s: string)
    requires AllDigits(a) && AllDigits(b) && a != "" && b != "" && s == a + "_" + b
    ensures Grouped(s)
  {
    assert s[0] == a[0] && s[|s| - 1] == b[|b| - 1];
    forall i | 0 < i < |s| && s[i] == '_' ensures s[i - 1] != '_' {
      if i == |a| { assert s[i - 1] == a[i - 1]; }
    }
  }

  lemma UngroupTwo(a: string, b: string, bar: string)
    requires AllDigits(a) && AllDigits(b) && bar == "_"
    ensures Numeral(a + bar + b) && Ungroup(a + bar + b) == a + b
  {
    UngroupOfDigits(a);
    UngroupOfDigits(b);
    UngroupOfConcat(a, bar);
    UngroupOfConcat(a + bar, b);
    assert Ungroup(bar) == Ungroup(bar[1..]) && bar[1..] == "" && a + "" == a;
  }

  lemma NoUnderscoreElsewhere(a: string, b: string)
    requires AllDigits(a) && AllDigits(b) && a != "" && b != ""
    ensures Magnitude("_" + a) == None && Magnitude(a + "_") == None && Magnitude(a + "__" + b) == None
  {
    var double := a + "__" + b;
    assert double[|a|] == '_' && double[|a| + 1] == '_';
  }

  /** One underscore may stand between digits, and nowhere else. */
  lemma OneUnderscoreBetweenDigits(a: string, b: string)
    requires AllDigits(a) && AllDigits(b) && a != "" && b != ""
    ensures ParseInt(a + "_" + b) == Some(Value(a + b))
    ensures ParseInt("_" + a) == None && ParseInt(a + "_") == None && ParseInt(a + "__" + b) == None
  {
    MagnitudeOfTwoGroups(a, b);
    NoUnderscoreElsewhere(a, b);
    ParseOfNumeral(a + "_" + b);
    ParseOfNumeral("_" + a);
    ParseOfNumeral(a + "_");
    ParseOfNumeral(a + "__" + b);
  }

  lemma ParseOfSigned(sign: char, a: string)
    requires (sign == '+' || sign == '-') && AllDigits(a)
    ensures ParseInt([sign] + a) == match Magnitude(a)
                                    case None => None
                                    case Some(n) => Some(if sign == '-' then -n else n)
  {
    var s := [sign] + a;
    assert s[1..] == a && !Strippable(s[0]) && !Strippable(s[|s| - 1]);
  }

  lemma PlainDigits(a: string, n: int)
    requires AllDigits(a) && a != "" && n == Value(a)
    ensures ParseInt(a) == Some(n)
  {
    MagnitudeOfDigits(a);
    ParseOfNumeral(a);
  }

  /** A sign may stand in front of digits. */
  lemma SignedDigits(sign: char, a: string, n: int)
    requires (sign == '+' || sign == '-') && AllDigits(a) && a != "" && n == Value(a)
    ensures ParseInt([sign] + a) == Some(if sign == '-' then -n else n)
  {
    MagnitudeOfDigits(a);
    ParseOfSigned(sign, a);
  }

  /** Nothing and a sign alone are no numbers. */
  lemma NoDigitsNoNumber(none: string)
    requires none == ""
    ensures ParseInt(none) == None && ParseInt(['+'] + none) == None && ParseInt(['-'] + none) == None
  {
    ParseOfSigned('+', none);
    ParseOfSigned('-', none);
  }
}
