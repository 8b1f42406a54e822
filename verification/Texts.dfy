/** Python strings, and how `json.dumps` escapes them into ASCII and `json.loads` reads them back. */
module Texts {
  import opened Wrappers

  /** A Python string is a sequence of code points, lone surrogates included. */
  type Code = c: int | 0 <= c < 0x11_0000
  type Text = seq<Code>

  predicate High(c: Code) { 0xD800 <= c < 0xDC00 }

  predicate Low(c: Code) { 0xDC00 <= c < 0xE000 }

  function Join(high: Code, low: Code): Code
    requires High(high) && Low(low)
  {
    0x1_0000 + (high - 0xD800) * 0x400 + (low - 0xDC00)
  }

  function Hex(d: nat): (c: char)
    requires d < 16
  {
    if d < 10 then ('0' as int + d) as char else ('a' as int + d - 10) as char
  }

  function UnHex(c: char): (d: Option<nat>)
    ensures d.Some? ==> d.value < 16
  {
    if '0' <= c <= '9' then Some(c as int - '0' as int)
    else if 'a' <= c <= 'f' then Some(c as int - 'a' as int + 10)
    else if 'A' <= c <= 'F' then Some(c as int - 'A' as int + 10)
    else None
  }

  function Unicode(c: nat): (s: string)
    requires c < 0x1_0000
    ensures |s| == 6
  {
    ['\\', 'u', Hex(c / 16 / 16 / 16), Hex(c / 16 / 16 % 16), Hex(c / 16 % 16), Hex(c % 16)]
  }

  /** One code point, as the default `ensure_ascii=True` writes it. */
  function EscapeOne(c: Code): (s: string)
    ensures |s| > 0
  {
    if c == '\"' as int then "\\\""
    else if c == '\\' as int then "\\\\"
    else if c == '\n' as int then "\\n"
    else if c == '\r' as int then "\\r"
    else if c == '\t' as int then "\\t"
    else if c == 8 then "\\b"
    else if c == 12 then "\\f"
    else if 0x20 <= c <= 0x7E then [c as char]
    else if c < 0x1_0000 then Unicode(c)
    else Unicode(0xD800 + (c - 0x1_0000) / 0x400) + Unicode(0xDC00 + (c - 0x1_0000) % 0x400)
  }

  function Escape(t: Text): string {
    if t == [] then "" else EscapeOne(t[0]) + Escape(t[1..])
  }

  function Hex4(s: string): (n: Option<nat>)
    ensures n.Some? ==> |s| >= 4 && n.value < 0x1_0000
  {
    if |s| < 4 then None
    else
      var a :- UnHex(s[0]);
      var b :- UnHex(s[1]);
      var c :- UnHex(s[2]);
      var d :- UnHex(s[3]);
      Some(a * 0x1000 + b * 0x100 + c * 16 + d)
  }

  function SimpleEscape(c: char): Option<Code> {
    match c
    case '\"' => Some('\"' as int)
    case '\\' => Some('\\' as int)
    case '/' => Some('/' as int)
    case 'n' => Some('\n' as int)
    case 'r' => Some('\r' as int)
    case 't' => Some('\t' as int)
    case 'b' => Some(8)
    case 'f' => Some(12)
    case _ => None
  }

  /** The code point a `\u` escape at the front of `s` denotes, joining a surrogate pair of escapes. */
  function ScanUnicode(s: string): (r: Option<(Code, string)>)
    requires |s| >= 2
    ensures r.Some? ==> |r.value.1| < |s|
  {
    var first :- Hex4(s[2..]);
    if High(first) && |s| >= 8 && s[6] == '\\' && s[7] == 'u' then
      var second :- Hex4(s[8..]);
      if Low(second) then Some((Join(first, second), s[12..])) else Some((first, s[6..]))
    else Some((first, s[6..]))
  }

  /** The text up to the closing quote, and what follows it. */
  function Scan(s: string): (r: Option<(Text, string)>)
    ensures r.Some? ==> |r.value.1| < |s|
    decreases |s|
  {
    if s == [] then None
    else if s[0] == '\"' then Some(([], s[1..]))
    else if s[0] == '\\' then
      if |s| < 2 then None
      else if s[1] == 'u' then
        var (c, rest) :- ScanUnicode(s);
        var (t, after) :- Scan(rest);
        Some(([c] + t, after))
      else
        var c :- SimpleEscape(s[1]);
        var (t, after) :- Scan(s[2..]);
        Some(([c] + t, after))
    else if s[0] < ' ' then None
    else
      var (t, after) :- Scan(s[1..]);
      Some(([s[0] as int] + t, after))
  }

  /** A text with each lone high surrogate joined to the lone low surrogate right after it. */
  function Merge(t: Text): (m: Text)
    ensures |m| <= |t|
  {
    if t == [] then []
    else if |t| >= 2 && High(t[0]) && Low(t[1]) then [Join(t[0], t[1])] + Merge(t[2..])
    else [t[0]] + Merge(t[1..])
  }

  predicate NoSplitPair(t: Text) {
    forall i :: 0 <= i < |t| - 1 ==> !(High(t[i]) && Low(t[i + 1]))
  }

  lemma {:induction false} MergeKeepsExactly(t: Text)
    ensures Merge(t) == t <==> NoSplitPair(t)
  {
    if t == [] {
    } else if |t| >= 2 && High(t[0]) && Low(t[1]) {
      assert |Merge(t)| < |t|;
    } else {
      MergeKeepsExactly(t[1..]);
      assert t == [t[0]] + t[1..];
      assert Merge(t)[1..] == Merge(t[1..]);
      if NoSplitPair(t) {
        forall i | 0 <= i < |t[1..]| - 1 ensures !(High(t[1..][i]) && Low(t[1..][i + 1])) {
          assert t[1..][i] == t[i + 1] && t[1..][i + 1] == t[i + 2];
        }
      }
      if NoSplitPair(t[1..]) {
        forall i | 0 <= i < |t| - 1 ensures !(High(t[i]) && Low(t[i + 1])) {
          if i > 0 { assert t[1..][i - 1] == t[i] && t[1..][i] == t[i + 1]; }
        }
      }
    }
  }

  /** What was merged holds no split pair. */
  lemma {:induction false} MergeLeavesNoPair(t: Text)
    ensures NoSplitPair(Merge(t))
    ensures Merge(t) != [] && Low(Merge(t)[0]) ==> Low(t[0])
    ensures Merge(t) == [] <==> t == []
  {
    if t == [] {
    } else if |t| >= 2 && High(t[0]) && Low(t[1]) {
      MergeLeavesNoPair(t[2..]);
      NoPairCons(Join(t[0], t[1]), Merge(t[2..]));
    } else {
      MergeLeavesNoPair(t[1..]);
      NoPairCons(t[0], Merge(t[1..]));
    }
  }

  lemma NoPairCons(c: Code, t: Text)
    requires NoSplitPair(t) && (t != [] ==> !(High(c) && Low(t[0])))
    ensures NoSplitPair([c] + t)
  {
  }

  lemma UnHexOfHex(d: nat)
    requires d < 16
    ensures UnHex(Hex(d)) == Some(d)
  {
  }

  lemma Hex4OfUnicode(c: nat, rest: string)
    requires c < 0x1_0000
    ensures Hex4((Unicode(c) + rest)[2..]) == Some(c)
    ensures (Unicode(c) + rest)[6..] == rest
  {
    var q1, q2 := c / 16, c / 16 / 16;
    var s := (Unicode(c) + rest)[2..];
    assert s[0] == Hex(q2 / 16) && s[1] == Hex(q2 % 16) && s[2] == Hex(q1 % 16) && s[3] == Hex(c % 16);
    UnHexOfHex(q2 / 16);
    UnHexOfHex(q2 % 16);
    UnHexOfHex(q1 % 16);
    UnHexOfHex(c % 16);
    assert c == q2 / 16 * 0x1000 + q2 % 16 * 0x100 + q1 % 16 * 16 + c % 16;
  }

  /** A `\u` escape that does not open a pair is read back as it was written. */
  lemma ScanLoneUnicode(c: nat, rest: string)
    requires c < 0x1_0000
    requires High(c) && |rest| >= 2 && rest[0] == '\\' && rest[1] == 'u' ==>
               Hex4(rest[2..]).Some? && !Low(Hex4(rest[2..]).value)
    ensures ScanUnicode(Unicode(c) + rest) == Some((c, rest))
  {
    Hex4OfUnicode(c, rest);
    var s := Unicode(c) + rest;
    if |rest| >= 2 {
      assert s[6] == rest[0] && s[7] == rest[1] && s[8..] == rest[2..];
    }
  }

  lemma ScanPair(high: Code, low: Code, rest: string)
    requires High(high) && Low(low)
    ensures ScanUnicode(Unicode(high) + (Unicode(low) + rest)) == Some((Join(high, low), rest))
  {
    Hex4OfUnicode(high, Unicode(low) + rest);
    Hex4OfUnicode(low, rest);
    var s := Unicode(high) + (Unicode(low) + rest);
    assert s[8..] == (Unicode(low) + rest)[2..] && s[12..] == rest;
  }

  /** The first `\u` escape of a code point is a low surrogate only for a lone low surrogate. */
  lemma FirstEscape(c: Code, tail: string)
    ensures var s := EscapeOne(c) + tail;
            |s| >= 2 && s[0] == '\\' && s[1] == 'u' ==>
              Hex4(s[2..]).Some? && (Low(Hex4(s[2..]).value) ==> Low(c))
  {
    if c >= 0x1_0000 {
      var high, low := 0xD800 + (c - 0x1_0000) / 0x400, 0xDC00 + (c - 0x1_0000) % 0x400;
      assert EscapeOne(c) + tail == Unicode(high) + (Unicode(low) + tail);
      Hex4OfUnicode(high, Unicode(low) + tail);
    } else if EscapeOne(c) == Unicode(c) {
      Hex4OfUnicode(c, tail);
    }
  }

  lemma EscapeStep(t: Text, rest: string)
    requires t != []
    ensures Escape(t) + ("\"" + rest) == EscapeOne(t[0]) + (Escape(t[1..]) + ("\"" + rest))
  {
  }

  /** What is read back is the text with its split surrogate pairs joined, whatever it contains. */
  lemma {:induction false} ScanOfEscape(t: Text, rest: string)
    ensures Scan(Escape(t) + ("\"" + rest)) == Some((Merge(t), rest))
    decreases |t|
  {
    var s := Escape(t) + ("\"" + rest);
    if t == [] {
      assert s == "\"" + rest;
    } else {
      var tail := Escape(t[1..]) + ("\"" + rest);
      EscapeStep(t, rest);
      if |t| >= 2 && High(t[0]) && Low(t[1]) {
        ScanOfEscape(t[2..], rest);
        EscapeStep(t[1..], rest);
        assert t[1..][1..] == t[2..];
        ScanJoins(t[0], t[1], Escape(t[2..]) + ("\"" + rest));
      } else {
        ScanOfEscape(t[1..], rest);
        if t[1..] != [] {
          EscapeStep(t[1..], rest);
          FirstEscape(t[1], Escape(t[1..][1..]) + ("\"" + rest));
        }
        ScanOne(t[0], tail);
      }
    }
  }

  lemma ScanFollows(s: string, c: Code, tail: string)
    requires |s| >= 2 && s[0] == '\\' && s[1] == 'u' && ScanUnicode(s) == Some((c, tail)) && Scan(tail).Some?
    ensures Scan(s) == Some(([c] + Scan(tail).value.0, Scan(tail).value.1))
  {
  }

  lemma ScanJoins(high: Code, low: Code, tail: string)
    requires High(high) && Low(low) && Scan(tail).Some?
    ensures Scan(EscapeOne(high) + (EscapeOne(low) + tail)) ==
              Some(([Join(high, low)] + Scan(tail).value.0, Scan(tail).value.1))
  {
    ScanPair(high, low, tail);
    ScanFollows(Unicode(high) + (Unicode(low) + tail), Join(high, low), tail);
  }

  lemma ScanAstral(c: Code, tail: string)
    requires c >= 0x1_0000 && Scan(tail).Some?
    ensures Scan(EscapeOne(c) + tail) == Some(([c] + Scan(tail).value.0, Scan(tail).value.1))
  {
    var high, low := 0xD800 + (c - 0x1_0000) / 0x400, 0xDC00 + (c - 0x1_0000) % 0x400;
    assert EscapeOne(c) + tail == Unicode(high) + (Unicode(low) + tail);
    assert Join(high, low) == c;
    ScanPair(high, low, tail);
    ScanFollows(Unicode(high) + (Unicode(low) + tail), c, tail);
  }

  /** One code point is scanned back as itself, unless it is a high surrogate before a low one. */
  lemma ScanOne(c: Code, tail: string)
    requires Scan(tail).Some?
    requires High(c) && |tail| >= 2 && tail[0] == '\\' && tail[1] == 'u' ==>
               Hex4(tail[2..]).Some? && !Low(Hex4(tail[2..]).value)
    ensures Scan(EscapeOne(c) + tail) == Some(([c] + Scan(tail).value.0, Scan(tail).value.1))
  {
    if c >= 0x1_0000 {
      ScanAstral(c, tail);
    } else if EscapeOne(c) == Unicode(c) {
      ScanLoneUnicode(c, tail);
      ScanFollows(Unicode(c) + tail, c, tail);
    } else {
      ScanShort(c, tail);
    }
  }

  lemma ScanShort(c: Code, tail: string)
    requires c < 0x1_0000 && EscapeOne(c) != Unicode(c) && Scan(tail).Some?
    ensures Scan(EscapeOne(c) + tail) == Some(([c] + Scan(tail).value.0, Scan(tail).value.1))
  {
    if |EscapeOne(c)| == 2 {
      ScanEscaped(EscapeOne(c)[1], c, tail);
      assert EscapeOne(c) == ['\\', EscapeOne(c)[1]];
    } else {
      ScanPlain(EscapeOne(c)[0], tail);
    }
  }

  lemma ScanEscaped(x: char, c: Code, tail: string)
    requires x != 'u' && SimpleEscape(x) == Some(c) && Scan(tail).Some?
    ensures Scan(['\\', x] + tail) == Some(([c] + Scan(tail).value.0, Scan(tail).value.1))
  {
    assert (['\\', x] + tail)[2..] == tail;
  }

  lemma ScanPlain(x: char, tail: string)
    requires x >= ' ' && x != '\"' && x != '\\' && Scan(tail).Some?
    ensures Scan([x] + tail) == Some(([x as int] + Scan(tail).value.0, Scan(tail).value.1))
  {
    assert ([x] + tail)[1..] == tail;
  }

  /** A string survives a dump and a load exactly when no lone high surrogate precedes a lone low one. */
  lemma EscapeRoundTripsExactly(t: Text)
    ensures Scan(Escape(t) + "\"") == Some((t, "")) <==> NoSplitPair(t)
  {
    ScanOfEscape(t, "");
    assert "\"" + "" == "\"";
    MergeKeepsExactly(t);
  }

  ghost predicate Printable(s: string) {
    forall i :: 0 <= i < |s| ==> ' ' <= s[i] <= '~'
  }

  lemma EscapeOneIsPrintable(c: Code)
    ensures Printable(EscapeOne(c))
  {
  }

  /** Escaped text is printable ASCII: in particular it holds no line break. */
  lemma {:induction false} EscapeIsPrintable(t: Text)
    ensures Printable(Escape(t))
  {
    if t != [] {
      EscapeIsPrintable(t[1..]);
      EscapeOneIsPrintable(t[0]);
      PrintableConcat(EscapeOne(t[0]), Escape(t[1..]));
    }
  }

  lemma PrintableConcat(a: string, b: string)
    requires Printable(a) && Printable(b)
    ensures Printable(a + b)
  {
  }

  /** The text of an ASCII literal. */
  function Ascii(s: string): (t: Text)
    ensures |t| == |s|
  {
    seq(|s|, i requires 0 <= i < |s| => s[i] as int)
  }
}
