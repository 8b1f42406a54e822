/** JSON values as `json.dumps` writes them and `json.loads` reads them (RFC 8259, numbers limited to integers). */
module Json {
  import opened Wrappers
  import opened Texts
  import opened Decimal

  /** Object members in dictionary order. */
  datatype Json =
    | JNull
    | JBool(b: bool)
    | JInt(n: int)
    | JStr(t: Text)
    | JArr(items: seq<Json>)
    | JObj(members: seq<Member>)

  datatype Member = Member(key: Text, value: Json)

  function Quote(t: Text): string {
    "\"" + (Escape(t) + "\"")
  }

  function Dumps(j: Json): (s: string)
    decreases j
  {
    match j
    case JNull => "null"
    case JBool(b) => if b then "true" else "false"
    case JInt(n) => Decimal.Print(n)
    case JStr(t) => Quote(t)
    case JArr(items) => "[" + (DumpItems(items) + "]")
    case JObj(members) => "{" + (DumpMembers(members) + "}")
  }

  function DumpItems(items: seq<Json>): string
    decreases items
  {
    if items == [] then ""
    else if |items| == 1 then Dumps(items[0])
    else Dumps(items[0]) + (", " + DumpItems(items[1..]))
  }

  function DumpMembers(members: seq<Member>): string
    decreases members
  {
    if members == [] then ""
    else
      var one := Quote(members[0].key) + (": " + Dumps(members[0].value));
      if |members| == 1 then one else one + (", " + DumpMembers(members[1..]))
  }

  predicate IsSpace(c: char) {
    c == ' ' || c == '\t' || c == '\n' || c == '\r'
  }

  function Skip(s: string): (r: string)
    ensures |r| <= |s|
    ensures r != [] ==> !IsSpace(r[0])
  {
    if s != [] && IsSpace(s[0]) then Skip(s[1..]) else s
  }

  function LoadMagnitude(s: string, negative: bool): (r: Option<(Json, string)>)
    ensures r.Some? ==> |r.value.1| < |s|
  {
    var (digits, rest) := TakeDigits(s);
    assert |digits| + |rest| == |s|;
    if digits == [] then None
    else if digits[0] == '0' && |digits| > 1 then Some((JInt(0), digits[1..] + rest))
    else if rest != [] && (rest[0] == '.' || rest[0] == 'e' || rest[0] == 'E') then None
    else
      var magnitude: int := Value(digits);
      Some((JInt(if negative then -magnitude else magnitude), rest))
  }

  function LoadInt(s: string): (r: Option<(Json, string)>)
    requires s != []
    ensures r.Some? ==> |r.value.1| < |s|
  {
    if s[0] == '-' then LoadMagnitude(s[1..], true) else LoadMagnitude(s, false)
  }

  /** One value at the front of `s`, and what follows it. */
  function Load(s: string): (r: Option<(Json, string)>)
    ensures r.Some? ==> |r.value.1| < |s|
    decreases |s|, 0
  {
    if s == [] then None
    else if s[0] == '\"' then
      var (t, rest) :- Scan(s[1..]);
      Some((JStr(t), rest))
    else if s[0] == '[' then
      var inner := Skip(s[1..]);
      if inner != [] && inner[0] == ']' then Some((JArr([]), inner[1..]))
      else
        var (items, rest) :- LoadItems(inner);
        Some((JArr(items), rest))
    else if s[0] == '{' then
      var inner := Skip(s[1..]);
      if inner != [] && inner[0] == '}' then Some((JObj([]), inner[1..]))
      else
        var (members, rest) :- LoadMembers(inner);
        Some((JObj(DictOf(members)), rest))
    else if "null" <= s then Some((JNull, s[4..]))
    else if "true" <= s then Some((JBool(true), s[4..]))
    else if "false" <= s then Some((JBool(false), s[5..]))
    else LoadInt(s)
  }

  function LoadItems(s: string): (r: Option<(seq<Json>, string)>)
    ensures r.Some? ==> |r.value.1| < |s|
    decreases |s|, 1
  {
    var (item, after) :- Load(s);
    var rest := Skip(after);
    if rest == [] then None
    else if rest[0] == ']' then Some(([item], rest[1..]))
    else if rest[0] == ',' then
      var (items, end) :- LoadItems(Skip(rest[1..]));
      Some(([item] + items, end))
    else None
  }

  function LoadMembers(s: string): (r: Option<(seq<Member>, string)>)
    ensures r.Some? ==> |r.value.1| < |s|
    decreases |s|, 1
  {
    if s == [] || s[0] != '\"' then None
    else
      var (key, s1) :- Scan(s[1..]);
      var s2 := Skip(s1);
      if s2 == [] || s2[0] != ':' then None
      else
        var (value, after) :- Load(Skip(s2[1..]));
        var rest := Skip(after);
        if rest == [] then None
        else if rest[0] == '}' then Some(([Member(key, value)], rest[1..]))
        else if rest[0] == ',' then
          var (members, end) :- LoadMembers(Skip(rest[1..]));
          Some(([Member(key, value)] + members, end))
        else None
  }

  /** `json.loads`; None is its ValueError. */
  function Loads(s: string): Option<Json> {
    var (j, rest) :- Load(Skip(s));
    if Skip(rest) == [] then Some(j) else None
  }

  /** Assignment `d[key] = value` on a dictionary in insertion order. */
  function Put(d: seq<Member>, key: Text, value: Json): (r: seq<Member>)
    ensures |d| <= |r| <= |d| + 1
  {
    if d == [] then [Member(key, value)]
    else if d[0].key == key then [Member(key, value)] + d[1..]
    else [d[0]] + Put(d[1..], key, value)
  }

  /** The dictionary built from pairs in order: the last value of a key wins. */
  function DictOf(pairs: seq<Member>): (d: seq<Member>)
    ensures |d| <= |pairs|
  {
    if pairs == [] then []
    else Put(DictOf(pairs[..|pairs| - 1]), pairs[|pairs| - 1].key, pairs[|pairs| - 1].value)
  }

  ghost predicate DistinctKeys(d: seq<Member>) {
    forall i, j :: 0 <= i < j < |d| ==> d[i].key != d[j].key
  }

  lemma {:induction false} PutNew(d: seq<Member>, key: Text, value: Json)
    requires forall i :: 0 <= i < |d| ==> d[i].key != key
    ensures Put(d, key, value) == d + [Member(key, value)]
  {
    if d != [] {
      PutNew(d[1..], key, value);
    }
  }

  lemma {:induction false} DictOfDistinct(d: seq<Member>)
    requires DistinctKeys(d)
    ensures DictOf(d) == d
  {
    if d != [] {
      var last := d[|d| - 1];
      DictOfDistinct(d[..|d| - 1]);
      PutNew(d[..|d| - 1], last.key, last.value);
      assert d == d[..|d| - 1] + [last];
    }
  }

  lemma {:induction false} PutGrows(d: seq<Member>, key: Text, value: Json)
    ensures |Put(d, key, value)| == |d| + 1 ==> Put(d, key, value) == d + [Member(key, value)]
  {
    if d != [] {
      PutGrows(d[1..], key, value);
    }
  }

  /** A dictionary as long as the pairs it was built from is those pairs. */
  lemma {:induction false} DictOfSameLength(pairs: seq<Member>)
    ensures |DictOf(pairs)| == |pairs| ==> DictOf(pairs) == pairs
  {
    if pairs != [] {
      var last := pairs[|pairs| - 1];
      DictOfSameLength(pairs[..|pairs| - 1]);
      PutGrows(DictOf(pairs[..|pairs| - 1]), last.key, last.value);
      assert pairs == pairs[..|pairs| - 1] + [last];
    }
  }

  /** A value as it is read back: split surrogate pairs joined, and keys that thereby coincide merged. */
  function ReadBack(j: Json): Json
    decreases j
  {
    match j
    case JStr(t) => JStr(Merge(t))
    case JArr(items) => JArr(ReadBackItems(items))
    case JObj(members) => JObj(DictOf(ReadBackMembers(members)))
    case _ => j
  }

  function ReadBackItems(items: seq<Json>): (r: seq<Json>)
    ensures |r| == |items|
    decreases items
  {
    if items == [] then [] else [ReadBack(items[0])] + ReadBackItems(items[1..])
  }

  function ReadBackMembers(members: seq<Member>): (r: seq<Member>)
    ensures |r| == |members|
    decreases members
  {
    if members == [] then []
    else [Member(Merge(members[0].key), ReadBack(members[0].value))] + ReadBackMembers(members[1..])
  }

  /** The text after a value cannot continue a number. */
  ghost predicate Stops(rest: string) {
    rest == [] || rest[0] == ',' || rest[0] == ']' || rest[0] == '}'
  }

  lemma LoadMagnitudeOfNatural(m: nat, negative: bool, rest: string)
    requires Stops(rest)
    ensures LoadMagnitude(Natural(m) + rest, negative) == Some((JInt(if negative then -(m as int) else m), rest))
  {
    TakeDigitsSplits(Natural(m), rest);
    ValueOfNatural(m);
    NoLeadingZero(m);
  }

  lemma PrintStarts(n: int, rest: string)
    ensures var s := Decimal.Print(n) + rest;
            && s != []
            && (n < 0 ==> s[0] == '-' && s[1..] == Natural(-n) + rest)
            && (n >= 0 ==> IsDigit(s[0]) && s == Natural(n) + rest)
  {
  }

  lemma LoadIntOfPrint(n: int, rest: string)
    requires Stops(rest)
    ensures LoadInt(Decimal.Print(n) + rest) == Some((JInt(n), rest))
  {
    PrintStarts(n, rest);
    var m: nat := if n < 0 then -n else n;
    LoadMagnitudeOfNatural(m, n < 0, rest);
  }

  lemma LoadOfInt(n: int, rest: string)
    requires Stops(rest)
    ensures Load(Decimal.Print(n) + rest) == Some((JInt(n), rest))
  {
    LoadIntOfPrint(n, rest);
    var s := Decimal.Print(n) + rest;
    assert s[0] == '-' || IsDigit(s[0]);
    assert "null"[0] == 'n' && "true"[0] == 't' && "false"[0] == 'f';
  }

  lemma {:induction false} NoLeadingZero(n: nat)
    ensures Natural(n)[0] == '0' ==> |Natural(n)| == 1
  {
    if n >= 10 { NoLeadingZero(n / 10); LeadingDigit(n / 10); }
  }

  lemma {:induction false} LeadingDigit(n: nat)
    requires n > 0
    ensures Natural(n)[0] != '0'
  {
    if n >= 10 { LeadingDigit(n / 10); }
  }

  lemma LoadOfString(t: Text, rest: string)
    ensures Load(Quote(t) + rest) == Some((JStr(Merge(t)), rest))
  {
    var body := Escape(t) + ("\"" + rest);
    ScanOfEscape(t, rest);
    LoadQuoted(body, Merge(t), rest);
    assert Quote(t) + rest == "\"" + body;
  }

  lemma LoadQuoted(body: string, t: Text, rest: string)
    requires Scan(body) == Some((t, rest))
    ensures Load("\"" + body) == Some((JStr(t), rest))
  {
    assert ("\"" + body)[1..] == body;
  }

  lemma DumpsStarts(j: Json)
    ensures Dumps(j) != [] && !IsSpace(Dumps(j)[0]) && Dumps(j)[0] != ']' && Dumps(j)[0] != '}'
  {
  }

  lemma SkipNothing(s: string)
    requires s == [] || !IsSpace(s[0])
    ensures Skip(s) == s
  {
  }

  /** Whatever a value contains, dumping it and loading it gives its read-back form. */
  lemma {:induction false} LoadOfDumps(j: Json, rest: string)
    requires Stops(rest)
    ensures Load(Dumps(j) + rest) == Some((ReadBack(j), rest))
    decreases j
  {
    match j
    case JNull => LoadOfNull(rest);
    case JBool(b) => LoadOfBool(b, rest);
    case JInt(n) => LoadOfInt(n, rest);
    case JStr(t) => LoadOfString(t, rest);
    case JArr(items) =>
      if items != [] { LoadOfItems(items, rest); }
      LoadOfArr(items, rest);
    case JObj(members) =>
      if members != [] { LoadOfMembers(members, rest); }
      LoadOfObj(members, rest);
  }

  lemma LoadOfArr(items: seq<Json>, rest: string)
    requires items != [] ==> LoadItems(DumpItems(items) + ("]" + rest)) == Some((ReadBackItems(items), rest))
    ensures Load(Dumps(JArr(items)) + rest) == Some((ReadBack(JArr(items)), rest))
  {
    var s := Dumps(JArr(items)) + rest;
    var inner := DumpItems(items) + ("]" + rest);
    assert s == "[" + inner && s[1..] == inner;
    if items == [] {
      assert inner == "]" + rest && inner[1..] == rest;
    } else {
      DumpsStarts(items[0]);
      assert inner[0] == Dumps(items[0])[0];
      SkipNothing(inner);
    }
  }

  lemma LoadOfObj(members: seq<Member>, rest: string)
    requires members != [] ==>
               LoadMembers(DumpMembers(members) + ("}" + rest)) == Some((ReadBackMembers(members), rest))
    ensures Load(Dumps(JObj(members)) + rest) == Some((ReadBack(JObj(members)), rest))
  {
    var s := Dumps(JObj(members)) + rest;
    var inner := DumpMembers(members) + ("}" + rest);
    assert s == "{" + inner && s[1..] == inner;
    if members == [] {
      assert inner == "}" + rest && inner[1..] == rest;
    } else {
      DumpMembersStarts(members);
      LoadBraced(inner, ReadBackMembers(members), rest);
    }
  }

  lemma LoadBraced(inner: string, members: seq<Member>, rest: string)
    requires inner != [] && inner[0] == '\"' && LoadMembers(inner) == Some((members, rest))
    ensures Load("{" + inner) == Some((JObj(DictOf(members)), rest))
  {
    assert ("{" + inner)[1..] == inner;
    SkipNothing(inner);
  }

  lemma LoadOfNull(rest: string)
    ensures Load(Dumps(JNull) + rest) == Some((JNull, rest))
  {
    var s := Dumps(JNull) + rest;
    assert s == "null" + rest && s[4..] == rest;
  }

  lemma LoadOfBool(b: bool, rest: string)
    ensures Load(Dumps(JBool(b)) + rest) == Some((JBool(b), rest))
  {
    var s := Dumps(JBool(b)) + rest;
    assert !("null" <= s) by { assert "null"[0] == 'n'; }
    if b {
      assert s == "true" + rest && s[4..] == rest;
    } else {
      assert s == "false" + rest && s[5..] == rest;
      assert !("true" <= s) by { assert "true"[0] == 't'; }
    }
  }

  /* ---- the lists, read from their parts ---- */

  lemma SkipComma(more: string)
    requires more == [] || !IsSpace(more[0])
    ensures Skip(", " + more) == ", " + more && Skip((", " + more)[1..]) == more
  {
    assert (", " + more)[1..] == " " + more && (" " + more)[1..] == more;
  }

  lemma SkipColon(body: string)
    requires body == [] || !IsSpace(body[0])
    ensures Skip(": " + body) == ": " + body && Skip((": " + body)[1..]) == body
  {
    assert (": " + body)[1..] == " " + body && (" " + body)[1..] == body;
  }

  lemma ReadLastItem(s: string, item: Json, rest: string)
    requires Load(s) == Some((item, "]" + rest))
    ensures LoadItems(s) == Some(([item], rest))
  {
    assert ("]" + rest)[1..] == rest;
  }

  lemma ReadItemAndMore(s: string, item: Json, more: string, items: seq<Json>, rest: string)
    requires Load(s) == Some((item, ", " + more)) && more != [] && !IsSpace(more[0])
    requires LoadItems(more) == Some((items, rest))
    ensures LoadItems(s) == Some(([item] + items, rest))
  {
    SkipComma(more);
  }

  /** A member starts with its key and a colon. */
  ghost predicate KeyThen(s: string, key: Text, body: string) {
    s != [] && s[0] == '\"' && Scan(s[1..]) == Some((key, ": " + body)) && body != [] && !IsSpace(body[0])
  }

  lemma ReadLastMember(s: string, key: Text, body: string, value: Json, rest: string)
    requires KeyThen(s, key, body) && Load(body) == Some((value, "}" + rest))
    ensures LoadMembers(s) == Some(([Member(key, value)], rest))
  {
    SkipColon(body);
    assert ("}" + rest)[1..] == rest;
  }

  lemma ReadMemberAndMore(s: string, key: Text, body: string, value: Json, more: string,
      members: seq<Member>, rest: string)
    requires KeyThen(s, key, body) && Load(body) == Some((value, ", " + more)) && more != [] && !IsSpace(more[0])
    requires LoadMembers(more) == Some((members, rest))
    ensures LoadMembers(s) == Some(([Member(key, value)] + members, rest))
  {
    SkipColon(body);
    SkipComma(more);
  }

  /* ---- the lists, as they are dumped ---- */

  lemma DumpItemsJoins(items: seq<Json>, tail: string)
    requires items != []
    ensures var more := if |items| == 1 then tail else ", " + (DumpItems(items[1..]) + tail);
            DumpItems(items) + tail == Dumps(items[0]) + more
    ensures DumpItems(items) != [] && !IsSpace(DumpItems(items)[0])
  {
    DumpsStarts(items[0]);
  }

  lemma DumpMembersJoins(members: seq<Member>, tail: string)
    requires members != []
    ensures var more := if |members| == 1 then tail else ", " + (DumpMembers(members[1..]) + tail);
            DumpMembers(members) + tail == Quote(members[0].key) + (": " + (Dumps(members[0].value) + more))
  {
    if |members| == 1 {
      JoinPair(Quote(members[0].key), Dumps(members[0].value), tail);
    } else {
      JoinPairs(members, DumpMembers(members[1..]), tail);
    }
  }

  lemma JoinPairs(members: seq<Member>, others: string, tail: string)
    requires |members| > 1 && others == DumpMembers(members[1..])
    ensures DumpMembers(members) + tail ==
            Quote(members[0].key) + (": " + (Dumps(members[0].value) + (", " + (others + tail))))
  {
    var pair := Quote(members[0].key) + (": " + Dumps(members[0].value));
    JoinThree(pair, ", ", others, tail);
    JoinPair(Quote(members[0].key), Dumps(members[0].value), ", " + (others + tail));
  }

  lemma JoinPair(key: string, value: string, tail: string)
    ensures key + (": " + value) + tail == key + (": " + (value + tail))
  {
    JoinThree(key, ": ", value, tail);
  }

  lemma JoinThree(first: string, second: string, third: string, tail: string)
    ensures first + (second + third) + tail == first + (second + (third + tail))
  {
  }

  lemma DumpMembersStarts(members: seq<Member>)
    requires members != []
    ensures DumpMembers(members) != [] && DumpMembers(members)[0] == '\"'
  {
    assert Quote(members[0].key)[0] == '\"';
  }

  lemma QuoteThenColon(key: Text, body: string)
    requires body != [] && !IsSpace(body[0])
    ensures KeyThen(Quote(key) + (": " + body), Merge(key), body)
  {
    ScanOfEscape(key, ": " + body);
    assert (Quote(key) + (": " + body))[1..] == Escape(key) + ("\"" + (": " + body));
  }

  lemma {:induction false} LoadOfItems(items: seq<Json>, rest: string)
    requires items != []
    ensures LoadItems(DumpItems(items) + ("]" + rest)) == Some((ReadBackItems(items), rest))
    decreases items
  {
    DumpItemsJoins(items, "]" + rest);
    if |items| == 1 {
      LoadOfDumps(items[0], "]" + rest);
      ReadLastItem(DumpItems(items) + ("]" + rest), ReadBack(items[0]), rest);
      assert items[1..] == [] && ReadBackItems(items) == [ReadBack(items[0])];
    } else {
      var more := DumpItems(items[1..]) + ("]" + rest);
      LoadOfDumps(items[0], ", " + more);
      LoadOfItems(items[1..], rest);
      DumpItemsJoins(items[1..], "]" + rest);
      ReadItemAndMore(DumpItems(items) + ("]" + rest), ReadBack(items[0]), more, ReadBackItems(items[1..]), rest);
    }
  }

  lemma {:induction false} LoadOfMembers(members: seq<Member>, rest: string)
    requires members != []
    ensures LoadMembers(DumpMembers(members) + ("}" + rest)) == Some((ReadBackMembers(members), rest))
    decreases members
  {
    if |members| == 1 {
      LoadOfDumps(members[0].value, "}" + rest);
      LoadMembersLast(members, rest);
    } else {
      LoadOfDumps(members[0].value, ", " + (DumpMembers(members[1..]) + ("}" + rest)));
      LoadOfMembers(members[1..], rest);
      LoadMembersStep(members, rest, DumpMembers(members[1..]) + ("}" + rest));
    }
  }

  lemma ValueStarts(value: Json, tail: string)
    ensures Dumps(value) + tail != [] && !IsSpace((Dumps(value) + tail)[0])
  {
    DumpsStarts(value);
  }

  lemma LoadMembersLast(members: seq<Member>, rest: string)
    requires |members| == 1
    requires Load(Dumps(members[0].value) + ("}" + rest)) == Some((ReadBack(members[0].value), "}" + rest))
    ensures LoadMembers(DumpMembers(members) + ("}" + rest)) == Some((ReadBackMembers(members), rest))
  {
    var key, value := members[0].key, members[0].value;
    var s, body := DumpMembers(members) + ("}" + rest), Dumps(value) + ("}" + rest);
    DumpMembersJoins(members, "}" + rest);
    ValueStarts(value, "}" + rest);
    QuoteThenColon(key, body);
    ReadLastMember(s, Merge(key), body, ReadBack(value), rest);
    assert members[1..] == [] && ReadBackMembers(members) == [Member(Merge(key), ReadBack(value))];
  }

  lemma LoadMembersStep(members: seq<Member>, rest: string, more: string)
    requires |members| > 1 && more == DumpMembers(members[1..]) + ("}" + rest)
    requires Load(Dumps(members[0].value) + (", " + more)) == Some((ReadBack(members[0].value), ", " + more))
    requires LoadMembers(more) == Some((ReadBackMembers(members[1..]), rest))
    ensures LoadMembers(DumpMembers(members) + ("}" + rest)) == Some((ReadBackMembers(members), rest))
  {
    var key, value := members[0].key, members[0].value;
    var s, body := DumpMembers(members) + ("}" + rest), Dumps(value) + (", " + more);
    DumpMembersJoins(members, "}" + rest);
    DumpMembersStarts(members[1..]);
    ValueStarts(value, ", " + more);
    QuoteThenColon(key, body);
    ReadMemberAndMore(s, Merge(key), body, ReadBack(value), more, ReadBackMembers(members[1..]), rest);
  }

  lemma LoadsOfDumps(j: Json)
    ensures Loads(Dumps(j)) == Some(ReadBack(j))
  {
    LoadOfDumps(j, "");
    assert Dumps(j) + "" == Dumps(j);
    DumpsStarts(j);
    SkipNothing(Dumps(j));
  }

  /** A dumped value is one line of printable ASCII. */
  lemma {:induction false} DumpsIsPrintable(j: Json)
    ensures Printable(Dumps(j))
    decreases j
  {
    match j
    case JInt(n) => assert AllDigits(Natural(if n < 0 then -n else n));
    case JStr(t) => EscapeIsPrintable(t);
    case JArr(items) => DumpItemsIsPrintable(items);
    case JObj(members) => DumpMembersIsPrintable(members);
    case _ =>
  }

  lemma {:induction false} DumpItemsIsPrintable(items: seq<Json>)
    ensures Printable(DumpItems(items))
    decreases items
  {
    if items != [] {
      DumpsIsPrintable(items[0]);
      DumpItemsIsPrintable(items[1..]);
    }
  }

  lemma {:induction false} DumpMembersIsPrintable(members: seq<Member>)
    ensures Printable(DumpMembers(members))
    decreases members
  {
    if members != [] {
      EscapeIsPrintable(members[0].key);
      DumpsIsPrintable(members[0].value);
      DumpMembersIsPrintable(members[1..]);
    }
  }
}
