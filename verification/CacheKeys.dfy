/** The cache key of a ranking, and when two requests can share one. */
module CacheKeys {
  import opened Decimal

  const KEY_PREFIX := "reco:topk:"

  function CacheKey(strategyId: string, user: int, k: int, version: string): string {
    KEY_PREFIX + (strategyId + (":" + (Decimal.Print(user) + (":" + (Decimal.Print(k) + (":" + version))))))
  }

  predicate ColonFree(s: string) {
    ':' !in s
  }

  lemma ColonComesNoEarlier(a: string, b: string, x: string, y: string)
    requires ColonFree(b) && a + (":" + x) == b + (":" + y)
    ensures |a| >= |b|
  {
    var s := a + (":" + x);
    assert s[|a|] == ':';
    assert forall i :: 0 <= i < |b| ==> s[i] == b[i];
  }

  /** A colon-free field is determined by the text that starts with it and a colon. */
  lemma FieldIsDetermined(a: string, b: string, x: string, y: string)
    requires ColonFree(a) && ColonFree(b) && a + (":" + x) == b + (":" + y)
    ensures a == b && x == y
  {
    ColonComesNoEarlier(a, b, x, y);
    ColonComesNoEarlier(b, a, y, x);
    var s, t := a + (":" + x), b + (":" + y);
    assert a == s[..|a|] && b == t[..|b|];
    assert s[|a| + 1..] == x && t[|b| + 1..] == y;
  }

  lemma PrintIsColonFree(n: int)
    ensures ColonFree(Decimal.Print(n))
  {
    var digits := Natural(if n < 0 then -n else n);
    assert forall i :: 0 <= i < |digits| ==> IsDigit(digits[i]);
  }

  function Fields(user: int, k: int, version: string): string {
    Decimal.Print(user) + (":" + (Decimal.Print(k) + (":" + version)))
  }

  lemma KeyTails(s: string, t: string, u: int, k: int, v: string, u': int, k': int, v': string)
    requires CacheKey(s, u, k, v) == CacheKey(t, u', k', v')
    ensures s + (":" + Fields(u, k, v)) == t + (":" + Fields(u', k', v'))
  {
    assert CacheKey(s, u, k, v)[|KEY_PREFIX|..] == s + (":" + Fields(u, k, v));
    assert CacheKey(t, u', k', v')[|KEY_PREFIX|..] == t + (":" + Fields(u', k', v'));
  }

  /** User, k and version are determined by the text after the identifier. */
  lemma FieldsAreInjective(u: int, k: int, v: string, u': int, k': int, v': string)
    requires Fields(u, k, v) == Fields(u', k', v')
    ensures u == u' && k == k' && v == v'
  {
    var rest, rest' := Decimal.Print(k) + (":" + v), Decimal.Print(k') + (":" + v');
    PrintIsColonFree(u);
    PrintIsColonFree(u');
    FieldIsDetermined(Decimal.Print(u), Decimal.Print(u'), rest, rest');
    PrintIsColonFree(k);
    PrintIsColonFree(k');
    FieldIsDetermined(Decimal.Print(k), Decimal.Print(k'), v, v');
    PrintInjective(u, u');
    PrintInjective(k, k');
  }

  /** Equal keys mean equal requests, for colon-free strategy identifiers and any versions. */
  lemma KeysAreInjective(s: string, u: int, k: int, v: string, t: string, u': int, k': int, v': string)
    requires ColonFree(s) && ColonFree(t) && CacheKey(s, u, k, v) == CacheKey(t, u', k', v')
    ensures s == t && u == u' && k == k' && v == v'
  {
    KeyTails(s, t, u, k, v, u', k', v');
    FieldIsDetermined(s, t, Fields(u, k, v), Fields(u', k', v'));
    FieldsAreInjective(u, k, v, u', k', v');
  }

  // ---------------------------------------------------------------- colons in identifiers

  ghost predicate Collide(s: string, t: string) {
    exists user, k, version, user', k', version' ::
      CacheKey(s, user, k, version) == CacheKey(t, user', k', version')
  }

  /** `t` is `s`, a colon and a number, perhaps a second number, perhaps any text after that. */
  predicate ExtendsBy(s: string, t: string, a: int, b: int, rest: string) {
    || t == s + (":" + Decimal.Print(a))
    || t == s + (":" + (Decimal.Print(a) + (":" + Decimal.Print(b))))
    || t == s + (":" + (Decimal.Print(a) + (":" + (Decimal.Print(b) + (":" + rest)))))
  }

  ghost predicate Extends(s: string, t: string) {
    exists a, b, rest :: ExtendsBy(s, t, a, b, rest)
  }

  /** A text that splits after two fields: the longer field is the shorter one, a colon and more. */
  lemma LongerField(s: string, t: string, rest: string, rest': string)
    requires |s| < |t| && s + (":" + rest) == t + (":" + rest')
    ensures t == s + (":" + t[|s| + 1..]) && rest == t[|s| + 1..] + (":" + rest')
  {
    var whole := s + (":" + rest);
    assert t[..|s|] == whole[..|s|] == s && t[|s|] == whole[|s|] == ':';
    assert whole[|s| + 1..] == rest && (t + (":" + rest'))[|s| + 1..] == t[|s| + 1..] + (":" + rest');
  }

  lemma FieldOrMore(a: string, x: string, rest: string, rest': string)
    requires ColonFree(a) && a + (":" + rest) == x + (":" + rest')
    ensures x == a || (|x| > |a| && x == a + (":" + x[|a| + 1..]) && rest == x[|a| + 1..] + (":" + rest'))
  {
    ColonComesNoEarlier(x, a, rest', rest);
    if |x| > |a| {
      LongerField(a, x, rest, rest');
    } else {
      assert x == (x + (":" + rest'))[..|x|] && a == (a + (":" + rest))[..|a|];
    }
  }

  lemma FieldsExtend(u: int, k: int, v: string, x: string, rest': string)
    requires Fields(u, k, v) == x + (":" + rest')
    ensures exists rest :: ExtendsBy("", ":" + x, u, k, rest)
  {
    var p, q := Decimal.Print(u), Decimal.Print(k);
    PrintIsColonFree(u);
    FieldOrMore(p, x, q + (":" + v), rest');
    if x == p {
      assert ExtendsBy("", ":" + x, u, k, "");
    } else {
      var y := x[|p| + 1..];
      PrintIsColonFree(k);
      FieldOrMore(q, y, v, rest');
      assert ExtendsBy("", ":" + x, u, k, if y == q then "" else y[|q| + 1..]);
    }
  }

  lemma LongerIdExtends(s: string, t: string, u: int, k: int, v: string, u': int, k': int, v': string)
    requires |s| < |t| && CacheKey(s, u, k, v) == CacheKey(t, u', k', v')
    ensures Extends(s, t)
  {
    KeyTails(s, t, u, k, v, u', k', v');
    LongerField(s, t, Fields(u, k, v), Fields(u', k', v'));
    var x := t[|s| + 1..];
    FieldsExtend(u, k, v, x, Fields(u', k', v'));
    var rest :| ExtendsBy("", ":" + x, u, k, rest);
    ExtendsAfterFront(s, ":" + x, u, k, rest);
  }

  lemma ExtendsAfterFront(s: string, ending: string, a: int, b: int, rest: string)
    requires ExtendsBy("", ending, a, b, rest)
    ensures ExtendsBy(s, s + ending, a, b, rest)
  {
    var p, q := Decimal.Print(a), Decimal.Print(b);
    assert "" + (":" + p) == ":" + p;
    assert "" + (":" + (p + (":" + q))) == ":" + (p + (":" + q));
    assert "" + (":" + (p + (":" + (q + (":" + rest))))) == ":" + (p + (":" + (q + (":" + rest))));
  }

  lemma ExtensionCollides(s: string, t: string, a: int, b: int, rest: string)
    requires ExtendsBy(s, t, a, b, rest)
    ensures Collide(s, t)
  {
    var p, q, zero := Decimal.Print(a), Decimal.Print(b), Decimal.Print(0);
    if t == s + (":" + p) {
      assert t + (":" + (q + (":" + (zero + (":" + ""))))) == s + (":" + (p + (":" + (q + (":" + (zero + ":"))))));
      assert CacheKey(s, a, b, zero + ":") == CacheKey(t, b, 0, "");
    } else {
      var more := if t == s + (":" + (p + (":" + q))) then "" else rest + ":";
      var ending := zero + (":" + (zero + (":" + "")));
      assert t + (":" + ending) == s + (":" + (p + (":" + (q + (":" + (more + ending))))));
      assert CacheKey(s, a, b, more + ending) == CacheKey(t, 0, 0, "");
    }
  }

  /**
   * Two different strategy identifiers can share a key exactly when one is the other with a
   * colon and a number after it, and then nothing, a second number, or that and any more text.
   */
  lemma IdsCollideExactly(s: string, t: string)
    requires s != t
    ensures Collide(s, t) <==> Extends(s, t) || Extends(t, s)
  {
    if Collide(s, t) {
      var u, k, v, u', k', v' :| CacheKey(s, u, k, v) == CacheKey(t, u', k', v');
      if |s| < |t| {
        LongerIdExtends(s, t, u, k, v, u', k', v');
      } else if |t| < |s| {
        LongerIdExtends(t, s, u', k', v', u, k, v);
      } else {
        SameLengthIds(s, t, u, k, v, u', k', v');
      }
    }
    if Extends(s, t) {
      var a, b, rest :| ExtendsBy(s, t, a, b, rest);
      ExtensionCollides(s, t, a, b, rest);
    }
    if Extends(t, s) {
      var a, b, rest :| ExtendsBy(t, s, a, b, rest);
      ExtensionCollides(t, s, a, b, rest);
    }
  }

  lemma SameLengthIds(s: string, t: string, u: int, k: int, v: string, u': int, k': int, v': string)
    requires |s| == |t| && CacheKey(s, u, k, v) == CacheKey(t, u', k', v')
    ensures s == t
  {
    var n := |KEY_PREFIX|;
    assert CacheKey(s, u, k, v)[n..n + |s|] == s && CacheKey(t, u', k', v')[n..n + |s|] == t;
  }

  // ---------------------------------------------------------------- identifiers used together

  /** No two of the identifiers can share a key. */
  ghost predicate Separate(ids: set<string>) {
    forall s, t :: s in ids && t in ids && s != t ==> !Collide(s, t)
  }

  lemma ColonFreeIdsAreSeparate(ids: set<string>)
    requires forall s :: s in ids ==> ColonFree(s)
    ensures Separate(ids)
  {
    forall s, t | s in ids && t in ids && s != t ensures !Collide(s, t) {
      if Collide(s, t) {
        var u, k, v, u', k', v' :| CacheKey(s, u, k, v) == CacheKey(t, u', k', v');
        KeysAreInjective(s, u, k, v, t, u', k', v');
      }
    }
  }

  /** Of one identifier, colons or not, equal keys mean equal requests. */
  lemma KeysOfOneId(s: string, u: int, k: int, v: string, u': int, k': int, v': string)
    requires CacheKey(s, u, k, v) == CacheKey(s, u', k', v')
    ensures u == u' && k == k' && v == v'
  {
    KeyTails(s, s, u, k, v, u', k', v');
    SameFront(s, Fields(u, k, v), Fields(u', k', v'));
    FieldsAreInjective(u, k, v, u', k', v');
  }

  lemma SameFront(s: string, x: string, y: string)
    requires s + (":" + x) == s + (":" + y)
    ensures x == y
  {
    assert (s + (":" + x))[|s| + 1..] == x && (s + (":" + y))[|s| + 1..] == y;
  }

  /** Among such identifiers equal keys mean equal requests. */
  lemma SeparateKeys(ids: set<string>, s: string, u: int, k: int, v: string, t: string, u': int, k': int, v': string)
    requires Separate(ids) && s in ids && t in ids && CacheKey(s, u, k, v) == CacheKey(t, u', k', v')
    ensures s == t && u == u' && k == k' && v == v'
  {
    assert Collide(s, t);
    KeysOfOneId(s, u, k, v, u', k', v');
  }
}
