/** The conformance runner's subset matcher and its capture resolution. */
module Conformance {
  import opened Options

  datatype Json =
    | Null
    | Bool(b: bool)
    | Number(n: real)
    | Text(s: string)
    | List(items: seq<Json>)
    | Object(fields: map<string, Json>)

  /** What a string of an expected value can stand for. */
  datatype Wildcard = AnyString | AnyNumber | AnyArray | AnyObject | AnyBool | Capture(key: string)

  /** The wildcard pattern, as far as it matters here: which strings are wildcards, and which. */
  type Classifier = string -> Option<Wildcard>

  /** Python's `==` on JSON values: True equals 1 and False equals 0. */
  predicate Equal(a: Json, b: Json)
    decreases a
  {
    match a
    case Null => b.Null?
    case Bool(x) => (b.Bool? && b.b == x) || (b.Number? && b.n == if x then 1.0 else 0.0)
    case Number(x) => (b.Number? && b.n == x) || (b.Bool? && x == if b.b then 1.0 else 0.0)
    case Text(x) => b.Text? && b.s == x
    case List(xs) => b.List? && |xs| == |b.items| && forall i :: 0 <= i < |xs| ==> Equal(xs[i], b.items[i])
    case Object(m) => b.Object? && m.Keys == b.fields.Keys && forall k :: k in m ==> Equal(m[k], b.fields[k])
  }

  predicate Scalar(j: Json) {
    !j.List? && !j.Object?
  }

  // ---------------------------------------------------------------- the matcher

  /** `expected` is satisfied by `actual`: extra keys and extra trailing items of `actual` do not matter.
      A captured null counts as missing, and a boolean counts as a number. */
  predicate Matches(classify: Classifier, expected: Json, actual: Json, captures: map<string, Json>)
    decreases expected
  {
    match expected
    case Text(s) =>
      (match classify(s)
       case Some(AnyString) => actual.Text?
       case Some(AnyNumber) => actual.Number? || actual.Bool?
       case Some(AnyArray) => actual.List?
       case Some(AnyObject) => actual.Object?
       case Some(AnyBool) => actual.Bool?
       case Some(Capture(key)) => key in captures && !captures[key].Null? && Equal(actual, captures[key])
       case None => Equal(actual, expected))
    case Object(m) =>
      actual.Object? && forall k :: k in m ==> k in actual.fields && Matches(classify, m[k], actual.fields[k], captures)
    case List(xs) =>
      actual.List? && |xs| <= |actual.items| && forall i :: 0 <= i < |xs| ==> Matches(classify, xs[i], actual.items[i], captures)
    case _ => Equal(actual, expected)
  }

  /** Replace every capture placeholder whose key is known by the captured value. */
  function Resolve(classify: Classifier, value: Json, captures: map<string, Json>): Json
    decreases value
  {
    match value
    case Text(s) =>
      (match classify(s)
       case Some(Capture(key)) => if key in captures then captures[key] else value
       case _ => value)
    case Object(m) => Object(map k | k in m :: Resolve(classify, m[k], captures))
    case List(xs) => List(seq(|xs|, i requires 0 <= i < |xs| => Resolve(classify, xs[i], captures)))
    case _ => value
  }

  predicate WildcardFree(classify: Classifier, j: Json)
    decreases j
  {
    match j
    case Text(s) => classify(s).None?
    case Object(m) => forall k :: k in m ==> WildcardFree(classify, m[k])
    case List(xs) => forall i :: 0 <= i < |xs| ==> WildcardFree(classify, xs[i])
    case _ => true
  }

  // ---------------------------------------------------------------- equality

  lemma {:induction false} EqualReflexive(a: Json)
    ensures Equal(a, a)
    decreases a
  {
    match a
    case List(xs) =>
      forall i | 0 <= i < |xs| ensures Equal(xs[i], xs[i]) { EqualReflexive(xs[i]); }
    case Object(m) =>
      forall k | k in m ensures Equal(m[k], m[k]) { EqualReflexive(m[k]); }
    case _ =>
  }

  lemma {:induction false} EqualSymmetric(a: Json, b: Json)
    requires Equal(a, b)
    ensures Equal(b, a)
    decreases a
  {
    match a
    case List(xs) =>
      forall i | 0 <= i < |xs| ensures Equal(b.items[i], xs[i]) { EqualSymmetric(xs[i], b.items[i]); }
    case Object(m) =>
      forall k | k in m ensures Equal(b.fields[k], m[k]) { EqualSymmetric(m[k], b.fields[k]); }
    case _ =>
  }

  // ---------------------------------------------------------------- a partial order

  /** Equal values match each other, when the expected one has no wildcards. */
  lemma {:induction false} EqualMatches(classify: Classifier, a: Json, b: Json, captures: map<string, Json>)
    requires Equal(a, b) && WildcardFree(classify, a)
    ensures Matches(classify, a, b, captures)
    decreases a
  {
    match a
    case List(xs) =>
      forall i | 0 <= i < |xs| ensures Matches(classify, xs[i], b.items[i], captures) {
        EqualMatches(classify, xs[i], b.items[i], captures);
      }
    case Object(m) =>
      forall k | k in m ensures Matches(classify, m[k], b.fields[k], captures) {
        EqualMatches(classify, m[k], b.fields[k], captures);
      }
    case _ =>
      EqualSymmetric(a, b);
  }

  lemma {:induction false} MatchReflexive(classify: Classifier, a: Json, captures: map<string, Json>)
    requires WildcardFree(classify, a)
    ensures Matches(classify, a, a, captures)
  {
    EqualReflexive(a);
    EqualMatches(classify, a, a, captures);
  }

  lemma {:induction false} MatchTransitive(classify: Classifier, a: Json, b: Json, c: Json, captures: map<string, Json>)
    requires WildcardFree(classify, a) && WildcardFree(classify, b)
    requires Matches(classify, a, b, captures) && Matches(classify, b, c, captures)
    ensures Matches(classify, a, c, captures)
    decreases a
  {
    match a
    case List(xs) =>
      forall i | 0 <= i < |xs| ensures Matches(classify, xs[i], c.items[i], captures) {
        MatchTransitive(classify, xs[i], b.items[i], c.items[i], captures);
      }
    case Object(m) =>
      forall k | k in m ensures k in c.fields && Matches(classify, m[k], c.fields[k], captures) {
        MatchTransitive(classify, m[k], b.fields[k], c.fields[k], captures);
      }
    case _ =>
  }

  /** Two values without wildcards match each other both ways exactly when they are equal. */
  lemma {:induction false} MatchAntisymmetric(classify: Classifier, a: Json, b: Json, captures: map<string, Json>)
    requires WildcardFree(classify, a) && WildcardFree(classify, b)
    ensures Matches(classify, a, b, captures) && Matches(classify, b, a, captures) <==> Equal(a, b)
    decreases a
  {
    if Equal(a, b) {
      EqualSymmetric(a, b);
      EqualMatches(classify, a, b, captures);
      EqualMatches(classify, b, a, captures);
    } else if Matches(classify, a, b, captures) && Matches(classify, b, a, captures) {
      match a
      case List(xs) =>
        forall i | 0 <= i < |xs| ensures Equal(xs[i], b.items[i]) {
          MatchAntisymmetric(classify, xs[i], b.items[i], captures);
        }
      case Object(m) =>
        forall k | k in m ensures Equal(m[k], b.fields[k]) {
          MatchAntisymmetric(classify, m[k], b.fields[k], captures);
        }
      case _ =>
    }
  }

  /** Further items and further keys of the actual value are ignored; missing ones are not. */
  lemma SubsetMatch(classify: Classifier, xs: seq<Json>, ys: seq<Json>, m: map<string, Json>, n: map<string, Json>, captures: map<string, Json>)
    requires WildcardFree(classify, List(xs)) && WildcardFree(classify, Object(m)) && m.Keys !! n.Keys
    ensures Matches(classify, List(xs), List(xs + ys), captures)
    ensures Matches(classify, Object(m), Object(m + n), captures)
    ensures ys != [] ==> !Matches(classify, List(xs + ys), List(xs), captures)
    ensures n != map[] ==> !Matches(classify, Object(m + n), Object(m), captures)
  {
    forall i | 0 <= i < |xs| ensures Matches(classify, xs[i], (xs + ys)[i], captures) {
      MatchReflexive(classify, xs[i], captures);
    }
    forall k | k in m ensures k in (m + n) && Matches(classify, m[k], (m + n)[k], captures) {
      MatchReflexive(classify, m[k], captures);
    }
    if n != map[] {
      var k :| k in n;
      assert k in m + n && k !in m;
    }
  }

  /** Equality here is Python's: true and 1 match both ways although they are different JSON values. */
  lemma TrueMatchesOne(classify: Classifier, captures: map<string, Json>)
    ensures Bool(true) != Number(1.0)
    ensures Matches(classify, Bool(true), Number(1.0), captures) && Matches(classify, Number(1.0), Bool(true), captures)
  {
    assert Equal(Number(1.0), Bool(true)) && Equal(Bool(true), Number(1.0));
  }

  /** The value with its booleans written as numbers. */
  function AsNumbers(j: Json): Json
    decreases j
  {
    match j
    case Bool(b) => Number(if b then 1.0 else 0.0)
    case List(xs) => List(seq(|xs|, i requires 0 <= i < |xs| => AsNumbers(xs[i])))
    case Object(m) => Object(map k | k in m :: AsNumbers(m[k]))
    case _ => j
  }

  /** Python's equality tells two values apart exactly when they differ in more than booleans written as
      numbers. */
  lemma {:induction false} EqualIffSameNumbers(a: Json, b: Json)
    ensures Equal(a, b) <==> AsNumbers(a) == AsNumbers(b)
    decreases a
  {
    match a
    case List(xs) =>
      if b.List? && |xs| == |b.items| {
        forall i | 0 <= i < |xs| ensures Equal(xs[i], b.items[i]) <==> AsNumbers(xs[i]) == AsNumbers(b.items[i]) {
          EqualIffSameNumbers(xs[i], b.items[i]);
        }
        SameItems(xs, b.items);
      } else if b.List? {
        assert |AsNumbers(a).items| == |xs| && |AsNumbers(b).items| == |b.items|;
      }
    case Object(m) =>
      if b.Object? && m.Keys == b.fields.Keys {
        forall k | k in m ensures Equal(m[k], b.fields[k]) <==> AsNumbers(m[k]) == AsNumbers(b.fields[k]) {
          EqualIffSameNumbers(m[k], b.fields[k]);
        }
        SameFields(m, b.fields);
      } else if b.Object? {
        assert AsNumbers(a).fields.Keys == m.Keys && AsNumbers(b).fields.Keys == b.fields.Keys;
      }
    case _ =>
  }

  lemma SameItems(xs: seq<Json>, ys: seq<Json>)
    requires |xs| == |ys|
    ensures AsNumbers(List(xs)) == AsNumbers(List(ys)) <==> forall i :: 0 <= i < |xs| ==> AsNumbers(xs[i]) == AsNumbers(ys[i])
  {
    var a, b := AsNumbers(List(xs)).items, AsNumbers(List(ys)).items;
    assert forall i :: 0 <= i < |xs| ==> a[i] == AsNumbers(xs[i]) && b[i] == AsNumbers(ys[i]);
    if forall i :: 0 <= i < |xs| ==> AsNumbers(xs[i]) == AsNumbers(ys[i]) {
      assert a == b;
    }
  }

  lemma SameFields(m: map<string, Json>, n: map<string, Json>)
    requires m.Keys == n.Keys
    ensures AsNumbers(Object(m)) == AsNumbers(Object(n)) <==> forall k :: k in m ==> AsNumbers(m[k]) == AsNumbers(n[k])
  {
    var a, b := AsNumbers(Object(m)).fields, AsNumbers(Object(n)).fields;
    assert a.Keys == m.Keys && b.Keys == n.Keys;
    assert forall k :: k in m ==> a[k] == AsNumbers(m[k]) && b[k] == AsNumbers(n[k]);
    if forall k :: k in m ==> AsNumbers(m[k]) == AsNumbers(n[k]) {
      assert a == b;
    }
  }

  /** So matching is a partial order of values up to booleans written as numbers. */
  lemma MatchBothWaysIff(classify: Classifier, a: Json, b: Json, captures: map<string, Json>)
    requires WildcardFree(classify, a) && WildcardFree(classify, b)
    ensures Matches(classify, a, b, captures) && Matches(classify, b, a, captures) <==> AsNumbers(a) == AsNumbers(b)
  {
    MatchAntisymmetric(classify, a, b, captures);
    EqualIffSameNumbers(a, b);
  }

  // ---------------------------------------------------------------- captures

  ghost predicate PlainCaptures(classify: Classifier, captures: map<string, Json>) {
    forall key :: key in captures ==> WildcardFree(classify, captures[key])
  }

  /** What matches with captures still matches after resolving them. */
  lemma {:induction false} ResolvedMatches(classify: Classifier, e: Json, a: Json, captures: map<string, Json>)
    requires PlainCaptures(classify, captures) && Matches(classify, e, a, captures)
    ensures Matches(classify, Resolve(classify, e, captures), a, captures)
    decreases e
  {
    match e
    case Text(s) =>
      if classify(s).Some? && classify(s).value.Capture? {
        var captured := captures[classify(s).value.key];
        EqualSymmetric(a, captured);
        EqualMatches(classify, captured, a, captures);
      }
    case List(xs) =>
      forall i | 0 <= i < |xs| ensures Matches(classify, Resolve(classify, xs[i], captures), a.items[i], captures) {
        ResolvedMatches(classify, xs[i], a.items[i], captures);
      }
    case Object(m) =>
      forall k | k in m ensures Matches(classify, Resolve(classify, m[k], captures), a.fields[k], captures) {
        ResolvedMatches(classify, m[k], a.fields[k], captures);
      }
    case _ =>
  }

  /** The captured value is a scalar other than null, or no string refers to its key. */
  ghost predicate Exact(classify: Classifier, captures: map<string, Json>, key: string) {
    key in captures && (exists s :: classify(s) == Some(Capture(key))) ==> Scalar(captures[key]) && !captures[key].Null?
  }

  /** With only such captured values, resolving first makes no difference. */
  lemma {:induction false} ResolvedMatchesOnly(classify: Classifier, e: Json, a: Json, captures: map<string, Json>)
    requires PlainCaptures(classify, captures) && forall key :: Exact(classify, captures, key)
    requires Matches(classify, Resolve(classify, e, captures), a, captures)
    ensures Matches(classify, e, a, captures)
    decreases e
  {
    match e
    case Text(s) =>
      if classify(s).Some? && classify(s).value.Capture? && classify(s).value.key in captures {
        assert Exact(classify, captures, classify(s).value.key);
      }
    case List(xs) =>
      var r := Resolve(classify, e, captures);
      forall i | 0 <= i < |xs| ensures Matches(classify, xs[i], a.items[i], captures) {
        assert Matches(classify, r.items[i], a.items[i], captures);
        ResolvedMatchesOnly(classify, xs[i], a.items[i], captures);
      }
    case Object(m) =>
      var r := Resolve(classify, e, captures);
      forall k | k in m ensures k in a.fields && Matches(classify, m[k], a.fields[k], captures) {
        assert k in r.fields && Matches(classify, r.fields[k], a.fields[k], captures);
        ResolvedMatchesOnly(classify, m[k], a.fields[k], captures);
      }
    case _ =>
  }

  lemma {:induction false} FreshKey(keys: set<string>) returns (fresh_: string)
    ensures fresh_ !in keys && forall k :: k in keys ==> |k| < |fresh_|
    decreases keys
  {
    if keys == {} {
      fresh_ := "x";
    } else {
      var k :| k in keys;
      var rest := FreshKey(keys - {k});
      fresh_ := if |k| < |rest| then rest else k + "x";
      forall j | j in keys ensures |j| < |fresh_| {
        assert j == k || j in keys - {k};
      }
    }
  }

  /** A captured list, object or null matches more after resolving than before. */
  lemma LooserAfterResolving(classify: Classifier, captures: map<string, Json>, key: string, s: string) returns (a: Json)
    requires PlainCaptures(classify, captures) && key in captures && classify(s) == Some(Capture(key))
    requires !Scalar(captures[key]) || captures[key].Null?
    ensures Matches(classify, Resolve(classify, Text(s), captures), a, captures) && !Matches(classify, Text(s), a, captures)
  {
    var captured := captures[key];
    match captured
    case Null =>
      a := Null;
    case List(xs) =>
      a := List(xs + [Null]);
      forall i | 0 <= i < |xs| ensures Matches(classify, xs[i], a.items[i], captures) {
        MatchReflexive(classify, xs[i], captures);
      }
    case Object(m) =>
      var k := FreshKey(m.Keys);
      a := Object(m[k := Null]);
      assert k in a.fields.Keys;
      forall j | j in m ensures j in a.fields && Matches(classify, m[j], a.fields[j], captures) {
        MatchReflexive(classify, m[j], captures);
      }
  }

  predicate SameVerdict(classify: Classifier, captures: map<string, Json>, e: Json, a: Json) {
    Matches(classify, e, a, captures) <==> Matches(classify, Resolve(classify, e, captures), a, captures)
  }

  /** Resolving captures before matching changes no verdict, for any expected and actual value, exactly
      when every captured value that can be referred to is a scalar other than null. */
  lemma ResolvingIsExact(classify: Classifier, captures: map<string, Json>)
    requires PlainCaptures(classify, captures)
    ensures (forall e, a :: SameVerdict(classify, captures, e, a)) <==> (forall key :: Exact(classify, captures, key))
  {
    if forall key :: Exact(classify, captures, key) {
      forall e, a ensures SameVerdict(classify, captures, e, a) {
        if Matches(classify, e, a, captures) {
          ResolvedMatches(classify, e, a, captures);
        } else if Matches(classify, Resolve(classify, e, captures), a, captures) {
          ResolvedMatchesOnly(classify, e, a, captures);
        }
      }
    } else {
      var key :| !Exact(classify, captures, key);
      var s :| classify(s) == Some(Capture(key));
      var e := Text(s);
      var a := LooserAfterResolving(classify, captures, key, s);
      assert !SameVerdict(classify, captures, e, a);
    }
  }

  // ---------------------------------------------------------------- wildcards

  /** What each wildcard stands for: the values of one type, where a boolean is a number as well; a capture
      stands for what equals the captured value, unless nothing or null was captured. */
  lemma WildcardsMean(classify: Classifier, s: string, actual: Json, captures: map<string, Json>)
    ensures var matches := Matches(classify, Text(s), actual, captures);
      && (classify(s) == Some(AnyString) ==> (matches <==> exists t :: actual == Text(t)))
      && (classify(s) == Some(AnyNumber) ==> (matches <==> (exists n :: actual == Number(n)) || (exists b :: actual == Bool(b))))
      && (classify(s) == Some(AnyArray) ==> (matches <==> exists items :: actual == List(items)))
      && (classify(s) == Some(AnyObject) ==> (matches <==> exists fields :: actual == Object(fields)))
      && (classify(s) == Some(AnyBool) ==> (matches <==> exists b :: actual == Bool(b)))
      && (forall key :: classify(s) == Some(Capture(key)) ==>
            (matches <==> key in captures && captures[key] != Null && AsNumbers(actual) == AsNumbers(captures[key])))
  {
    if classify(s).Some? && classify(s).value.Capture? && classify(s).value.key in captures {
      EqualIffSameNumbers(actual, captures[classify(s).value.key]);
    }
    match actual
    case Null =>
    case Bool(b) => assert actual == Bool(b);
    case Number(n) => assert actual == Number(n);
    case Text(t) => assert actual == Text(t);
    case List(items) => assert actual == List(items);
    case Object(fields) => assert actual == Object(fields);
  }
}
