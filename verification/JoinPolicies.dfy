/**
 Join policies (libeval/src/joinpolicy.rs): when a set of claims satisfies every expression
 of a policy, and the loops that decide it.
 */
module JoinPolicies {
  import opened Text
  import opened Attributes

  datatype AttrOp = Eq | Ne | Has | Excludes

  datatype AttrExp = AttrExp(key: Key, op: AttrOp, value: seq<string>)

  datatype JFlag = IsNode | IsVs | IsVsDock

  datatype JPolicy = JPolicy(matches: seq<AttrExp>, flags: set<JFlag>, services: Option<seq<string>>)

  predicate IsEmptyValue(exp: AttrExp) { exp.value == [] || exp.value[0] == "" }

  /** What one attribute under the expression's key must look like. */
  predicate Admits(exp: AttrExp, attr: Attribute) {
    match exp.op
    case Eq => multiset(attr.value) == multiset(exp.value)
    case Ne => multiset(attr.value) != multiset(exp.value)
    case Has => IsEmptyValue(exp) || attr.HasAll(exp.value)
    case Excludes => !IsEmptyValue(exp) && !attr.HasAny(exp.value)
  }

  /**
   The meaning of an expression: every claim under its key is unexpired and admitted, and
   there is such a claim unless the expression demands that there be none.
   */
  predicate Satisfied(exp: AttrExp, claims: set<Attribute>, now: Time) {
    && (forall a :: a in claims && a.key == exp.key ==> !a.IsExpired(now) && Admits(exp, a))
    && ((exists a :: a in claims && a.key == exp.key) || (exp.op == Excludes && IsEmptyValue(exp)))
  }

  predicate Matches(jp: JPolicy, claims: set<Attribute>, now: Time) {
    forall exp :: exp in jp.matches ==> Satisfied(exp, claims, now)
  }

  // ------------------------------------------------------------- counting values

  function CountMap(s: seq<string>): (m: map<string, nat>)
    ensures forall x :: x in m <==> x in s
    ensures forall x :: x in m ==> m[x] == multiset(s)[x]
  {
    if s == [] then map[]
    else
      var init, last := s[..|s| - 1], s[|s| - 1];
      var m := CountMap(init);
      assert s == init + [last];
      m[last := (if last in m then m[last] else 0) + 1]
  }

  /** Equal count maps are equal multisets, so order is ignored and multiplicity is not. */
  lemma CountMapsAgree(a: seq<string>, b: seq<string>)
    ensures CountMap(a) == CountMap(b) <==> multiset(a) == multiset(b)
  {}

  method TallyValues(s: seq<string>) returns (m: map<string, nat>)
    ensures m == CountMap(s)
  {
    m := map[];
    for i := 0 to |s|
      invariant m == CountMap(s[..i])
    {
      assert s[..i + 1][..i] == s[..i];
      m := m[s[i] := (if s[i] in m then m[s[i]] else 0) + 1];
    }
    assert s[..|s|] == s;
  }

  method ContainsExactly(exp: AttrExp, vals: seq<string>) returns (b: bool)
    ensures b <==> multiset(vals) == multiset(exp.value)
  {
    if |vals| != |exp.value| {
      assert |multiset(vals)| != |multiset(exp.value)|;
      return false;
    }
    var m := TallyValues(vals);
    var n := TallyValues(exp.value);
    CountMapsAgree(vals, exp.value);
    return m == n;
  }

  // ------------------------------------------------------------------- the loops

  /** `JPolicy::matches`: nested loops with a `found` flag decide exactly the meaning above. */
  method DecideMatch(jp: JPolicy, attrs: seq<Attribute>, now: Time) returns (b: bool)
    ensures b <==> Matches(jp, Elements(attrs), now)
  {
    for e := 0 to |jp.matches|
      invariant forall k :: 0 <= k < e ==> Satisfied(jp.matches[k], Elements(attrs), now)
    {
      var exp := jp.matches[e];
      var ok := DecideExpression(exp, attrs, now);
      if !ok { return false; }
    }
    return true;
  }

  method DecideExpression(exp: AttrExp, attrs: seq<Attribute>, now: Time) returns (b: bool)
    ensures b <==> Satisfied(exp, Elements(attrs), now)
  {
    var found := false;
    for i := 0 to |attrs|
      invariant found <==> exists k :: 0 <= k < i && attrs[k].key == exp.key
      invariant forall k :: 0 <= k < i && attrs[k].key == exp.key ==>
        !attrs[k].IsExpired(now) && Admits(exp, attrs[k])
    {
      var attr := attrs[i];
      if attr.key == exp.key {
        assert attr in Elements(attrs);
        if attr.IsExpired(now) { return false; }
        found := true;
        match exp.op {
          case Eq =>
            var same := ContainsExactly(exp, attr.value);
            if !same { return false; }
          case Ne =>
            var same := ContainsExactly(exp, attr.value);
            if same { return false; }
          case Has =>
            if !IsEmptyValue(exp) && !attr.HasAll(exp.value) { return false; }
          case Excludes =>
            if IsEmptyValue(exp) || attr.HasAny(exp.value) { return false; }
        }
      }
    }
    if found {
      var k :| 0 <= k < |attrs| && attrs[k].key == exp.key;
      assert attrs[k] in Elements(attrs);
      return true;
    }
    return exp.op == Excludes && IsEmptyValue(exp);
  }

  // ------------------------------------------------------------------------ laws

  /** Waiting never makes a policy match: an expired claim satisfies no expression. */
  lemma MatchFadesWithTime(jp: JPolicy, claims: set<Attribute>, t1: Time, t2: Time)
    requires t1 <= t2 && Matches(jp, claims, t2)
    ensures Matches(jp, claims, t1)
  {}

  function Under(claims: set<Attribute>, k: Key): set<Attribute> {
    set a | a in claims && a.key == k
  }

  /** Only claims whose key some expression names can change whether a policy matches. */
  lemma MatchReadsOnlyNamedKeys(jp: JPolicy, c1: set<Attribute>, c2: set<Attribute>, now: Time)
    requires forall exp :: exp in jp.matches ==> Under(c1, exp.key) == Under(c2, exp.key)
    ensures Matches(jp, c1, now) <==> Matches(jp, c2, now)
  {
    forall exp | exp in jp.matches ensures Satisfied(exp, c1, now) <==> Satisfied(exp, c2, now) {
      assert Under(c1, exp.key) == Under(c2, exp.key);
      assert forall a :: a in c1 && a.key == exp.key <==> a in Under(c1, exp.key);
      assert forall a :: a in c2 && a.key == exp.key <==> a in Under(c2, exp.key);
    }
  }
}
