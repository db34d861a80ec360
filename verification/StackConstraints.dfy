/** The equalities and disequalities that the stacks of the model checker satisfy (src/seplog/mc_core.ml). */
module StackConstraints {
  import opened Outcomes

  type Stack = map<int, int>

  const NIL := 0

  /** A variable, or `nil`. */
  datatype Term = Var(x: int) | Nil

  type Pair = (Term, Term)

  predicate Unbound(s: Stack, t: Term) {
    t.Var? && t.x !in s
  }

  function ValueOf(s: Stack, t: Term): int
    requires !Unbound(s, t)
  {
    if t.Nil? then NIL else s[t.x]
  }

  /** Constraints on unbound variables hold. */
  predicate Equal(s: Stack, p: Pair) {
    Unbound(s, p.0) || Unbound(s, p.1) || ValueOf(s, p.0) == ValueOf(s, p.1)
  }

  predicate Different(s: Stack, p: Pair) {
    Unbound(s, p.0) || Unbound(s, p.1) || ValueOf(s, p.0) != ValueOf(s, p.1)
  }

  /** `satisfies`. */
  predicate Satisfies(s: Stack, eqs: seq<Pair>, deqs: seq<Pair>) {
    (forall k :: 0 <= k < |eqs| ==> Equal(s, eqs[k])) && forall k :: 0 <= k < |deqs| ==> Different(s, deqs[k])
  }

  predicate Consistent(s: Stack, s': Stack) {
    forall x :: x in s && x in s' ==> s[x] == s'[x]
  }

  // ---------- The test before two stacks are merged ----------

  /** `Value.equal (find x s) (find y s')`, guarded by `mem x s` only. */
  function Compare(s: Stack, x: int, s': Stack, y: int): Outcome<bool> {
    if x !in s then Ok(false) else if y !in s' then Raised else Ok(s[x] == s'[y])
  }

  /** The test of one equality. */
  function CrossEqual(s: Stack, s': Stack, p: Pair): Outcome<bool> {
    if p.0.Nil? || p.1.Nil? then Ok(true)
    else
      var x, y := p.0.x, p.1.x;
      if (x !in s && x !in s') || (y !in s && y !in s') || (x in s && x in s') || (y in s && y in s') then Ok(true)
      else
        var holds :- Compare(s, x, s', y);
        if holds then Ok(true) else Compare(s', x, s, y)
  }

  /** The test of one disequality. */
  predicate CrossDifferent(s: Stack, s': Stack, p: Pair) {
    || p.0.Nil? || p.1.Nil?
    || var x, y := p.0.x, p.1.x;
       || (x !in s && x !in s') || (y !in s && y !in s')
       || (x !in s && y !in s) || (x !in s' && y !in s')
       || (x in s && x in s') || (y in s && y in s')
       || (x in s && y in s' && s[x] != s'[y])
       || (x in s' && y in s && s'[x] != s[y])
  }

  /** The equalities come in the order in which their map is visited. */
  function CrossEquals(s: Stack, s': Stack, eqs: seq<Pair>): Outcome<bool> {
    if eqs == [] then Ok(true)
    else
      var holds :- CrossEqual(s, s', eqs[0]);
      if holds then CrossEquals(s, s', eqs[1..]) else Ok(false)
  }

  /** `cross_satisfies`. */
  function CrossSatisfies(s: Stack, s': Stack, eqs: seq<Pair>, deqs: seq<Pair>): Outcome<bool> {
    var holds :- CrossEquals(s, s', eqs);
    Ok(holds && forall k :: 0 <= k < |deqs| ==> CrossDifferent(s, s', deqs[k]))
  }

  // ---------- When it tells whether the merged stack satisfies the constraints ----------

  predicate BindsBoth(s: Stack, p: Pair) {
    p.0.Var? && p.1.Var? && p.0.x in s && p.1.x in s
  }

  predicate BindsNeither(s: Stack, p: Pair) {
    p.0.Var? && p.1.Var? && p.0.x !in s && p.1.x !in s
  }

  /** One stack binds both sides and the other none; the test looks up one of them in the wrong stack. */
  predicate OneSided(s: Stack, s': Stack, p: Pair) {
    (BindsBoth(s, p) && BindsNeither(s', p)) || (BindsBoth(s', p) && BindsNeither(s, p))
  }

  lemma CrossEqualExact(s: Stack, s': Stack, p: Pair)
    requires Consistent(s, s') && Equal(s, p) && Equal(s', p)
    ensures CrossEqual(s, s', p).Raised? <==> OneSided(s, s', p)
    ensures CrossEqual(s, s', p).Ok? ==> (CrossEqual(s, s', p).value <==> Equal(s + s', p))
  {
  }

  lemma CrossDifferentExact(s: Stack, s': Stack, p: Pair)
    requires Consistent(s, s') && Different(s, p) && Different(s', p)
    ensures CrossDifferent(s, s', p) <==> Different(s + s', p)
  {
  }

  /** A one-sided equality comes before every equality that the merged stack violates. */
  ghost predicate OneSidedFirst(s: Stack, s': Stack, eqs: seq<Pair>) {
    exists k :: 0 <= k < |eqs| && OneSided(s, s', eqs[k]) && forall j :: 0 <= j < k ==> Equal(s + s', eqs[j])
  }

  lemma OneSidedFirstSplits(s: Stack, s': Stack, eqs: seq<Pair>)
    requires eqs != []
    ensures OneSidedFirst(s, s', eqs) <==>
            OneSided(s, s', eqs[0]) || (Equal(s + s', eqs[0]) && OneSidedFirst(s, s', eqs[1..]))
  {
    if OneSidedFirst(s, s', eqs) && !OneSided(s, s', eqs[0]) {
      var k :| 0 <= k < |eqs| && OneSided(s, s', eqs[k]) && forall j :: 0 <= j < k ==> Equal(s + s', eqs[j]);
      assert eqs[1..][k - 1] == eqs[k];
      assert forall j :: 0 <= j < k - 1 ==> eqs[1..][j] == eqs[j + 1];
    }
    if Equal(s + s', eqs[0]) && OneSidedFirst(s, s', eqs[1..]) {
      var k :| 0 <= k < |eqs| - 1 && OneSided(s, s', eqs[1..][k])
            && forall j :: 0 <= j < k ==> Equal(s + s', eqs[1..][j]);
      assert eqs[k + 1] == eqs[1..][k];
      assert forall j :: 1 <= j < k + 1 ==> eqs[j] == eqs[1..][j - 1];
    }
  }

  lemma {:induction false} CrossEqualsExact(s: Stack, s': Stack, eqs: seq<Pair>)
    requires Consistent(s, s')
    requires forall k :: 0 <= k < |eqs| ==> Equal(s, eqs[k]) && Equal(s', eqs[k])
    ensures CrossEquals(s, s', eqs).Raised? <==> OneSidedFirst(s, s', eqs)
    ensures CrossEquals(s, s', eqs).Ok? ==>
              (CrossEquals(s, s', eqs).value <==> forall k :: 0 <= k < |eqs| ==> Equal(s + s', eqs[k]))
  {
    if eqs != [] {
      CrossEqualExact(s, s', eqs[0]);
      OneSidedFirstSplits(s, s', eqs);
      if CrossEqual(s, s', eqs[0]) == Ok(true) {
        CrossEqualsExact(s, s', eqs[1..]);
        assert forall k :: 1 <= k < |eqs| ==> eqs[k] == eqs[1..][k - 1];
      }
    }
  }

  /** For stacks that satisfy the constraints and agree, the test tells whether they do together; but it raises as soon
      as it meets an equality whose sides one stack binds and the other does not know. */
  lemma CrossSatisfiesExact(s: Stack, s': Stack, eqs: seq<Pair>, deqs: seq<Pair>)
    requires Consistent(s, s') && Satisfies(s, eqs, deqs) && Satisfies(s', eqs, deqs)
    ensures CrossSatisfies(s, s', eqs, deqs).Raised? <==> OneSidedFirst(s, s', eqs)
    ensures CrossSatisfies(s, s', eqs, deqs).Ok? ==>
              (CrossSatisfies(s, s', eqs, deqs).value <==> Satisfies(s + s', eqs, deqs))
  {
    CrossEqualsExact(s, s', eqs);
    forall k | 0 <= k < |deqs|
      ensures CrossDifferent(s, s', deqs[k]) <==> Different(s + s', deqs[k])
    {
      CrossDifferentExact(s, s', deqs[k]);
    }
  }

  /** The first product that the source forms is with the empty stack. It raises for every stack that binds both sides
      of the first equality, although the merged stack is the given one and satisfies the constraints. */
  lemma EmptyStackRaises(s: Stack, eqs: seq<Pair>, deqs: seq<Pair>)
    requires Satisfies(s, eqs, deqs) && eqs != [] && BindsBoth(s, eqs[0])
    ensures CrossSatisfies(s, map[], eqs, deqs).Raised? && Satisfies(s + map[], eqs, deqs)
  {
    assert s + map[] == s;
    assert OneSided(s, map[], eqs[0]);
  }
}
