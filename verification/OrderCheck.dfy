/** With explicit needs the listing order of a recipe is irrelevant; without, it is everything. */
module OrderCheck {
  import opened Ordering
  import opened Protocol
  import opened Waves
  import opened Schedule
  import opened RecipeParams
  import opened Plan

  /** The same recipe with its steps listed in another order. */
  ghost predicate Relisted(a: Recipe, b: Recipe)
  {
    b == a.(steps := b.steps) && multiset(a.steps) == multiset(b.steps)
  }

  lemma {:induction false} SameMembers(a: Steps, b: Steps)
    requires multiset(a) == multiset(b)
    ensures |a| == |b| && forall s :: s in a <==> s in b
  {
    assert |a| == |multiset(a)| == |b|;
    forall s ensures s in a <==> s in b { assert s in a <==> s in multiset(a); assert s in b <==> s in multiset(b); }
  }

  lemma {:induction false} TwoPlaces(steps: Steps, x: RecipeStep)
    requires multiset(steps)[x] >= 2
    ensures !DistinctIds(steps)
  {
    var front, last := steps[..|steps| - 1], steps[|steps| - 1];
    assert steps == front + [last];
    if last == x {
      assert multiset(front)[x] >= 1;
      var i :| 0 <= i < |front| && front[i] == x;
      assert steps[i].id == steps[|steps| - 1].id;
    } else {
      TwoPlaces(front, x);
      var i, j :| 0 <= i < j < |front| && front[i].id == front[j].id;
      assert steps[i].id == steps[j].id;
    }
  }

  lemma {:induction false} RelistingKeepsDistinct(a: Steps, b: Steps)
    requires multiset(a) == multiset(b) && DistinctIds(a)
    ensures DistinctIds(b)
  {
    SameMembers(a, b);
    forall i, j | 0 <= i < j < |b| ensures b[i].id != b[j].id {
      if b[i] == b[j] {
        assert b == b[..j] + [b[j]] + b[j + 1..];
        assert b[i] in b[..j];
        assert multiset(b)[b[i]] >= 2;
        TwoPlaces(a, b[i]);
      } else {
        assert b[i] in b && b[j] in b;
        var m :| 0 <= m < |a| && a[m] == b[i];
        var n :| 0 <= n < |a| && a[n] == b[j];
        assert m < n ==> a[m].id != a[n].id;
        assert n < m ==> a[n].id != a[m].id;
      }
    }
  }

  lemma {:induction false} RelistingKeepsGraph(a: Steps, b: Steps)
    requires forall s :: s in a <==> s in b
    ensures IdsOf(a) == IdsOf(b)
    ensures Implicit(a) ==> Implicit(b)
    ensures Acyclic(a) ==> Acyclic(b)
  {
    if Implicit(a) {
      forall i | 0 <= i < |b| ensures b[i].needs == [] {
        assert b[i] in b && b[i] in a;
        var m :| 0 <= m < |a| && a[m] == b[i];
      }
    }
    forall x, y ensures Needs(a, x, y) <==> Needs(b, x, y) {}
    if c :| Cycle(b, c) { assert Cycle(a, c); }
  }

  lemma {:induction false} RelistingKeepsValid(a: Recipe, b: Recipe, registry: Registry)
    requires Relisted(a, b) && ValidRecipe(a, registry)
    ensures ValidRecipe(b, registry)
  {
    SameMembers(a.steps, b.steps);
    RelistingKeepsDistinct(a.steps, b.steps);
    RelistingKeepsGraph(a.steps, b.steps);
    forall s | s in b.steps ensures ValidId(s.id) && ValidNeeds(b.steps, s) && ValidOp(s.op, b.params, registry) {
      assert s in a.steps && ValidNeeds(a.steps, s);
    }
  }

  /** Whether a recipe compiles does not depend on the listing. */
  lemma {:induction false} RelistingCompiles(a: Recipe, b: Recipe, given: Given, registry: Registry)
    requires Relisted(a, b)
    ensures Compiles(a, given, registry) <==> Compiles(b, given, registry)
  {
    SameMembers(a.steps, b.steps);
    RelistingKeepsGraph(a.steps, b.steps);
    RelistingKeepsGraph(b.steps, a.steps);
    if ValidRecipe(a, registry) { RelistingKeepsValid(a, b, registry); }
    if ValidRecipe(b, registry) { RelistingKeepsValid(b, a, registry); }
    hide ValidRecipe, Acyclic, Implicit;
  }

  /** Every bound step of one listing is a bound step of the other. */
  lemma {:induction false} BoundMember(a: Recipe, b: Recipe, given: Given, registry: Registry, s: RecipeStep)
    requires Relisted(a, b) && ValidRecipe(a, registry) && ValidRecipe(b, registry)
    requires BoundSteps(a, given).Ok? && BoundSteps(b, given).Ok? && s in BoundSteps(a, given).value
    ensures s in BoundSteps(b, given).value
  {
    SameMembers(a.steps, b.steps);
    ValidatedBinds(a, registry, given);
    ValidatedBinds(b, registry, given);
    assert s in a.steps ==> s in b.steps;
    hide ApplyParams, ValidRecipe, Bound, Instance;
    if a.params != [] {
      BoundAmong(a.steps, b.steps, BoundSteps(a, given).value, BoundSteps(b, given).value, given, s);
    }
  }

  lemma {:induction false} BoundAmong(a: Steps, b: Steps, ba: Steps, bb: Steps, given: Given, s: RecipeStep)
    requires Bound(a, ba, given) && Bound(b, bb, given) && (forall t :: t in a <==> t in b) && s in ba
    ensures s in bb
  {
    hide SubstOp;
    var k :| 0 <= k < |ba| && ba[k] == s;
    assert a[k] in b;
    var j :| 0 <= j < |b| && b[j] == a[k];
    assert bb[j] == s;
  }

  lemma {:induction false} SamePlannedSteps(x: Steps, y: Steps, p: seq<nat>, q: seq<nat>, registry: Registry,
                         ps: seq<PlannedStep>, qs: seq<PlannedStep>)
    requires DistinctIds(x) && !Implicit(x) && !Implicit(y) && forall s :: s in x <==> s in y
    requires InOrder(x, p, ps, registry) && InOrder(y, q, qs, registry) && Named(x, p) == Named(y, q)
    ensures ps == qs
  {
    forall k | 0 <= k < |ps| ensures ps[k] == qs[k] {
      assert Named(x, p)[k] == Named(y, q)[k];
      assert x[p[k]] in x && y[q[k]] in y && y[q[k]] in x;
      var m :| 0 <= m < |x| && x[m] == y[q[k]];
      SameId(x, m, p[k]);
      assert NeedsAt(x, p[k]) == NeedsAt(y, q[k]);
    }
  }

  /** Any relisting of a recipe with explicit needs compiles to the identical plan. */
  lemma {:induction false} ListingDoesNotMatter(a: Recipe, b: Recipe, given: Given, registry: Registry, p: Plan,
                                                q: Plan)
    requires Relisted(a, b) && !Implicit(a.steps) && Compiles(a, given, registry)
    requires BoundSteps(a, given).Ok? && PlanOf(a, BoundSteps(a, given).value, registry, p)
    requires BoundSteps(b, given).Ok? && PlanOf(b, BoundSteps(b, given).value, registry, q)
    ensures p == q
  {
    RelistingCompiles(a, b, given, registry);
    var x, y := BoundSteps(a, given).value, BoundSteps(b, given).value;
    assert Implicit(b.steps) ==> Implicit(a.steps) by {
      SameMembers(a.steps, b.steps);
      RelistingKeepsGraph(b.steps, a.steps);
    }
    BindingKeepsGraph(a, x, registry, given);
    BindingKeepsGraph(b, y, registry, given);
    forall s ensures s in x <==> s in y {
      if s in x { BoundMember(a, b, given, registry, s); }
      if s in y { BoundMember(b, a, given, registry, s); }
    }
    ListingIsIrrelevant(x, y, {});
    PlansAgree(x, y, a, b, registry, p, q);
  }

  lemma {:induction false} PlansAgree(x: Steps, y: Steps, a: Recipe, b: Recipe, registry: Registry, p: Plan, q: Plan)
    requires DistinctIds(x) && !Implicit(x) && !Implicit(y) && (forall s :: s in x <==> s in y)
    requires Peel(x, {}) == Peel(y, {}) && a.name == b.name && a.app == b.app
    requires PlanOf(a, x, registry, p) && PlanOf(b, y, registry, q)
    ensures p == q
  {
    var m :| Timed(x, Timetable(m, p.waves)) && InOrder(x, m, p.steps, registry);
    var n :| Timed(y, Timetable(n, q.waves)) && InOrder(y, n, q.steps, registry);
    SamePlannedSteps(x, y, m, n, registry, p.steps, q.steps);
  }

  // ----- order_check

  function Reverse(steps: Steps): (r: Steps)
    ensures |r| == |steps| && forall k :: 0 <= k < |r| ==> r[k] == steps[|steps| - 1 - k]
    ensures multiset(r) == multiset(steps)
  {
    if steps == [] then []
    else
      assert steps == steps[..|steps| - 1] + [steps[|steps| - 1]];
      [steps[|steps| - 1]] + Reverse(steps[..|steps| - 1])
  }

  function Members(wave: seq<string>): set<string> { set id | id in wave }

  function WaveSets(waves: seq<seq<string>>): (r: seq<set<string>>)
    ensures |r| == |waves| && forall k :: 0 <= k < |r| ==> r[k] == Members(waves[k])
  {
    if waves == [] then [] else WaveSets(waves[..|waves| - 1]) + [Members(waves[|waves| - 1])]
  }

  datatype Check = Check(orderDependent: bool, forwardWaves: seq<seq<string>>, reverseWaves: seq<seq<string>>)

  /** Without needs, reversing two or more steps shows in the waves. */
  lemma {:induction false} ReversalShows(r: Recipe, given: Given, registry: Registry, p: Plan, q: Plan)
    requires Implicit(r.steps) && Compiles(r, given, registry)
    requires var b := r.(steps := Reverse(r.steps));
             && Compiles(b, given, registry)
             && BoundSteps(r, given).Ok? && PlanOf(r, BoundSteps(r, given).value, registry, p)
             && BoundSteps(b, given).Ok? && PlanOf(b, BoundSteps(b, given).value, registry, q)
    ensures WaveSets(p.waves) != WaveSets(q.waves) <==> |r.steps| >= 2
  {
    var b := r.(steps := Reverse(r.steps));
    SameMembers(r.steps, b.steps);
    RelistingKeepsGraph(r.steps, b.steps);
    ImplicitWaves(r, given, registry, p);
    ImplicitWaves(b, given, registry, q);
    assert DistinctIds(r.steps) by { assert ValidRecipe(r, registry); }
    hide Compiles, PlanOf, BoundSteps, Implicit, Acyclic;
    WaveEnds(r.steps, p.waves, q.waves);
  }

  lemma {:induction false} WaveEnds(steps: Steps, forward: seq<seq<string>>, backward: seq<seq<string>>)
    requires steps != [] && DistinctIds(steps) && |forward| == |backward| == |steps|
    requires forall k :: 0 <= k < |forward| ==> forward[k] == [steps[k].id]
    requires forall k :: 0 <= k < |backward| ==> backward[k] == [Reverse(steps)[k].id]
    ensures WaveSets(forward) != WaveSets(backward) <==> |steps| >= 2
  {
    var n := |steps|;
    assert WaveSets(forward)[0] == Members([steps[0].id]) && WaveSets(backward)[0] == Members([steps[n - 1].id]);
    assert steps[0].id in Members([steps[0].id]);
    if n >= 2 {
      assert steps[0].id != steps[n - 1].id;
      assert steps[0].id !in Members([steps[n - 1].id]);
    } else {
      assert forward[0] == backward[0];
    }
  }

  lemma {:induction false} BoundIds(r: Recipe, given: Given, registry: Registry)
    requires ValidRecipe(r, registry) && BoundSteps(r, given).Ok?
    ensures var x := BoundSteps(r, given).value;
            |x| == |r.steps| && forall k :: 0 <= k < |x| ==> x[k].id == r.steps[k].id
  {
    ValidatedBinds(r, registry, given);
    hide ApplyParams, ValidRecipe, SubstOp;
  }

  lemma {:induction false} ImplicitWaves(r: Recipe, given: Given, registry: Registry, p: Plan)
    requires Implicit(r.steps) && Compiles(r, given, registry)
    requires BoundSteps(r, given).Ok? && PlanOf(r, BoundSteps(r, given).value, registry, p)
    ensures |r.steps| > 0 && |p.waves| == |r.steps| && forall k :: 0 <= k < |p.waves| ==> p.waves[k] == [r.steps[k].id]
  {
    var x := BoundSteps(r, given).value;
    assert |r.steps| > 0 && ValidRecipe(r, registry);
    var order :| Timed(x, Timetable(order, p.waves)) && InOrder(x, order, p.steps, registry);
    assert Implicit(x) ==> p.waves == Singles(x);
    assert x == r.steps || (ApplyParams(r, given).Ok? && x == ApplyParams(r, given).value.steps);
    hide *;
    BindingKeepsGraph(r, x, registry, given);
    BoundIds(r, given, registry);
  }

  /** Order dependence is reported exactly for two or more steps without any needs. */
  method CheckOrder(r: Recipe, given: Given, registry: Registry) returns (c: Result<Check>)
    ensures c.Ok? <==> Compiles(r, given, registry)
    ensures c.Ok? ==> (c.value.orderDependent <==> Implicit(r.steps) && |r.steps| >= 2)
  {
    var forward := CompilePlan(r, given, registry);
    if forward.Err? { return Err(forward.error); }
    var reversed := r.(steps := Reverse(r.steps));
    var backward := CompilePlan(reversed, given, registry);
    RelistingCompiles(r, reversed, given, registry);
    var p := forward.value;
    match backward
    case Err(_) =>
      assert false;
    case Ok(q) =>
      if Implicit(r.steps) {
        ReversalShows(r, given, registry, p, q);
      } else {
        ListingDoesNotMatter(r, reversed, given, registry, p, q);
      }
      c := Ok(Check(WaveSets(p.waves) != WaveSets(q.waves), p.waves, q.waves));
  }
}
