/** Dependency waves of a recipe, defined on the set of its steps, and when they cover it. */
module Waves {
  import opened Protocol

  type Steps = seq<RecipeStep>

  predicate DistinctIds(steps: Steps)
  {
    forall i, j :: 0 <= i < j < |steps| ==> steps[i].id != steps[j].id
  }

  function IdsOf(steps: Steps): set<string>
  {
    set s | s in steps :: s.id
  }

  predicate Needs(steps: Steps, x: string, y: string)
  {
    exists s :: s in steps && s.id == x && y in s.needs
  }

  /** Every need names a step. */
  predicate KnownNeeds(steps: Steps)
  {
    forall s :: s in steps ==> forall n :: n in s.needs ==> n in IdsOf(steps)
  }

  /** Steps not done whose needs all are. */
  function Ready(steps: Steps, done: set<string>): set<string>
  {
    set s | s in steps && s.id !in done && (forall n :: n in s.needs ==> n in done) :: s.id
  }

  /** The successive ready sets. */
  function Peel(steps: Steps, done: set<string>): seq<set<string>>
    decreases IdsOf(steps) - done
  {
    var r := Ready(steps, done);
    if r == {} then []
    else
      assert r <= IdsOf(steps) - done;
      [r] + Peel(steps, done + r)
  }

  function Union(ws: seq<set<string>>): set<string>
  {
    if ws == [] then {} else ws[0] + Union(ws[1..])
  }

  /** All steps are reached. */
  predicate Covered(steps: Steps)
  {
    Union(Peel(steps, {})) == IdsOf(steps)
  }

  // ----- what the waves are

  lemma {:induction false} UnionHolds(ws: seq<set<string>>, x: string)
    ensures x in Union(ws) <==> exists w :: 0 <= w < |ws| && x in ws[w]
  {
    if ws != [] {
      UnionHolds(ws[1..], x);
      if x in Union(ws[1..]) {
        var w :| 0 <= w < |ws[1..]| && x in ws[1..][w];
        assert x in ws[w + 1];
      }
      if w :| 0 <= w < |ws| && x in ws[w] {
        if w > 0 { assert x in ws[1..][w - 1]; }
      }
    }
  }

  /** A step in wave `w` has all its needs done before it, and one of them in wave `w - 1`. */
  lemma {:induction false} WavesAreLevels(steps: Steps, done: set<string>, w: nat, x: string, y: string)
    requires DistinctIds(steps) && w < |Peel(steps, done)| && x in Peel(steps, done)[w]
    ensures x in IdsOf(steps) && x !in done + Union(Peel(steps, done)[..w])
    ensures Needs(steps, x, y) ==> y in done + Union(Peel(steps, done)[..w])
    ensures w > 0 ==> exists n :: Needs(steps, x, n) && n in Peel(steps, done)[w - 1]
    decreases w
  {
    var ws, r := Peel(steps, done), Ready(steps, done);
    assert ws == [r] + Peel(steps, done + r);
    if w == 0 {
      var s :| s in steps && s.id == x && s.id !in done && forall n :: n in s.needs ==> n in done;
      SameStep(steps, s, x);
      assert ws[..0] == [];
    } else {
      var rest := Peel(steps, done + r);
      WavesAreLevels(steps, done + r, w - 1, x, y);
      assert ws[..w] == [r] + rest[..w - 1];
      assert Union(ws[..w]) == r + Union(rest[..w - 1]) by { assert ([r] + rest[..w - 1])[1..] == rest[..w - 1]; }
      assert done + r + Union(rest[..w - 1]) == done + Union(ws[..w]);
      if w == 1 {
        var s :| s in steps && s.id == x && s.id !in done + r && forall n :: n in s.needs ==> n in done + r;
        assert x !in r;
        var n :| n in s.needs && n !in done;
        assert Needs(steps, x, n) && n in ws[0];
      }
    }
  }

  /** A step's wave is 0 if it needs nothing, and otherwise one more than the latest wave of its needs. */
  lemma {:induction false} WaveIsOneAboveItsNeeds(steps: Steps, w: nat, x: string)
    requires DistinctIds(steps) && w < |Peel(steps, {})| && x in Peel(steps, {})[w]
    ensures w == 0 <==> !exists y :: Needs(steps, x, y)
    ensures forall y, v :: Needs(steps, x, y) && 0 <= v < |Peel(steps, {})| && y in Peel(steps, {})[v] ==> v < w
    ensures w > 0 ==> exists y :: Needs(steps, x, y) && y in Peel(steps, {})[w - 1]
  {
    var ws := Peel(steps, {});
    WavesAreLevels(steps, {}, w, x, "");
    forall y | Needs(steps, x, y) ensures y in Union(ws[..w]) { WavesAreLevels(steps, {}, w, x, y); }
    forall y, v | Needs(steps, x, y) && 0 <= v < |ws| && y in ws[v] ensures v < w {
      if v >= w {
        WavesAreLevels(steps, {}, v, y, "");
        UnionGrows(ws, w, v, y);
      }
    }
    if w == 0 { assert ws[..0] == [] && Union(ws[..0]) == {}; }
  }

  lemma {:induction false} UnionGrows(ws: seq<set<string>>, w: nat, v: nat, y: string)
    requires w <= v <= |ws| && y in Union(ws[..w])
    ensures y in Union(ws[..v])
  {
    UnionHolds(ws[..w], y);
    UnionHolds(ws[..v], y);
    var k :| 0 <= k < w && y in ws[..w][k];
    assert ws[..v][k] == ws[..w][k];
  }

  lemma {:induction false} SameStep(steps: Steps, s: RecipeStep, x: string)
    requires DistinctIds(steps) && s in steps && s.id == x
    ensures forall t :: t in steps && t.id == x ==> t == s
  {
  }

  // ----- they cover the recipe exactly when its needs have no cycle

  /** A closed chain in which each step needs the next one. */
  ghost predicate Cycle(steps: Steps, c: seq<string>)
  {
    && c != []
    && (forall k :: 0 <= k < |c| - 1 ==> Needs(steps, c[k], c[k + 1]))
    && Needs(steps, c[|c| - 1], c[0])
  }

  ghost predicate Acyclic(steps: Steps)
  {
    !exists c :: Cycle(steps, c)
  }

  /** Each link of a chain of needs lies in an earlier wave. */
  lemma {:induction false} ChainDescends(steps: Steps, c: seq<string>, k: nat, w: nat) returns (v: nat)
    requires DistinctIds(steps) && k < |c| && w < |Peel(steps, {})| && c[0] in Peel(steps, {})[w]
    requires forall i :: 0 <= i < |c| - 1 ==> Needs(steps, c[i], c[i + 1])
    ensures v + k <= w && c[k] in Peel(steps, {})[v]
    decreases k
  {
    if k == 0 {
      v := w;
    } else {
      v := ChainDescends(steps, c, k - 1, w);
      v := NeedIsEarlier(steps, v, c[k - 1], c[k]);
    }
  }

  lemma {:induction false} NeedIsEarlier(steps: Steps, w: nat, x: string, y: string) returns (v: nat)
    requires DistinctIds(steps) && w < |Peel(steps, {})| && x in Peel(steps, {})[w] && Needs(steps, x, y)
    ensures v < w && y in Peel(steps, {})[v]
  {
    var ws := Peel(steps, {});
    WavesAreLevels(steps, {}, w, x, y);
    UnionHolds(ws[..w], y);
    v :| 0 <= v < w && y in ws[..w][v];
  }

  lemma {:induction false} CoveredIsAcyclic(steps: Steps)
    requires DistinctIds(steps) && Covered(steps)
    ensures Acyclic(steps)
  {
    if c :| Cycle(steps, c) {
      var ws, last := Peel(steps, {}), c[|c| - 1];
      assert c[0] in IdsOf(steps) by {
        if |c| > 1 { assert Needs(steps, c[0], c[1]); }
      }
      UnionHolds(ws, c[0]);
      var w :| 0 <= w < |ws| && c[0] in ws[w];
      var closed := c + [c[0]];
      forall i | 0 <= i < |closed| - 1 ensures Needs(steps, closed[i], closed[i + 1]) {
        if i < |c| - 1 { assert Needs(steps, c[i], c[i + 1]); }
      }
      var v := ChainDescends(steps, closed, |c|, w);
      UnionHolds(ws[..w], c[0]);
      assert ws[..w][v] == ws[v];
      WavesAreLevels(steps, {}, w, c[0], c[0]);
    }
  }

  /** The steps the waves never reach each need another such step. */
  lemma {:induction false} StuckNeedsStuck(steps: Steps, done: set<string>, x: string) returns (n: string)
    requires DistinctIds(steps) && KnownNeeds(steps)
    requires x in IdsOf(steps) - done - Union(Peel(steps, done))
    ensures Needs(steps, x, n) && n in IdsOf(steps) - done - Union(Peel(steps, done))
    decreases IdsOf(steps) - done
  {
    var r := Ready(steps, done);
    if r == {} {
      var s :| s in steps && s.id == x;
      assert x !in r;
      n :| n in s.needs && n !in done;
    } else {
      var rest := Peel(steps, done + r);
      assert Peel(steps, done) == [r] + rest;
      assert Union([r] + rest) == r + Union(rest) by { assert ([r] + rest)[1..] == rest; }
      n := StuckNeedsStuck(steps, done + r, x);
    }
  }

  /** A chain of needs of any length among the stuck steps. */
  lemma {:induction false} StuckChain(steps: Steps, x: string, len: nat) returns (c: seq<string>)
    requires DistinctIds(steps) && KnownNeeds(steps) && x in IdsOf(steps) - Union(Peel(steps, {}))
    ensures |c| == len + 1 && c[0] == x
    ensures forall k :: 0 <= k < |c| ==> c[k] in IdsOf(steps)
    ensures forall k :: 0 <= k < |c| - 1 ==> Needs(steps, c[k], c[k + 1])
    decreases len
  {
    if len == 0 {
      c := [x];
    } else {
      var n := StuckNeedsStuck(steps, {}, x);
      var tail := StuckChain(steps, n, len - 1);
      c := [x] + tail;
    }
  }

  lemma {:induction false} Pigeonhole(c: seq<string>, s: set<string>) returns (i: nat, j: nat)
    requires |c| > |s| && forall k :: 0 <= k < |c| ==> c[k] in s
    ensures i < j < |c| && c[i] == c[j]
    decreases |c|
  {
    var last := |c| - 1;
    if k :| 0 <= k < last && c[k] == c[last] {
      i, j := k, last;
    } else {
      i, j := Pigeonhole(c[..last], s - {c[last]});
    }
  }

  lemma {:induction false} StuckMakesCycle(steps: Steps, x: string) returns (loop: seq<string>)
    requires DistinctIds(steps) && KnownNeeds(steps) && x in IdsOf(steps) - Union(Peel(steps, {}))
    ensures Cycle(steps, loop)
  {
    var c := StuckChain(steps, x, |IdsOf(steps)|);
    hide Peel, Union, IdsOf;
    var i, j := Pigeonhole(c, IdsOf(steps));
    loop := c[i..j];
    assert Needs(steps, c[j - 1], c[j]);
    forall k | 0 <= k < |loop| - 1 ensures Needs(steps, loop[k], loop[k + 1]) {
      assert Needs(steps, c[i + k], c[i + k + 1]);
    }
  }

  lemma {:induction false} AcyclicIsCovered(steps: Steps)
    requires DistinctIds(steps) && KnownNeeds(steps) && Acyclic(steps)
    ensures Covered(steps)
  {
    UnionWithin(steps, {});
    if !Covered(steps) {
      var stuck := IdsOf(steps) - Union(Peel(steps, {}));
      assert stuck != {} || IdsOf(steps) <= Union(Peel(steps, {}));
      var x :| x in stuck;
      var loop := StuckMakesCycle(steps, x);
    }
  }

  lemma {:induction false} UnionWithin(steps: Steps, done: set<string>)
    ensures Union(Peel(steps, done)) <= IdsOf(steps)
    decreases IdsOf(steps) - done
  {
    var r := Ready(steps, done);
    if r != {} {
      UnionWithin(steps, done + r);
      assert ([r] + Peel(steps, done + r))[1..] == Peel(steps, done + r);
    }
  }

  /** For known needs, the waves cover the recipe exactly when no chain of needs closes. */
  lemma {:induction false} CoveredIffAcyclic(steps: Steps)
    requires DistinctIds(steps) && KnownNeeds(steps)
    ensures Covered(steps) <==> Acyclic(steps)
  {
    if Covered(steps) { CoveredIsAcyclic(steps); }
    if Acyclic(steps) { AcyclicIsCovered(steps); }
  }

  /** The waves depend only on which steps there are, not on their listing. */
  lemma {:induction false} ListingIsIrrelevant(a: Steps, b: Steps, done: set<string>)
    requires forall s :: s in a <==> s in b
    ensures IdsOf(a) == IdsOf(b) && Peel(a, done) == Peel(b, done)
    decreases IdsOf(a) - done
  {
    assert Ready(a, done) == Ready(b, done);
    if Ready(a, done) != {} { ListingIsIrrelevant(a, b, done + Ready(a, done)); }
  }
}
