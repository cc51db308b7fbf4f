/** The planner's scheduler: indegree counting over an adjacency list, wave by wave. */
module Schedule {
  import opened Ordering
  import opened Waves

  datatype Timetable = Timetable(order: seq<nat>, waves: seq<seq<string>>)

  ghost function SortedWaves(ws: seq<set<string>>): seq<seq<string>>
  {
    if ws == [] then [] else [SortedKeys(ws[0])] + SortedWaves(ws[1..])
  }

  function Flatten(waves: seq<seq<string>>): seq<string>
  {
    if waves == [] then [] else waves[0] + Flatten(waves[1..])
  }

  /** No step lists a need: the listing itself is the order. */
  predicate Implicit(steps: Steps)
  {
    forall i :: 0 <= i < |steps| ==> steps[i].needs == []
  }

  predicate Positions(steps: Steps, order: seq<nat>)
  {
    forall k :: 0 <= k < |order| ==> order[k] < |steps|
  }

  function Named(steps: Steps, order: seq<nat>): (ids: seq<string>)
    requires Positions(steps, order)
    ensures |ids| == |order| && forall k :: 0 <= k < |ids| ==> ids[k] == steps[order[k]].id
  {
    if order == [] then [] else Named(steps, order[..|order| - 1]) + [steps[order[|order| - 1]].id]
  }

  function Singles(steps: Steps): (ws: seq<seq<string>>)
    ensures |ws| == |steps| && forall k :: 0 <= k < |ws| ==> ws[k] == [steps[k].id]
  {
    if steps == [] then [] else Singles(steps[..|steps| - 1]) + [[steps[|steps| - 1].id]]
  }

  // ----- counting unfinished needs

  function Pending(needs: seq<string>, done: set<string>): nat
  {
    if needs == [] then 0
    else Pending(needs[..|needs| - 1], done) + if needs[|needs| - 1] in done then 0 else 1
  }

  lemma {:induction false} PendingDrops(needs: seq<string>, done: set<string>, x: string)
    requires x !in done
    ensures Pending(needs, done + {x}) + multiset(needs)[x] == Pending(needs, done)
  {
    if needs != [] {
      var front, last := needs[..|needs| - 1], needs[|needs| - 1];
      assert needs == front + [last];
      PendingDrops(front, done, x);
    }
  }

  lemma {:induction false} PendingZero(needs: seq<string>, done: set<string>)
    ensures Pending(needs, done) == 0 <==> forall n :: n in needs ==> n in done
  {
    if needs != [] {
      var front, last := needs[..|needs| - 1], needs[|needs| - 1];
      assert needs == front + [last];
      PendingZero(front, done);
    }
  }

  lemma {:induction false} PendingAll(needs: seq<string>)
    ensures Pending(needs, {}) == |needs|
  {
    if needs != [] { PendingAll(needs[..|needs| - 1]); }
  }

  predicate Counts(steps: Steps, indegree: seq<nat>, done: set<string>)
  {
    |indegree| == |steps| &&
    forall j :: 0 <= j < |steps| ==> indegree[j] == Pending(steps[j].needs, done)
  }

  /** `adj[j]` lists each step once for every time it names step `j` as a need. */
  predicate Linked(steps: Steps, adj: seq<seq<nat>>)
  {
    |adj| == |steps| &&
    forall j :: 0 <= j < |steps| ==> Dependents(steps, steps[j].id, adj[j])
  }

  predicate Dependents(steps: Steps, id: string, list: seq<nat>)
  {
    && (forall m :: 0 <= m < |list| ==> list[m] < |steps|)
    && forall k :: 0 <= k < |steps| ==> multiset(list)[k] == multiset(steps[k].needs)[id]
  }

  // ----- building the graph

  /** The graph after step `i` has had its first `m` needs entered. */
  predicate Entered(steps: Steps, i: nat, m: nat, indegree: seq<nat>, adj: seq<seq<nat>>)
    requires i < |steps| ==> m <= |steps[i].needs|
  {
    && |indegree| == |adj| == |steps|
    && (forall k :: 0 <= k < |steps| ==> indegree[k] == if k < i then |steps[k].needs| else if k == i then m else 0)
    && (forall j :: 0 <= j < |steps| ==> EnteredAt(steps, i, m, steps[j].id, adj[j]))
  }

  predicate EnteredAt(steps: Steps, i: nat, m: nat, id: string, list: seq<nat>)
    requires i < |steps| ==> m <= |steps[i].needs|
  {
    && (forall e :: 0 <= e < |list| ==> list[e] < |steps|)
    && forall k :: 0 <= k < |steps| ==>
         multiset(list)[k] == if k < i then multiset(steps[k].needs)[id]
                              else if k == i then multiset(steps[k].needs[..m])[id] else 0
  }

  predicate Indexes(steps: Steps, index: map<string, nat>)
  {
    && (forall x :: x in index ==> index[x] < |steps| && steps[index[x]].id == x)
    && (forall i :: 0 <= i < |steps| ==> steps[i].id in index)
  }

  method IndexById(steps: Steps) returns (index: map<string, nat>)
    ensures Indexes(steps, index)
  {
    index := map[];
    for i := 0 to |steps|
      invariant forall x :: x in index ==> index[x] < i && steps[index[x]].id == x
      invariant forall k :: 0 <= k < i ==> steps[k].id in index
    {
      index := index[steps[i].id := i];
    }
  }

  lemma {:induction false} EnterOne(steps: Steps, i: nat, m: nat, id: string, list: seq<nat>)
    requires i < |steps| && m < |steps[i].needs| && EnteredAt(steps, i, m, id, list)
    ensures EnteredAt(steps, i, m + 1, id, if steps[i].needs[m] == id then list + [i] else list)
  {
    var needs := steps[i].needs;
    assert needs[..m + 1] == needs[..m] + [needs[m]];
  }

  /** One turn of the inner loop: `adj[j].push(i); indegree[i] += 1`. */
  method EnterNeed(steps: Steps, j: nat, i: nat, m: nat, indegree: seq<nat>, adj: seq<seq<nat>>)
    returns (indegree': seq<nat>, adj': seq<seq<nat>>)
    requires DistinctIds(steps) && i < |steps| && m < |steps[i].needs|
    requires j < |steps| && steps[j].id == steps[i].needs[m]
    requires Entered(steps, i, m, indegree, adj)
    ensures Entered(steps, i, m + 1, indegree', adj')
  {
    adj' := adj[j := adj[j] + [i]];
    indegree' := indegree[i := indegree[i] + 1];
    hide EnteredAt;
    forall k | 0 <= k < |steps| ensures EnteredAt(steps, i, m + 1, steps[k].id, adj'[k]) {
      EnterOne(steps, i, m, steps[k].id, adj[k]);
      assert k < j ==> steps[k].id != steps[j].id;
      assert j < k ==> steps[j].id != steps[k].id;
    }
  }

  lemma {:induction false} NextStep(steps: Steps, i: nat, indegree: seq<nat>, adj: seq<seq<nat>>)
    requires i < |steps| && Entered(steps, i, |steps[i].needs|, indegree, adj)
    ensures Entered(steps, i + 1, 0, indegree, adj)
  {
    forall j | 0 <= j < |steps| ensures EnteredAt(steps, i + 1, 0, steps[j].id, adj[j]) {
      assert EnteredAt(steps, i, |steps[i].needs|, steps[j].id, adj[j]);
      assert steps[i].needs[..|steps[i].needs|] == steps[i].needs;
      if i + 1 < |steps| { assert steps[i + 1].needs[..0] == []; }
    }
  }

  /** Enters one step's needs, failing on the first that names no step. */
  method EnterNeeds(steps: Steps, index: map<string, nat>, i: nat, indegree0: seq<nat>, adj0: seq<seq<nat>>)
    returns (known: bool, indegree: seq<nat>, adj: seq<seq<nat>>)
    requires DistinctIds(steps) && Indexes(steps, index) && i < |steps| && Entered(steps, i, 0, indegree0, adj0)
    ensures known <==> forall n :: n in steps[i].needs ==> n in index
    ensures known ==> Entered(steps, i + 1, 0, indegree, adj)
  {
    hide Entered;
    indegree, adj := indegree0, adj0;
    var needs := steps[i].needs;
    for m := 0 to |needs|
      invariant Entered(steps, i, m, indegree, adj)
      invariant forall n :: n in needs[..m] ==> n in index
    {
      assert needs[..m + 1] == needs[..m] + [needs[m]];
      if needs[m] !in index {
        return false, indegree, adj;
      }
      indegree, adj := EnterNeed(steps, index[needs[m]], i, m, indegree, adj);
    }
    assert needs[..|needs|] == needs;
    NextStep(steps, i, indegree, adj);
    known := true;
  }

  lemma {:induction false} GraphComplete(steps: Steps, indegree: seq<nat>, adj: seq<seq<nat>>)
    requires Entered(steps, |steps|, 0, indegree, adj)
    ensures Counts(steps, indegree, {}) && Linked(steps, adj)
  {
    forall j | 0 <= j < |steps| ensures Dependents(steps, steps[j].id, adj[j]) {
      assert EnteredAt(steps, |steps|, 0, steps[j].id, adj[j]);
    }
    forall j | 0 <= j < |steps| ensures indegree[j] == Pending(steps[j].needs, {}) { PendingAll(steps[j].needs); }
  }

  lemma {:induction false} IndexHasIds(steps: Steps, index: map<string, nat>)
    requires Indexes(steps, index)
    ensures forall x :: x in index <==> x in IdsOf(steps)
  {
    forall x ensures x in index <==> x in IdsOf(steps) {
      if s :| s in steps && s.id == x { var k :| 0 <= k < |steps| && steps[k] == s; }
    }
  }

  lemma {:induction false} NothingEntered(steps: Steps, indegree: seq<nat>, adj: seq<seq<nat>>)
    requires |indegree| == |adj| == |steps| && forall k :: 0 <= k < |steps| ==> indegree[k] == 0 && adj[k] == []
    ensures Entered(steps, 0, 0, indegree, adj)
  {
  }

  method BuildGraph(steps: Steps) returns (known: bool, indegree: seq<nat>, adj: seq<seq<nat>>)
    requires DistinctIds(steps)
    ensures known <==> KnownNeeds(steps)
    ensures known ==> Counts(steps, indegree, {}) && Linked(steps, adj)
  {
    hide Entered, DistinctIds, Counts, Linked, Indexes, IdsOf;
    var index := IndexById(steps);
    IndexHasIds(steps, index);
    indegree := seq(|steps|, _ => 0);
    adj := seq(|steps|, _ => []);
    NothingEntered(steps, indegree, adj);
    for i := 0 to |steps|
      invariant Entered(steps, i, 0, indegree, adj)
      invariant forall k :: 0 <= k < i ==> forall n :: n in steps[k].needs ==> n in index
    {
      known, indegree, adj := EnterNeeds(steps, index, i, indegree, adj);
      if !known {
        assert steps[i] in steps;
        return;
      }
    }
    known := true;
    GraphComplete(steps, indegree, adj);
  }

  // ----- running the waves

  predicate DistinctNats(s: seq<nat>)
  {
    forall i, j :: 0 <= i < j < |s| ==> s[i] != s[j]
  }

  predicate NewlyFree(before: seq<nat>, after: seq<nat>, j: nat)
    requires |before| == |after|
  {
    j < |before| && before[j] > 0 && after[j] == 0
  }

  /** How far the dependents of one finished step have been told. */
  ghost predicate Told(steps: Steps, before: seq<nat>, now: seq<nat>, list: seq<nat>)
  {
    |before| == |now| == |steps| &&
    forall j :: 0 <= j < |steps| ==> now[j] + multiset(list)[j] == before[j]
  }

  ghost predicate Frees(before: seq<nat>, now: seq<nat>, freed: seq<nat>)
  {
    |before| == |now| && DistinctNats(freed) && forall j :: j in freed <==> NewlyFree(before, now, j)
  }

  lemma {:induction false} TellOne(steps: Steps, before: seq<nat>, now: seq<nat>, list: seq<nat>, k: nat)
    requires k < |list| && list[k] < |steps| && Told(steps, before, now, list[..k])
    requires forall j :: 0 <= j < |steps| ==> multiset(list)[j] <= before[j]
    ensures now[list[k]] > 0 && Told(steps, before, now[list[k] := now[list[k]] - 1], list[..k + 1])
  {
    assert list[..k + 1] == list[..k] + [list[k]];
    assert list == list[..k + 1] + list[k + 1..];
    assert multiset(list[..k + 1])[list[k]] <= multiset(list)[list[k]];
  }

  lemma {:induction false} FreeOne(before: seq<nat>, now: seq<nat>, freed: seq<nat>, j: nat)
    requires Frees(before, now, freed) && j < |now| && 0 < now[j] <= before[j]
    ensures Frees(before, now[j := now[j] - 1], if now[j] == 1 then freed + [j] else freed)
  {
    assert j !in freed;
    var told := now[j := now[j] - 1];
    forall m ensures NewlyFree(before, told, m) <==> NewlyFree(before, now, m) || (m == j && now[j] == 1) {}
  }

  /** Tells every dependent of a finished step, collecting those that become free. */
  method Relax(steps: Steps, i: nat, indegree0: seq<nat>, list: seq<nat>, ghost done: set<string>)
    returns (indegree: seq<nat>, freed: seq<nat>)
    requires i < |steps| && steps[i].id !in done && Dependents(steps, steps[i].id, list)
    requires Counts(steps, indegree0, done)
    ensures Counts(steps, indegree, done + {steps[i].id})
    ensures Frees(indegree0, indegree, freed)
  {
    indegree, freed := indegree0, [];
    DependentsCount(steps, i, indegree0, list, done);
    assert list[..0] == [];
    for k := 0 to |list|
      invariant Told(steps, indegree0, indegree, list[..k])
      invariant Frees(indegree0, indegree, freed)
    {
      TellOne(steps, indegree0, indegree, list, k);
      FreeOne(indegree0, indegree, freed, list[k]);
      var j := list[k];
      indegree := indegree[j := indegree[j] - 1];
      if indegree[j] == 0 {
        freed := freed + [j];
      }
    }
    assert list[..|list|] == list;
  }

  lemma {:induction false} DependentsCount(steps: Steps, i: nat, indegree: seq<nat>, list: seq<nat>, done: set<string>)
    requires i < |steps| && steps[i].id !in done && Dependents(steps, steps[i].id, list)
    requires Counts(steps, indegree, done)
    ensures forall j :: 0 <= j < |steps| ==>
              Pending(steps[j].needs, done + {steps[i].id}) + multiset(list)[j] == indegree[j]
  {
    forall j | 0 <= j < |steps|
      ensures Pending(steps[j].needs, done + {steps[i].id}) + multiset(list)[j] == indegree[j]
    {
      PendingDrops(steps[j].needs, done, steps[i].id);
    }
  }

  function IdSet(steps: Steps, order: seq<nat>): set<string>
    requires Positions(steps, order)
  {
    set k | k in order :: steps[k].id
  }

  /** Finishes the steps of a wave in order; `next` is what becomes ready. */
  method RunWave(steps: Steps, wave: seq<nat>, indegree0: seq<nat>, adj: seq<seq<nat>>, ghost done: set<string>)
    returns (indegree: seq<nat>, next: seq<nat>)
    requires DistinctIds(steps) && Positions(steps, wave) && DistinctNats(wave)
    requires IdSet(steps, wave) !! done && Linked(steps, adj) && Counts(steps, indegree0, done)
    ensures Counts(steps, indegree, done + IdSet(steps, wave))
    ensures Frees(indegree0, indegree, next)
  {
    indegree, next := indegree0, [];
    assert done + IdSet(steps, wave[..0]) == done;
    assert Frees(indegree, indegree, []) && Shrunk(indegree, indegree);
    hide Counts, Frees, Shrunk, Dependents, IdSet, DistinctNats, DistinctIds;
    for k := 0 to |wave|
      invariant Counts(steps, indegree, done + IdSet(steps, wave[..k]))
      invariant Frees(indegree0, indegree, next)
      invariant Shrunk(indegree0, indegree)
    {
      var i := wave[k];
      ghost var before := done + IdSet(steps, wave[..k]);
      WaveTurn(steps, wave, k, done);
      var relaxed, freed := Relax(steps, i, indegree, adj[i], before);
      CountsShrink(steps, indegree, relaxed, before, {steps[i].id});
      FreesTwice(indegree0, indegree, relaxed, next, freed);
      indegree, next := relaxed, next + freed;
    }
    assert wave[..|wave|] == wave;
  }

  ghost predicate Shrunk(before: seq<nat>, now: seq<nat>)
  {
    |before| == |now| && forall j :: 0 <= j < |now| ==> now[j] <= before[j]
  }

  lemma {:induction false} FreesTwice(a: seq<nat>, b: seq<nat>, c: seq<nat>, first: seq<nat>, second: seq<nat>)
    requires Frees(a, b, first) && Frees(b, c, second) && Shrunk(a, b) && Shrunk(b, c)
    ensures Frees(a, c, first + second) && Shrunk(a, c)
  {
    forall j ensures j in first + second <==> NewlyFree(a, c, j) {
      assert j in first <==> NewlyFree(a, b, j);
      assert j in second <==> NewlyFree(b, c, j);
    }
    forall x, y | 0 <= x < |first| && 0 <= y < |second| ensures first[x] != second[y] {
      assert first[x] in first && second[y] in second;
    }
  }

  lemma {:induction false} PendingShrinks(needs: seq<string>, done: set<string>, more: set<string>)
    ensures Pending(needs, done + more) <= Pending(needs, done)
  {
    if needs != [] { PendingShrinks(needs[..|needs| - 1], done, more); }
  }

  lemma {:induction false} CountsShrink(steps: Steps, before: seq<nat>, now: seq<nat>, done: set<string>,
                                        more: set<string>)
    requires Counts(steps, before, done) && Counts(steps, now, done + more)
    ensures Shrunk(before, now)
  {
    forall j | 0 <= j < |steps| ensures now[j] <= before[j] { PendingShrinks(steps[j].needs, done, more); }
  }

  lemma {:induction false} WaveTurn(steps: Steps, wave: seq<nat>, k: nat, done: set<string>)
    requires DistinctIds(steps) && Positions(steps, wave) && DistinctNats(wave) && k < |wave|
    requires IdSet(steps, wave) !! done
    ensures steps[wave[k]].id !in done + IdSet(steps, wave[..k])
    ensures done + IdSet(steps, wave[..k]) + {steps[wave[k]].id} == done + IdSet(steps, wave[..k + 1])
  {
    assert wave[..k + 1] == wave[..k] + [wave[k]];
    assert wave[k] in wave && steps[wave[k]].id in IdSet(steps, wave);
    forall j | j in wave[..k] ensures steps[j].id != steps[wave[k]].id {
      var m :| 0 <= m < k && wave[m] == j;
      assert wave[m] != wave[k];
      assert j < wave[k] ==> steps[j].id != steps[wave[k]].id;
      assert wave[k] < j ==> steps[wave[k]].id != steps[j].id;
    }
  }

  // ----- the scheduler

  ghost predicate ReadyIs(steps: Steps, ready: seq<nat>, done: set<string>)
  {
    DistinctNats(ready) &&
    forall j: nat :: j in ready <==> j < |steps| && steps[j].id !in done && Pending(steps[j].needs, done) == 0
  }

  ghost predicate Closed(steps: Steps, done: set<string>)
  {
    forall j :: 0 <= j < |steps| && steps[j].id in done ==> Pending(steps[j].needs, done) == 0
  }

  lemma {:induction false} SameId(steps: Steps, i: nat, j: nat)
    requires DistinctIds(steps) && i < |steps| && j < |steps| && steps[i].id == steps[j].id
    ensures i == j
  {
  }

  lemma {:induction false} ReadyIdsAreReady(steps: Steps, ready: seq<nat>, done: set<string>)
    requires ReadyIs(steps, ready, done)
    ensures Positions(steps, ready) && IdSet(steps, ready) == Ready(steps, done) && IdSet(steps, ready) !! done
  {
    assert forall k :: 0 <= k < |ready| ==> ready[k] in ready;
    forall x ensures x in IdSet(steps, ready) <==> x in Ready(steps, done) {
      if s :| s in steps && s.id == x && s.id !in done && forall n :: n in s.needs ==> n in done {
        var k :| 0 <= k < |steps| && steps[k] == s;
        PendingZero(steps[k].needs, done);
        assert k in ready;
      }
      if k :| k in ready && steps[k].id == x { PendingZero(steps[k].needs, done); }
    }
  }

  lemma {:induction false} NextReady(steps: Steps, ready: seq<nat>, done: set<string>, before: seq<nat>,
                                     now: seq<nat>, next: seq<nat>)
    requires DistinctIds(steps) && ReadyIs(steps, ready, done) && Closed(steps, done) && Positions(steps, ready)
    requires Counts(steps, before, done) && Counts(steps, now, done + IdSet(steps, ready)) && Frees(before, now, next)
    ensures ReadyIs(steps, next, done + IdSet(steps, ready)) && Closed(steps, done + IdSet(steps, ready))
  {
    var after := done + IdSet(steps, ready);
    CountsShrink(steps, before, now, done, IdSet(steps, ready));
    forall j | 0 <= j < |steps| ensures steps[j].id in IdSet(steps, ready) <==> j in ready {
      if k :| k in ready && steps[k].id == steps[j].id { SameId(steps, k, j); }
    }
    forall j: nat ensures j in next <==> j < |steps| && steps[j].id !in after && Pending(steps[j].needs, after) == 0 {
      assert j in next <==> NewlyFree(before, now, j);
    }
  }

  method PositionsById(steps: Steps, ready: seq<nat>) returns (at: map<string, nat>)
    requires Positions(steps, ready)
    ensures at.Keys == IdSet(steps, ready)
    ensures forall x :: x in at ==> at[x] < |steps| && steps[at[x]].id == x
  {
    at := map[];
    for k := 0 to |ready|
      invariant at.Keys == IdSet(steps, ready[..k])
      invariant forall x :: x in at ==> at[x] < |steps| && steps[at[x]].id == x
    {
      assert ready[..k + 1] == ready[..k] + [ready[k]];
      at := at[steps[ready[k]].id := ready[k]];
    }
    assert ready[..|ready|] == ready;
  }

  lemma {:induction false} NamedSnoc(steps: Steps, wave: seq<nat>, j: nat)
    requires Positions(steps, wave) && j < |steps|
    ensures Positions(steps, wave + [j]) && Named(steps, wave + [j]) == Named(steps, wave) + [steps[j].id]
  {
    assert (wave + [j])[..|wave|] == wave;
  }

  /** `wave.sort_by_key(id)`. */
  method SortByIds(steps: Steps, ready: seq<nat>) returns (wave: seq<nat>)
    requires DistinctIds(steps) && Positions(steps, ready)
    ensures Positions(steps, wave) && DistinctNats(wave)
    ensures IdSet(steps, wave) == IdSet(steps, ready) && Named(steps, wave) == SortedKeys(IdSet(steps, ready))
  {
    var at := PositionsById(steps, ready);
    var keys := SortKeys(at.Keys);
    SortedKeysListing(at.Keys);
    wave := ListPositions(steps, at, keys);
    hide *;
    SortedListing(steps, wave, IdSet(steps, ready));
  }

  method ListPositions(steps: Steps, at: map<string, nat>, keys: seq<string>) returns (wave: seq<nat>)
    requires forall x :: x in keys ==> x in at && at[x] < |steps| && steps[at[x]].id == x
    ensures Positions(steps, wave) && Named(steps, wave) == keys
  {
    wave := [];
    for k := 0 to |keys|
      invariant Positions(steps, wave) && Named(steps, wave) == keys[..k]
    {
      assert keys[k] in keys;
      NamedSnoc(steps, wave, at[keys[k]]);
      wave := wave + [at[keys[k]]];
    }
    assert keys[..|keys|] == keys;
  }

  lemma {:induction false} SortedListing(steps: Steps, wave: seq<nat>, ids: set<string>)
    requires Positions(steps, wave) && Named(steps, wave) == SortedKeys(ids)
    ensures DistinctNats(wave) && IdSet(steps, wave) == ids
  {
    SortedKeysListing(ids);
    NamesAreDistinct(steps, wave);
    NamedListsIdSet(steps, wave);
    forall x ensures x in IdSet(steps, wave) <==> x in ids {
      assert x in Named(steps, wave) <==> x in IdSet(steps, wave);
    }
  }

  lemma {:induction false} NamesAreDistinct(steps: Steps, wave: seq<nat>)
    requires Positions(steps, wave) && Ascending(Named(steps, wave))
    ensures DistinctNats(wave)
  {
    forall i, j | 0 <= i < j < |wave| ensures wave[i] != wave[j] {
      LessIsStrict(steps[wave[i]].id);
      assert Less(Named(steps, wave)[i], Named(steps, wave)[j]);
    }
  }

  lemma {:induction false} NamedListsIdSet(steps: Steps, wave: seq<nat>)
    requires Positions(steps, wave)
    ensures forall x :: x in Named(steps, wave) <==> x in IdSet(steps, wave)
  {
    forall x ensures x in Named(steps, wave) <==> x in IdSet(steps, wave) {
      if x in Named(steps, wave) {
        var k :| 0 <= k < |wave| && Named(steps, wave)[k] == x;
        assert wave[k] in wave;
      }
      if j :| j in wave && steps[j].id == x {
        var k :| 0 <= k < |wave| && wave[k] == j;
        assert Named(steps, wave)[k] == x;
      }
    }
  }

  /** `order` lists the finished steps, wave after wave. */
  ghost predicate Listing(steps: Steps, done: set<string>, order: seq<nat>, waves: seq<seq<string>>)
  {
    && Positions(steps, order) && DistinctNats(order) && IdSet(steps, order) == done
    && Named(steps, order) == Flatten(waves)
  }

  /** `waves` are the waves up to `done`. */
  ghost predicate Issued(steps: Steps, done: set<string>, waves: seq<seq<string>>)
  {
    && SortedWaves(Peel(steps, {})) == waves + SortedWaves(Peel(steps, done))
    && Union(Peel(steps, {})) == done + Union(Peel(steps, done))
  }

  lemma {:induction false} FlattenSnoc(waves: seq<seq<string>>, w: seq<string>)
    ensures Flatten(waves + [w]) == Flatten(waves) + w
  {
    if waves == [] {
      assert waves + [w] == [w];
    } else {
      assert (waves + [w])[1..] == waves[1..] + [w];
      FlattenSnoc(waves[1..], w);
    }
  }

  lemma {:induction false} NamedConcat(steps: Steps, a: seq<nat>, b: seq<nat>)
    requires Positions(steps, a) && Positions(steps, b)
    ensures Positions(steps, a + b) && Named(steps, a + b) == Named(steps, a) + Named(steps, b)
  {
  }

  lemma {:induction false} PeelWave(steps: Steps, done: set<string>)
    requires Ready(steps, done) != {}
    ensures var r := Ready(steps, done);
            && SortedWaves(Peel(steps, done)) == [SortedKeys(r)] + SortedWaves(Peel(steps, done + r))
            && Union(Peel(steps, done)) == r + Union(Peel(steps, done + r))
            && r <= IdsOf(steps) - done
  {
    var r := Ready(steps, done);
    assert ([r] + Peel(steps, done + r))[1..] == Peel(steps, done + r);
  }

  lemma {:induction false} OrderGrows(steps: Steps, order: seq<nat>, wave: seq<nat>)
    requires Positions(steps, order) && Positions(steps, wave) && DistinctNats(order) && DistinctNats(wave)
    requires IdSet(steps, wave) !! IdSet(steps, order)
    ensures DistinctNats(order + wave) && IdSet(steps, order + wave) == IdSet(steps, order) + IdSet(steps, wave)
  {
    forall i, j | 0 <= i < |order| && 0 <= j < |wave| ensures order[i] != wave[j] {
      assert order[i] in order && wave[j] in wave;
      assert steps[order[i]].id in IdSet(steps, order);
    }
  }

  lemma {:induction false} WaveIssued(steps: Steps, done: set<string>, waves: seq<seq<string>>)
    requires Issued(steps, done, waves) && Ready(steps, done) != {}
    ensures var r := Ready(steps, done); Issued(steps, done + r, waves + [SortedKeys(r)])
  {
    var r := Ready(steps, done);
    var rest := Peel(steps, done + r);
    PeelWave(steps, done);
    hide Ready, Peel, SortedWaves, Union;
    SeqAssociates(waves, [SortedKeys(r)], SortedWaves(rest));
    assert done + (r + Union(rest)) == done + r + Union(rest);
  }

  lemma {:induction false} WaveListed(steps: Steps, done: set<string>, order: seq<nat>, waves: seq<seq<string>>,
                                      wave: seq<nat>)
    requires Listing(steps, done, order, waves) && Positions(steps, wave) && DistinctNats(wave)
    requires IdSet(steps, wave) !! done
    ensures Listing(steps, done + IdSet(steps, wave), order + wave, waves + [Named(steps, wave)])
  {
    OrderGrows(steps, order, wave);
    NamedConcat(steps, order, wave);
    FlattenSnoc(waves, Named(steps, wave));
    hide DistinctNats, IdSet, Flatten, Named;
  }

  lemma {:induction false} SeqAssociates<T>(a: seq<T>, b: seq<T>, c: seq<T>)
    ensures a + (b + c) == a + b + c
  {
  }

  // ----- when nothing remains

  function Listed(s: seq<nat>): set<nat>
  {
    set x | x in s
  }

  lemma {:induction false} DistinctCardinality(s: seq<nat>)
    requires DistinctNats(s)
    ensures |Listed(s)| == |s|
  {
    if s != [] {
      var front, last := s[..|s| - 1], s[|s| - 1];
      assert s == front + [last];
      DistinctCardinality(front);
      assert last !in Listed(front);
      assert Listed(s) == Listed(front) + {last};
    }
  }

  function Below(n: nat): (r: set<nat>)
    ensures |r| == n && forall x: nat :: x in r <==> x < n
  {
    if n == 0 then {} else Below(n - 1) + {n - 1}
  }

  lemma {:induction false} IdSetIsAllIff(steps: Steps, order: seq<nat>)
    requires DistinctIds(steps) && Positions(steps, order)
    ensures IdSet(steps, order) == IdsOf(steps) <==> Listed(order) == Below(|steps|)
  {
    var listed := Listed(order);
    assert forall m :: 0 <= m < |order| ==> order[m] in order;
    forall x | x in IdSet(steps, order) ensures x in IdsOf(steps) {
      var j :| j in order && steps[j].id == x;
      assert steps[j] in steps;
    }
    forall x | x in IdsOf(steps) && listed == Below(|steps|) ensures x in IdSet(steps, order) {
      var s :| s in steps && s.id == x;
      var k :| 0 <= k < |steps| && steps[k] == s;
      assert k in Below(|steps|);
    }
    forall k: nat | k < |steps| && IdSet(steps, order) == IdsOf(steps) ensures k in listed {
      assert steps[k] in steps && steps[k].id in IdsOf(steps);
      var j :| j in order && steps[j].id == steps[k].id;
      SameId(steps, j, k);
    }
    if IdSet(steps, order) == IdsOf(steps) { assert forall k: nat :: k in listed <==> k in Below(|steps|); }
  }

  /** A listing of distinct positions is complete exactly when it is as long as the recipe. */
  lemma {:induction false} CompleteIffLong(steps: Steps, order: seq<nat>)
    requires DistinctIds(steps) && Positions(steps, order) && DistinctNats(order)
    ensures |order| == |steps| <==> IdSet(steps, order) == IdsOf(steps)
    ensures |order| <= |steps|
  {
    var listed, all := Listed(order), Below(|steps|);
    DistinctCardinality(order);
    IdSetIsAllIff(steps, order);
    assert forall m :: 0 <= m < |order| ==> order[m] in order;
    assert listed <= all;
    assert all == listed + (all - listed);
    assert |all| == |listed| + |all - listed|;
  }

  // ----- schedule()

  /** The timetable a recipe has when no step lists a need. */
  ghost predicate InListedOrder(steps: Steps, t: Timetable)
  {
    && |t.order| == |steps| && (forall k :: 0 <= k < |steps| ==> t.order[k] == k)
    && t.waves == Singles(steps)
  }

  /** The timetable of a recipe with needs: its dependency waves, each in id order, end to end,
      and every step listed exactly once. */
  ghost predicate InWaveOrder(steps: Steps, t: Timetable)
  {
    && t.waves == SortedWaves(Peel(steps, {}))
    && Positions(steps, t.order) && DistinctNats(t.order) && |t.order| == |steps|
    && Named(steps, t.order) == Flatten(t.waves)
  }

  method MakeSchedule(steps: Steps) returns (r: Result<Timetable>)
    requires DistinctIds(steps)
    ensures r.Ok? <==> Implicit(steps) || (KnownNeeds(steps) && Acyclic(steps))
    ensures r.Ok? ==> if Implicit(steps) then InListedOrder(steps, r.value) else InWaveOrder(steps, r.value)
  {
    if forall i :: 0 <= i < |steps| ==> steps[i].needs == [] {
      var order := seq(|steps|, i => i);
      return Ok(Timetable(order, Singles(steps)));
    }
    var known, indegree, adj := BuildGraph(steps);
    if !known { return Err("unknown need"); }
    var order, waves, remaining := RunWaves(steps, indegree, adj);
    CoveredIffAcyclic(steps);
    if remaining != 0 { return Err("recipe has a dependency cycle"); }
    return Ok(Timetable(order, waves));
  }

  /** The positions whose indegree is zero. */
  method Unblocked(indegree: seq<nat>) returns (ready: seq<nat>)
    ensures DistinctNats(ready) && forall j: nat :: j in ready <==> j < |indegree| && indegree[j] == 0
  {
    ready := [];
    for i := 0 to |indegree|
      invariant DistinctNats(ready) && forall j: nat :: j in ready <==> j < i && indegree[j] == 0
    {
      if indegree[i] == 0 { ready := ready + [i]; }
    }
  }

  /** The main loop: issue the ready steps as one sorted wave until nothing is ready. */
  method RunWaves(steps: Steps, indegree0: seq<nat>, adj: seq<seq<nat>>)
    returns (order: seq<nat>, waves: seq<seq<string>>, remaining: int)
    requires DistinctIds(steps) && Counts(steps, indegree0, {}) && Linked(steps, adj)
    ensures remaining == 0 <==> Covered(steps)
    ensures remaining == 0 ==> InWaveOrder(steps, Timetable(order, waves))
  {
    var ready := Unblocked(indegree0);
    var indegree := indegree0;
    order, waves, remaining := [], [], |steps|;
    ghost var done: set<string> := {};
    InitialState(steps, indegree0, ready);
    while ready != []
      invariant Listing(steps, done, order, waves) && Issued(steps, done, waves)
      invariant ReadyIs(steps, ready, done) && Closed(steps, done) && Counts(steps, indegree, done)
      invariant remaining == |steps| - |order|
      decreases IdsOf(steps) - done
    {
      ReadyIdsAreReady(steps, ready, done);
      var wave := SortByIds(steps, ready);
      ghost var r := IdSet(steps, ready);
      var now, next := RunWave(steps, wave, indegree, adj, done);
      NextReady(steps, ready, done, indegree, now, next);
      NonemptyWave(steps, ready, done);
      WaveListed(steps, done, order, waves, wave);
      WaveIssued(steps, done, waves);
      waves := waves + [Named(steps, wave)];
      order := order + wave;
      remaining := remaining - |wave|;
      indegree, ready, done := now, next, done + r;
    }
    AllIssued(steps, done, order, waves);
  }

  lemma {:induction false} InitialState(steps: Steps, indegree: seq<nat>, ready: seq<nat>)
    requires Counts(steps, indegree, {})
    requires DistinctNats(ready) && forall j: nat :: j in ready <==> j < |indegree| && indegree[j] == 0
    ensures Listing(steps, {}, [], []) && Issued(steps, {}, []) && ReadyIs(steps, ready, {}) && Closed(steps, {})
  {
    assert IdSet(steps, []) == {};
    assert [] + SortedWaves(Peel(steps, {})) == SortedWaves(Peel(steps, {}));
    assert {} + Union(Peel(steps, {})) == Union(Peel(steps, {}));
  }

  lemma {:induction false} NonemptyWave(steps: Steps, ready: seq<nat>, done: set<string>)
    requires ReadyIs(steps, ready, done) && ready != []
    ensures Ready(steps, done) != {} && Ready(steps, done) <= IdsOf(steps) - done
  {
    ReadyIdsAreReady(steps, ready, done);
    assert ready[0] in ready && steps[ready[0]].id in IdSet(steps, ready);
  }

  lemma {:induction false} AllIssued(steps: Steps, done: set<string>, order: seq<nat>, waves: seq<seq<string>>)
    requires DistinctIds(steps) && Listing(steps, done, order, waves) && Issued(steps, done, waves)
    requires ReadyIs(steps, [], done)
    ensures |order| == |steps| <==> Covered(steps)
    ensures |order| == |steps| ==> InWaveOrder(steps, Timetable(order, waves))
  {
    ReadyIdsAreReady(steps, [], done);
    CompleteIffLong(steps, order);
    assert Peel(steps, done) == [];
    assert waves + [] == waves;
    assert done + {} == done;
  }
}
