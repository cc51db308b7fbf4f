/** Compiled plans have the shape execution relies on, and executing a plan in waves refines running it step by
    step. */
module RunTheorems {
  import opened Ordering
  import opened Protocol
  import opened Waves
  import opened Schedule
  import opened RecipeParams
  import opened Plan
  import opened RunPlan

  // ----- compiled plans are shaped

  lemma {:induction false} FlattenSingles(steps: Steps)
    ensures |Flatten(Singles(steps))| == |steps|
    ensures forall k :: 0 <= k < |steps| ==> Flatten(Singles(steps))[k] == steps[k].id
  {
    if steps != [] {
      var n := |steps| - 1;
      FlattenSingles(steps[..n]);
      FlattenSnoc(Singles(steps[..n]), [steps[n].id]);
    }
  }

  lemma {:induction false} SortedWavesHold(ws: seq<set<string>>, x: string)
    ensures |SortedWaves(ws)| == |ws|
    ensures forall w :: 0 <= w < |ws| ==> SortedWaves(ws)[w] == SortedKeys(ws[w])
    ensures x in Flatten(SortedWaves(ws)) <==> x in Union(ws)
  {
    if ws != [] {
      SortedWavesHold(ws[1..], x);
      SortedKeysListing(ws[0]);
      assert SortedWaves(ws)[1..] == SortedWaves(ws[1..]);
      hide Less, Ascending;
    }
  }

  lemma {:induction false} SortedWavesPrefix(ws: seq<set<string>>, w: nat)
    requires w <= |ws|
    ensures |SortedWaves(ws)| == |ws| && SortedWaves(ws)[..w] == SortedWaves(ws[..w])
  {
    SortedWavesHold(ws, "");
    SortedWavesHold(ws[..w], "");
  }

  lemma {:induction false} PeelNonempty(steps: Steps, done: set<string>, w: nat)
    requires w < |Peel(steps, done)|
    ensures Peel(steps, done)[w] != {}
    decreases w
  {
    if w > 0 { PeelNonempty(steps, done + Ready(steps, done), w - 1); }
  }

  lemma {:induction false} PlannedIds(steps: Steps, order: seq<nat>, planned: seq<PlannedStep>, registry: Registry)
    requires DistinctIds(steps) && InOrder(steps, order, planned, registry) && DistinctNats(order)
    ensures IdsIn(planned) == Named(steps, order)
    ensures forall i, j :: 0 <= i < j < |planned| ==> planned[i].id != planned[j].id
  {
    forall i, j | 0 <= i < j < |planned| ensures planned[i].id != planned[j].id {
      if steps[order[i]].id == steps[order[j]].id { SameId(steps, order[i], order[j]); }
    }
  }

  lemma {:induction false} WaveNeed(steps: Steps, order: seq<nat>, p: Plan, registry: Registry, w: nat,
                                    s: PlannedStep, n: string)
    requires DistinctIds(steps) && !Implicit(steps) && p.waves == SortedWaves(Peel(steps, {}))
    requires InOrder(steps, order, p.steps, registry) && w < |p.waves|
    requires s in p.steps && s.id in p.waves[w] && n in s.needs
    ensures n in Flatten(p.waves[..w])
  {
    var ws := Peel(steps, {});
    var k :| 0 <= k < |p.steps| && p.steps[k] == s;
    assert p.steps[k] == PlannedAt(steps, order[k], registry);
    assert steps[order[k]] in steps && steps[order[k]].id == s.id && n in steps[order[k]].needs;
    assert Needs(steps, s.id, n);
    hide InOrder, Needs;
    SortedWavesHold(ws, "");
    SortedKeysListing(ws[w]);
    hide *;
    WavesAreLevels(steps, {}, w, s.id, n);
    SortedWavesPrefix(ws, w);
    SortedWavesHold(ws[..w], n);
  }

  lemma {:induction false} WaveOrderShape(steps: Steps, order: seq<nat>, p: Plan, registry: Registry, w: nat)
    requires DistinctIds(steps) && !Implicit(steps) && InWaveOrder(steps, Timetable(order, p.waves))
    requires InOrder(steps, order, p.steps, registry) && w < |p.waves|
    ensures p.waves[w] != [] && NeedsEarlier(p, w)
  {
    var ws := Peel(steps, {});
    SortedWavesHold(ws, "");
    PeelNonempty(steps, {}, w);
    SortedKeysListing(ws[w]);
    forall s, n | s in p.steps && s.id in p.waves[w] && n in s.needs ensures n in Flatten(p.waves[..w]) {
      WaveNeed(steps, order, p, registry, w, s, n);
    }
    hide SortedWaves, SortedKeys, Peel, Flatten, Less, Ascending, InOrder, InWaveOrder;
  }

  lemma {:induction false} ListedNeed(steps: Steps, order: seq<nat>, p: Plan, registry: Registry, w: nat, k: nat,
                                      n: string)
    requires DistinctIds(steps) && Implicit(steps) && InListedOrder(steps, Timetable(order, p.waves))
    requires InOrder(steps, order, p.steps, registry) && w < |p.waves|
    requires k < |p.steps| && p.steps[k].id in p.waves[w] && n in p.steps[k].needs
    ensures w > 0 && p.waves[w - 1] == [n]
  {
    assert p.steps[k] == PlannedAt(steps, k, registry);
    assert p.waves[w] == [steps[w].id];
    hide InOrder;
    SameId(steps, k, w);
    hide DistinctIds;
    assert n == steps[w - 1].id;
  }

  lemma {:induction false} ListedOrderShape(steps: Steps, order: seq<nat>, p: Plan, registry: Registry, w: nat)
    requires DistinctIds(steps) && Implicit(steps) && InListedOrder(steps, Timetable(order, p.waves))
    requires InOrder(steps, order, p.steps, registry) && w < |p.waves|
    ensures p.waves[w] != [] && NeedsEarlier(p, w)
  {
    forall s, n | s in p.steps && s.id in p.waves[w] && n in s.needs ensures n in Flatten(p.waves[..w]) {
      var k :| 0 <= k < |p.steps| && p.steps[k] == s;
      ListedNeed(steps, order, p, registry, w, k, n);
      hide *;
      FlattenSplit(p.waves, w - 1);
      assert p.waves[..w - 1 + 1] == p.waves[..w];
      assert n in p.waves[w - 1];
    }
  }

  lemma {:induction false} TimedWaves(steps: Steps, order: seq<nat>, p: Plan, registry: Registry)
    requires DistinctIds(steps) && Timed(steps, Timetable(order, p.waves)) && InOrder(steps, order, p.steps, registry)
    ensures DistinctNats(order) && IdsIn(p.steps) == Flatten(p.waves)
    ensures forall w :: 0 <= w < |p.waves| ==> p.waves[w] != [] && NeedsEarlier(p, w)
  {
    if Implicit(steps) {
      FlattenSingles(steps);
      assert IdsIn(p.steps) == Flatten(p.waves);
      forall w | 0 <= w < |p.waves| ensures p.waves[w] != [] && NeedsEarlier(p, w) {
        ListedOrderShape(steps, order, p, registry, w);
      }
    } else {
      PlannedIds(steps, order, p.steps, registry);
      forall w | 0 <= w < |p.waves| ensures p.waves[w] != [] && NeedsEarlier(p, w) {
        WaveOrderShape(steps, order, p, registry, w);
      }
    }
  }

  lemma {:induction false} TimedIsShaped(steps: Steps, order: seq<nat>, p: Plan, registry: Registry)
    requires DistinctIds(steps) && Timed(steps, Timetable(order, p.waves)) && InOrder(steps, order, p.steps, registry)
    requires p.requiresYes <==> exists s :: s in p.steps && Exit in s.effects
    ensures Shaped(p)
  {
    hide *;
    TimedWaves(steps, order, p, registry);
    PlannedIds(steps, order, p.steps, registry);
    ShapedByParts(p);
  }

  lemma {:induction false} ShapedByParts(p: Plan)
    requires IdsIn(p.steps) == Flatten(p.waves)
    requires forall i, j :: 0 <= i < j < |p.steps| ==> p.steps[i].id != p.steps[j].id
    requires forall w :: 0 <= w < |p.waves| ==> p.waves[w] != [] && NeedsEarlier(p, w)
    requires p.requiresYes <==> exists s :: s in p.steps && Exit in s.effects
    ensures Shaped(p)
  {
  }

  /** What `compile_plan` returns satisfies everything execution relies on. */
  lemma {:induction false} CompiledIsShaped(r: Recipe, given: Given, registry: Registry, p: Plan)
    requires Compiles(r, given, registry) && BoundSteps(r, given).Ok?
    requires PlanOf(r, BoundSteps(r, given).value, registry, p)
    ensures Shaped(p)
  {
    var steps := BoundSteps(r, given).value;
    assert DistinctIds(steps) by { BindingKeepsGraph(r, steps, registry, given); }
    var order :| Timed(steps, Timetable(order, p.waves)) && InOrder(steps, order, p.steps, registry);
    assert p.requiresYes <==> exists s :: s in p.steps && Exit in s.effects;
    hide *;
    TimedIsShaped(steps, order, p, registry);
  }

  // ----- pipelining waves refines running the plan step by step

  type Host<!S> = (S, Op) -> (S, Response)

  /** The same operation run `n` times. */
  function Again<S>(host: Host<S>, s: S, op: Op, n: nat): (r: (S, seq<Response>))
    ensures |r.1| == n
  {
    if n == 0 then (s, [])
    else
      var (mid, rs) := Again(host, s, op, n - 1);
      var (end, last) := host(mid, op);
      (end, rs + [last])
  }

  /** Where the host is after these operations ran, each as often as it was answered. */
  function StateAfter<S>(host: Host<S>, s: S, runs: seq<Run>): S
  {
    if runs == [] then s
    else
      var n := |runs| - 1;
      Again(host, StateAfter(host, s, runs[..n]), runs[n].op, |runs[n].answers|).0
  }

  /** The answers in `runs` are this host's, and nobody else acts on it meanwhile. */
  predicate FromHost<S>(host: Host<S>, s: S, runs: seq<Run>)
  {
    runs == [] ||
    var n := |runs| - 1;
    && FromHost(host, s, runs[..n])
    && runs[n].answers == Again(host, StateAfter(host, s, runs[..n]), runs[n].op, |runs[n].answers|).1
  }

  datatype Progress<S> = Progress(state: S, rows: seq<StepReceipt>, failed: Option<Failure>)

  /** Steps run one by one in order, once each, up to the first that is not answered ok. */
  function OneByOne<S>(host: Host<S>, s: S, steps: seq<PlannedStep>): Progress<S>
  {
    if steps == [] then Progress(s, [], None)
    else
      var n := |steps| - 1;
      var p := OneByOne(host, s, steps[..n]);
      if p.failed.Some? then p
      else
        var (end, last) := host(p.state, steps[n].op);
        Progress(end, p.rows + [Row(steps[n], last, None)],
                 if last.ok then None else Some(Failure(steps[n].id, Reason(last))))
  }

  ghost predicate LeavesAlone<S(!new)>(host: Host<S>, op: Op)
  {
    forall s: S :: host(s, op).0 == s
  }

  /** Read steps leave the host alone, and any other step that ran ran once. */
  ghost predicate Harmless<S(!new)>(host: Host<S>, steps: seq<PlannedStep>, runs: seq<Run>)
    requires |runs| <= |steps|
  {
    && (forall k :: 0 <= k < |steps| && ReadOnly(steps[k]) ==> LeavesAlone(host, steps[k].op))
    && (forall k :: 0 <= k < |runs| && !ReadOnly(steps[k]) ==> |runs[k].answers| == 1)
  }

  lemma {:induction false} AgainAlone<S(!new)>(host: Host<S>, s: S, op: Op, n: nat)
    requires LeavesAlone(host, op)
    ensures Again(host, s, op, n).0 == s
    ensures forall k :: 0 <= k < n ==> Again(host, s, op, n).1[k] == host(s, op).1
  {
    if n > 0 { AgainAlone(host, s, op, n - 1); }
  }

  /** Run once or harmlessly, a step ends like one run of it, and so does its last answer. */
  lemma {:induction false} LikeOnce<S(!new)>(host: Host<S>, s: S, op: Op, n: nat)
    requires n > 0 && (n == 1 || LeavesAlone(host, op))
    ensures Again(host, s, op, n).0 == host(s, op).0 && Again(host, s, op, n).1[n - 1] == host(s, op).1
  {
    if n == 1 {
      assert Again(host, s, op, 0) == (s, []);
    } else {
      AgainAlone(host, s, op, n);
    }
  }

  lemma {:induction false} FromHostPrefix<S>(host: Host<S>, s: S, runs: seq<Run>, k: nat)
    requires k <= |runs| && FromHost(host, s, runs)
    ensures FromHost(host, s, runs[..k])
    decreases |runs|
  {
    if k == |runs| {
      assert runs[..k] == runs;
    } else {
      FromHostPrefix(host, s, runs[..|runs| - 1], k);
      assert runs[..|runs| - 1][..k] == runs[..k];
    }
  }

  /** The `k`-th step: its last answer is what the host says once, and the host moves on as if it had run once. */
  lemma {:induction false} StepLikeOnce<S(!new)>(host: Host<S>, s: S, steps: seq<PlannedStep>, runs: seq<Run>, k: nat)
    requires k < |runs| <= |steps| && FromHost(host, s, runs) && Harmless(host, steps, runs)
    requires runs[k].answers != [] && runs[k].op == steps[k].op
    ensures var before := StateAfter(host, s, runs[..k]);
            && StateAfter(host, s, runs[..k + 1]) == host(before, steps[k].op).0
            && Last(runs[k]) == host(before, steps[k].op).1
  {
    FromHostPrefix(host, s, runs, k + 1);
    assert runs[..k + 1][..k] == runs[..k] && runs[..k + 1][k] == runs[k];
    var before, n := StateAfter(host, s, runs[..k]), |runs[k].answers|;
    assert n == 1 || LeavesAlone(host, steps[k].op);
    assert StateAfter(host, s, runs[..k + 1]) == Again(host, before, steps[k].op, n).0;
    assert runs[k].answers == Again(host, before, steps[k].op, n).1;
    hide FromHost, Harmless, StateAfter, ReadOnly, LeavesAlone;
    LikeOnce(host, before, steps[k].op, n);
  }

  /** A run without lost calls, on a host that leaves reads and only reads repeatable. */
  ghost predicate OnHost<S(!new)>(host: Host<S>, s: S, p: Plan, trace: seq<Sent>, runs: seq<Run>,
      rows: seq<StepReceipt>)
  {
    && |trace| == |runs| == |rows| <= |p.steps|
    && (forall t :: 0 <= t < |trace| ==> && IsOf(trace[t], p.steps[t]) && runs[t].op == p.steps[t].op
                                         && runs[t].answers != []
                                         && trace[t].reply == Ok(Last(runs[t]))
                                         && rows[t] == Row(p.steps[t], Last(runs[t]), None))
    && FromHost(host, s, runs) && Harmless(host, p.steps, runs)
  }

  lemma {:induction false} OneMoreByOne<S>(host: Host<S>, s: S, steps: seq<PlannedStep>, n: nat, at: S,
                                           rows: seq<StepReceipt>)
    requires n < |steps| && OneByOne(host, s, steps[..n]) == Progress(at, rows, None)
    ensures var (end, last) := host(at, steps[n].op);
            OneByOne(host, s, steps[..n + 1]) ==
              Progress(end, rows + [Row(steps[n], last, None)],
                       if last.ok then None else Some(Failure(steps[n].id, Reason(last))))
  {
    assert steps[..n + 1][..n] == steps[..n] && steps[..n + 1][n] == steps[n];
    hide Row, Reason;
  }

  /** Up to the first failure, what was executed is what running one by one gives. */
  lemma {:induction false} AgreesUpTo<S(!new)>(host: Host<S>, s: S, p: Plan, trace: seq<Sent>, runs: seq<Run>,
                                               rows: seq<StepReceipt>, k: nat)
    requires OnHost(host, s, p, trace, runs, rows) && k <= |trace| && forall t :: 0 <= t < k - 1 ==> Fine(trace[t])
    ensures OneByOne(host, s, p.steps[..k]) ==
              Progress(StateAfter(host, s, runs[..k]), rows[..k],
                       if k == 0 || Fine(trace[k - 1]) then None
                       else Some(Failure(trace[k - 1].id, Why(trace[k - 1]))))
    decreases k
  {
    if k > 0 {
      var n := k - 1;
      assert n > 0 ==> Fine(trace[n - 1]);
      assert rows[..k] == rows[..n] + [rows[n]];
      assert trace[n].reply == Ok(Last(runs[n])) && rows[n] == Row(p.steps[n], Last(runs[n]), None);
      assert trace[n].id == p.steps[n].id;
      StepLikeOnce(host, s, p.steps, runs, n);
      assert Fine(trace[n]) <==> Last(runs[n]).ok;
      assert Why(trace[n]) == Reason(Last(runs[n]));
      hide OnHost, StateAfter, FromHost, Harmless, Last, Row, OneByOne, Fine, Why, Reason;
      AgreesUpTo(host, s, p, trace, runs, rows, n);
      OneMoreByOne(host, s, p.steps, n, StateAfter(host, s, runs[..n]), rows[..n]);
    } else {
      assert runs[..0] == [] && rows[..0] == [];
      hide OnHost;
    }
  }

  /** Nothing runs after a failure. */
  lemma {:induction false} FailureEndsIt<S>(host: Host<S>, s: S, steps: seq<PlannedStep>, k: nat)
    requires k <= |steps| && OneByOne(host, s, steps[..k]).failed.Some?
    ensures OneByOne(host, s, steps) == OneByOne(host, s, steps[..k])
    decreases |steps|
  {
    if k < |steps| {
      assert steps[..|steps| - 1][..k] == steps[..k];
      FailureEndsIt(host, s, steps[..|steps| - 1], k);
    } else {
      assert steps[..k] == steps;
    }
  }

  /** Read steps at the end leave the host where it was. */
  lemma {:induction false} ReadsLeaveState<S(!new)>(host: Host<S>, s: S, steps: seq<PlannedStep>, runs: seq<Run>,
      k: nat)
    requires k <= |runs| <= |steps| && Harmless(host, steps, runs)
    requires forall j :: k <= j < |runs| ==> ReadOnly(steps[j]) && runs[j].op == steps[j].op
    ensures StateAfter(host, s, runs) == StateAfter(host, s, runs[..k])
    decreases |runs|
  {
    if k < |runs| {
      var n := |runs| - 1;
      assert runs[..n][..k] == runs[..k];
      ReadsLeaveState(host, s, steps, runs[..n], k);
      assert LeavesAlone(host, steps[n].op);
      hide Harmless, ReadOnly;
      AgainAlone(host, StateAfter(host, s, runs[..n]), steps[n].op, |runs[n].answers|);
    } else {
      assert runs[..k] == runs;
    }
  }

  /** What executing a plan and running it one by one agree on. */
  ghost predicate Agree<S>(p: Plan, end: S, rows: seq<StepReceipt>, failed: Option<Failure>, q: Progress<S>)
  {
    && end == q.state && failed == q.failed && q.rows <= rows
    && (failed.None? ==> rows == q.rows)
    && (failed.Some? ==> q.rows != [] && !q.rows[|q.rows| - 1].ok && q.rows[|q.rows| - 1].id == failed.value.id)
  }

  lemma {:induction false} AgreeOnFailure<S(!new)>(host: Host<S>, s: S, p: Plan, trace: seq<Sent>, runs: seq<Run>,
                                                   rows: seq<StepReceipt>, f: Failure)
    requires OnHost(host, s, p, trace, runs, rows) && Safe(p, trace) && Reports(trace, Some(f))
    ensures Agree(p, StateAfter(host, s, runs), rows, Some(f), OneByOne(host, s, p.steps))
  {
    var t: nat :| FailsAt(trace, t, f);
    FineAt(trace[..t]);
    forall u | 0 <= u < t ensures Fine(trace[u]) { assert trace[..t][u] == trace[u]; }
    forall u | t + 1 <= u < |runs| ensures ReadOnly(p.steps[u]) && runs[u].op == p.steps[u].op {
      assert !Fine(trace[t]);
    }
    assert rows[..t + 1][t] == Row(p.steps[t], Last(runs[t]), None) && !Last(runs[t]).ok && f.id == p.steps[t].id;
    assert f == Failure(trace[t].id, Why(trace[t])) && !Fine(trace[t]) && t < |trace|;
    assert Harmless(host, p.steps, runs) && |trace| == |runs| == |rows|;
    AgreesUpTo(host, s, p, trace, runs, rows, t + 1);
    hide OnHost, Safe, Reports, FailsAt, Harmless, StateAfter, OneByOne, Fine, Why, Last;
    FailureEndsIt(host, s, p.steps, t + 1);
    ReadsLeaveState(host, s, p.steps, runs, t + 1);
  }

  lemma {:induction false} AgreeOnSuccess<S(!new)>(host: Host<S>, s: S, p: Plan, trace: seq<Sent>, runs: seq<Run>,
                                                   rows: seq<StepReceipt>)
    requires OnHost(host, s, p, trace, runs, rows) && AllFine(trace) && |trace| == |p.steps|
    ensures Agree(p, StateAfter(host, s, runs), rows, None, OneByOne(host, s, p.steps))
  {
    FineAt(trace);
    var n := |trace|;
    assert |trace| == |runs| == |rows|;
    AgreesUpTo(host, s, p, trace, runs, rows, n);
    assert p.steps[..n] == p.steps && runs[..n] == runs && rows[..n] == rows;
    hide OnHost, AllFine, StateAfter, OneByOne, Why;
    assert n == 0 || Fine(trace[n - 1]);
  }

  /** Every call came back. */
  predicate NothingLost(trace: seq<Sent>) { forall t :: 0 <= t < |trace| ==> trace[t].reply.Ok? }

  /** No row carries a screenshot. */
  predicate Unshot(rows: seq<StepReceipt>) { forall k :: 0 <= k < |rows| ==> rows[k].shot.None? }

  lemma {:induction false} NoCaptureNoShots(steps: seq<PlannedStep>, rows: seq<StepReceipt>, shots: seq<Shot>)
    requires Pictured(None, steps, rows, shots)
    ensures Unshot(rows) && shots == []
  {
    if rows != [] { NoCaptureNoShots(steps, rows[..|rows| - 1], ShotsIn(rows[..|rows| - 1])); }
  }

  lemma {:induction false} ExecutedOnHost<S(!new)>(host: Host<S>, s: S, p: Plan, trace: seq<Sent>, runs: seq<Run>,
                                                   rows: seq<StepReceipt>, failed: Option<Failure>)
    requires Executed(p, trace, runs, rows, failed) && NothingLost(trace) && Unshot(rows)
    requires FromHost(host, s, runs) && Harmless(host, p.steps, runs)
    ensures OnHost(host, s, p, trace, runs, rows)
  {
    if trace != [] { assert trace[|trace| - 1].reply.Ok?; }
    hide FromHost, Harmless, Reports, ReadOnly;
    assert |trace| == |runs| == |rows|;
    forall t | 0 <= t < |trace|
      ensures IsOf(trace[t], p.steps[t]) && runs[t].op == p.steps[t].op
      ensures runs[t].answers != [] && trace[t].reply == Ok(Last(runs[t]))
      ensures rows[t] == Row(p.steps[t], Last(runs[t]), None)
    {
      assert rows[t] == RowOf(p.steps[t], trace[t].reply, rows[t].shot);
    }
    hide Executed;
  }

  /** If the plan's Read steps leave the host alone, executing it wave by wave, all-Read waves pipelined, refines
      running it one step at a time: the same end state, the same failure, and the rows of the one, with possibly
      more Read rows after the failure. Needed besides: no call is lost, no Write ran twice, and nobody else acts
      on the host. */
  lemma {:induction false} PipelineRefinesSequence<S(!new)>(host: Host<S>, s: S, p: Plan, trace: seq<Sent>,
                                                            runs: seq<Run>, rows: seq<StepReceipt>,
                                                            failed: Option<Failure>)
    requires Executed(p, trace, runs, rows, failed) && NothingLost(trace) && Unshot(rows)
    requires FromHost(host, s, runs) && Harmless(host, p.steps, runs)
    ensures Agree(p, StateAfter(host, s, runs), rows, failed, OneByOne(host, s, p.steps))
  {
    ExecutedOnHost(host, s, p, trace, runs, rows, failed);
    hide FromHost, Harmless, OnHost, Paired, RowsTell, Safe, Agree, StateAfter, OneByOne;
    match failed
    case Some(f) => AgreeOnFailure(host, s, p, trace, runs, rows, f);
    case None => AgreeOnSuccess(host, s, p, trace, runs, rows);
  }
}
