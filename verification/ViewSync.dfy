/** The runner's incremental view of a host: `snapshot since`, the client-side patch, and the
    fingerprint gate, over every interleaving with host changes. */
module ViewSync {
  import opened Ordering
  import opened UiForest
  import opened TreeDiff
  import opened PatchTheorem
  import opened SnapshotCache

  // ----- one observation

  datatype Answer =
    | Unchanged(rev: Option<nat>)
    | Patched(rev: Option<nat>, diff: TreeDiff)
    | Full(tree: Tree)

  ghost function Respond(c: CacheState, h: Host, since: Option<nat>): (Answer, CacheState)
  {
    var (tree, d) := SnapshotStep(c, h);
    if since.None? then (Full(tree), d)
    else if tree.rev == since then (Unchanged(tree.rev), d)
    else if tree.rev.Some? && TreeAt(d.ring, since.value).Some?
    then (Patched(tree.rev, Diff(TreeAt(d.ring, since.value).value.nodes, tree.nodes)), d)
    else (Full(tree), d)
  }

  method SnapshotResponse(cache: TreeCache, h: Host, since: Option<nat>) returns (a: Answer)
    modifies cache
    ensures (a, cache.State()) == Respond(old(cache.State()), h, since)
  {
    var tree := cache.Snapshot(h);
    match since
    case None => a := Full(tree);
    case Some(s) =>
      if tree.rev == Some(s) {
        a := Unchanged(tree.rev);
      } else {
        var past := None;
        if tree.rev.Some? { past := cache.At(s); }
        match past
        case Some(t) =>
          var diff := DiffTrees(t.nodes, tree.nodes);
          a := Patched(tree.rev, diff);
        case None => a := Full(tree);
      }
  }

  /** The tree the runner holds and the revision it asks about next. */
  datatype View = View(nodes: Forest, rev: Option<nat>)

  function Or(a: Option<nat>, b: Option<nat>): Option<nat> { if a.Some? then a else b }

  /** A missing revision in the answer keeps the one already held. */
  function Absorb(v: View, a: Answer): View
  {
    match a
    case Unchanged(rev) => View(v.nodes, Or(rev, v.rev))
    case Patched(rev, diff) => View(Apply(v.nodes, diff), Or(rev, v.rev))
    case Full(tree) => View(tree.nodes, Or(tree.rev, v.rev))
  }

  class Runner {
    var nodes: Forest
    var rev: Option<nat>

    ghost function State(): View
      reads this
    {
      View(nodes, rev)
    }

    constructor ()
      ensures State() == View([], None)
    {
      nodes, rev := [], None;
    }

    method ObserveSince(cache: TreeCache, h: Host)
      modifies this, cache
      ensures State() == Absorb(old(State()), Respond(old(cache.State()), h, old(rev)).0)
      ensures cache.State() == Respond(old(cache.State()), h, old(rev)).1
    {
      var a := SnapshotResponse(cache, h, rev);
      match a
      case Unchanged(r) => rev := Or(r, rev);
      case Patched(r, diff) =>
        nodes := ApplyDiff(nodes, diff);
        rev := Or(r, rev);
      case Full(tree) =>
        nodes := tree.nodes;
        rev := Or(tree.rev, rev);
    }
  }

  // ----- runs

  /** The host may change at any time; other requests share the cache; a new connection starts with
      an empty one; `Act` dispatches on a node of the view, gated by the fingerprint seen there, and
      `after` is what the host becomes if it runs. */
  datatype Step = HostMoves(h: Host) | OtherCall | Reconnect | Observe | Act(target: string, after: Host)

  datatype World = World(host: Host, log: Log, cache: CacheState, view: View)

  function Become(w: World, h: Host): World
  {
    w.(host := h, log := if Stamp(h).Some? then w.log[Stamp(h).value := h.nodes] else w.log)
  }

  /** The gate recomputes the fingerprint on the cache's snapshot before dispatching. */
  function Gate(fp: Fingerprint, w: World, target: string, after: Host): World
    requires target in Ids(w.view.nodes)
  {
    var (tree, d) := SnapshotStep(w.cache, w.host);
    var seen := Flat(tree.nodes, target);
    if seen.None? || fp(target, seen.value) != fp(target, Flat(w.view.nodes, target).value)
    then w.(cache := d)
    else Become(w.(cache := d), after)
  }

  ghost function Take(fp: Fingerprint, w: World, s: Step): World
  {
    match s
    case HostMoves(h) => Become(w, h)
    case OtherCall => w.(cache := SnapshotStep(w.cache, w.host).1)
    case Reconnect => w.(cache := EMPTY_CACHE)
    case Observe =>
      var (a, d) := Respond(w.cache, w.host, w.view.rev);
      w.(cache := d, view := Absorb(w.view, a))
    case Act(target, after) => if target in Ids(w.view.nodes) then Gate(fp, w, target, after) else w
  }

  /** An honest host publishes unique, non-empty ids and never gives one revision two trees. */
  predicate Honest(log: Log, h: Host)
  {
    && Unique(h.nodes) && "" !in Ids(h.nodes)
    && (Stamp(h).Some? && Stamp(h).value in log ==> log[Stamp(h).value] == h.nodes)
  }

  /** Every logged tree is well formed and the held tree has the shape of the revision it claims. */
  ghost predicate Tracks(w: World)
  {
    && Coherent(w.cache, w.log) && Logged(w.log, w.host) && Honest(w.log, w.host)
    && (forall r :: r in w.log ==> Unique(w.log[r]) && "" !in Ids(w.log[r]))
    && (w.view.rev.Some? ==> w.view.rev.value in w.log && SameShape(w.view.nodes, w.log[w.view.rev.value]))
  }

  /** The held tree equals the revision it claims, up to sibling order. */
  ghost predicate Exact(w: World)
  {
    w.view.rev.Some? && w.view.rev.value in w.log ==>
      Unique(w.view.nodes) && forall x :: Flat(w.view.nodes, x) == Flat(w.log[w.view.rev.value], x)
  }

  /** An observation that leaves a scalar behind: it is answered with a diff across which some kept
      node loses a serialised key, or with another tree's scalars and no revision number. */
  ghost predicate LosesScalars(w: World)
  {
    w.view.rev.Some? && w.view.rev.value in w.log &&
    var claimed := w.log[w.view.rev.value];
    || (Respond(w.cache, w.host, w.view.rev).0.Patched? && KeptKeyVanishes(claimed, w.host.nodes))
    || (Stamp(w.host).None? && exists x :: Flat(w.host.nodes, x) != Flat(claimed, x))
  }

  /** The host has stopped reporting a revision while the runner still holds one for another tree. */
  ghost predicate Strands(w: World)
  {
    && Stamp(w.host).None? && w.view.rev.Some? && w.view.rev.value in w.log
    && !SameShape(w.host.nodes, w.log[w.view.rev.value])
  }

  lemma {:induction false} ShapeOfSelf(f: Forest)
    requires Unique(f)
    ensures SameShape(f, f)
  {
  }

  /** Which answer a request gets, for any cache of an honest host: unchanged if and only if it names the current
      revision; a diff if and only if the host has a current revision, the request names another, and the ring
      still holds that one; the whole tree otherwise. */
  lemma {:induction false} AnswerIsExact(c: CacheState, log: Log, h: Host, since: Option<nat>)
    requires Coherent(c, log) && Logged(log, h)
    ensures var (a, d) := Respond(c, h, since);
            && d == SnapshotStep(c, h).1 && Coherent(d, log)
            && (a.Unchanged? <==> since.Some? && Stamp(h) == since)
            && (a.Patched? <==> && since.Some? && Stamp(h).Some? && Stamp(h) != since
                                && exists e :: e in d.ring && e.rev == since.value)
            && (a.Unchanged? ==> a.rev == Stamp(h))
            && (a.Patched? ==> && a.rev == Stamp(h) && since.value in log
                               && a.diff == Diff(log[since.value], h.nodes))
            && (a.Full? ==> a.tree == Tree(h.nodes, Stamp(h)))
  {
    SnapshotIsFresh(c, log, h);
    var d := SnapshotStep(c, h).1;
    if since.Some? {
      TreeAtIsLogged(d.ring, log, since.value);
      TreeAtIff(d.ring, since.value);
      if e :| e in d.ring && e.rev == since.value {
        var i :| 0 <= i < |d.ring| && d.ring[i] == e;
      }
      if i :| 0 <= i < |d.ring| && d.ring[i].rev == since.value { assert d.ring[i] in d.ring; }
    }
    hide SnapshotStep, TreeAt, Coherent, Logged;
  }

  /** What an observation answers, case by case. */
  lemma {:induction false} ObserveAnswers(w: World)
    requires Tracks(w)
    ensures var (a, d) := Respond(w.cache, w.host, w.view.rev);
            && Coherent(d, w.log)
            && (a.Unchanged? <==> w.view.rev.Some? && Stamp(w.host) == w.view.rev)
            && (a.Patched? <==> && w.view.rev.Some? && Stamp(w.host).Some? && Stamp(w.host) != w.view.rev
                                && exists e :: e in d.ring && e.rev == w.view.rev.value)
            && (a.Unchanged? ==> a.rev == Stamp(w.host))
            && (a.Full? ==> a.tree == Tree(w.host.nodes, Stamp(w.host)))
            && (a.Patched? ==> a.rev == Stamp(w.host) && a.diff == Diff(w.log[w.view.rev.value], w.host.nodes))
  {
    assert Coherent(w.cache, w.log) && Logged(w.log, w.host);
    assert w.view.rev.Some? ==> w.view.rev.value in w.log;
    hide *;
    AnswerIsExact(w.cache, w.log, w.host, w.view.rev);
  }

  /** After every observation the runner holds the host's current shape. It also holds the host's
      current revision number exactly unless it is stranded on an old one, and the host's scalars
      exactly unless a key was lost on the way. */
  lemma {:induction false} ObserveCatchesUp(fp: Fingerprint, w: World)
    requires Tracks(w)
    ensures var v := Take(fp, w, Observe);
            && v.host == w.host && v.log == w.log
            && SameShape(v.view.nodes, w.host.nodes)
            && v.view.rev == Or(Stamp(w.host), w.view.rev)
            && (Tracks(v) <==> !Strands(w))
            && (Exact(w) ==> (Exact(v) <==> !LosesScalars(w)))
            && (Stamp(w.host).None? ==> v.view.nodes == w.host.nodes)
  {
    ObserveAnswers(w);
    ShapeOfSelf(w.host.nodes);
    var (a, d) := Respond(w.cache, w.host, w.view.rev);
    var v := Take(fp, w, Observe);
    if a.Patched? {
      var prior := w.log[w.view.rev.value];
      NonEmptyIdsRide(prior, w.host.nodes);
      ApplyKeepsShape(w.view.nodes, prior, w.host.nodes);
      if Exact(w) {
        PatchOfCopy(w.view.nodes, prior, w.host.nodes);
        SameIffFlat(v.view.nodes, w.host.nodes);
      }
    }
  }

  /** The gate lets an action through exactly when the target still exists on the host and its
      current fingerprint is the one the runner saw; otherwise only the cache changes. */
  lemma {:induction false} GateIsAtomic(fp: Fingerprint, w: World, target: string, after: Host)
    requires Tracks(w) && target in Ids(w.view.nodes)
    ensures var v := Take(fp, w, Act(target, after));
            var now := Flat(w.host.nodes, target);
            if now.Some? && fp(target, now.value) == fp(target, Flat(w.view.nodes, target).value)
            then v == Become(w.(cache := v.cache), after)
            else v == w.(cache := v.cache)
  {
    SnapshotIsFresh(w.cache, w.log, w.host);
  }

  /** A request written again meets the host as its first copy left it: the second copy is refused exactly if
      the target is gone or looks different by then, and otherwise runs as well. */
  lemma {:induction false} ResentCopy(fp: Fingerprint, w: World, target: string, after: Host, other: Host)
    requires Tracks(w) && Honest(w.log, after) && target in Ids(w.view.nodes) && target in Ids(w.host.nodes)
    requires fp(target, Flat(w.host.nodes, target).value) == fp(target, Flat(w.view.nodes, target).value)
    ensures var first := Take(fp, w, Act(target, after));
            var now := Flat(after.nodes, target);
            && first.host == after && first.view == w.view
            && Take(fp, first, Act(target, other)).host ==
                 if now.Some? && fp(target, now.value) == fp(target, Flat(w.view.nodes, target).value)
                 then other else after
  {
    GateIsAtomic(fp, w, target, after);
    StepKeepsTracking(fp, w, Act(target, after));
    var first := Take(fp, w, Act(target, after));
    hide Tracks, Take, Honest, Unique;
    GateIsAtomic(fp, first, target, other);
  }

  predicate Fair(w: World, s: Step)
  {
    match s
    case HostMoves(h) => Honest(w.log, h)
    case Act(_, after) => Honest(w.log, after)
    case _ => true
  }

  lemma {:induction false} BecomeKeepsTracking(w: World, h: Host)
    requires Tracks(w) && Honest(w.log, h)
    ensures Tracks(Become(w, h)) && (Exact(w) ==> Exact(Become(w, h)))
  {
  }

  /** Every step keeps the tracking invariant; only an observation can strand or lose anything. */
  lemma {:induction false} StepKeepsTracking(fp: Fingerprint, w: World, s: Step)
    requires Tracks(w) && Fair(w, s) && (s.Observe? ==> !Strands(w))
    ensures Tracks(Take(fp, w, s))
    ensures Exact(w) && (s.Observe? ==> !LosesScalars(w)) ==> Exact(Take(fp, w, s))
  {
    SnapshotIsFresh(w.cache, w.log, w.host);
    match s
    case HostMoves(h) => BecomeKeepsTracking(w, h);
    case OtherCall =>
    case Reconnect =>
    case Observe => ObserveCatchesUp(fp, w);
    case Act(target, after) =>
      if target in Ids(w.view.nodes) {
        GateIsAtomic(fp, w, target, after);
        BecomeKeepsTracking(w.(cache := SnapshotStep(w.cache, w.host).1), after);
      }
  }

  ghost function Run(fp: Fingerprint, w: World, steps: seq<Step>): World
    decreases steps
  {
    if steps == [] then w else Run(fp, Take(fp, w, steps[0]), steps[1..])
  }

  /** All host moves are honest and no observation strands the runner. */
  ghost predicate FairRun(fp: Fingerprint, w: World, steps: seq<Step>)
    decreases steps
  {
    steps != [] ==>
      && Fair(w, steps[0]) && (steps[0].Observe? ==> !Strands(w))
      && FairRun(fp, Take(fp, w, steps[0]), steps[1..])
  }

  ghost predicate KeepsScalars(fp: Fingerprint, w: World, steps: seq<Step>)
    decreases steps
  {
    steps != [] ==>
      (steps[0].Observe? ==> !LosesScalars(w)) && KeepsScalars(fp, Take(fp, w, steps[0]), steps[1..])
  }

  /** Over every run the view has the shape of the revision it claims, and is that revision up to
      sibling order as long as no observation loses a scalar. */
  lemma {:induction false} ViewNeverDrifts(fp: Fingerprint, w: World, steps: seq<Step>)
    requires Tracks(w) && FairRun(fp, w, steps)
    ensures Tracks(Run(fp, w, steps))
    ensures Exact(w) && KeepsScalars(fp, w, steps) ==> Exact(Run(fp, w, steps))
    decreases steps
  {
    if steps != [] {
      StepKeepsTracking(fp, w, steps[0]);
      ViewNeverDrifts(fp, Take(fp, w, steps[0]), steps[1..]);
    }
  }

  /** A runner that has not observed yet, on a new connection to an honest host. */
  lemma {:induction false} StartTracks(h: Host)
    requires Honest(map[], h)
    ensures var w := Become(World(h, map[], EMPTY_CACHE, View([], None)), h); Tracks(w) && Exact(w)
  {
  }

  lemma {:induction false} RunFirst(fp: Fingerprint, w: World, s: Step, rest: seq<Step>)
    ensures Run(fp, w, [s] + rest) == Run(fp, Take(fp, w, s), rest)
  {
    assert ([s] + rest)[1..] == rest;
  }

  /** A host that reports revision 5, then none, then 5 again for the first tree leaves the runner
      with the second tree under revision 5. */
  lemma {:induction false} DroppedRevisionStrands(fp: Fingerprint, a: Node)
    requires Unique([a]) && a.id != "" && "" !in Ids(a.children)
    ensures var first := Host([a], Some(5), None);
            var w := Become(World(first, map[], EMPTY_CACHE, View([], None)), first);
            var v := Run(fp, w, [Observe, HostMoves(Host([], None, None)), Observe, HostMoves(first), Observe]);
            v.host == first && v.view == View([], Some(5))
  {
    hide Apply, Diff, SameShape, Coherent, Honest;
    var first, none := Host([a], Some(5), None), Host([], None, None);
    var w0 := Become(World(first, map[], EMPTY_CACHE, View([], None)), first);
    var w1 := Take(fp, w0, Observe);
    assert w1.view == View([a], Some(5)) && w1.cache.ring == [Revision(5, Tree([a], Some(5)))];
    var w2 := Take(fp, w1, HostMoves(none));
    var w3 := Take(fp, w2, Observe);
    assert w3.view == View([], Some(5)) && w3.cache.ring == w1.cache.ring;
    var w4 := Take(fp, w3, HostMoves(first));
    var w5 := Take(fp, w4, Observe);
    assert w5.view == View([], Some(5));
    hide Take, Become;
    RunFirst(fp, w4, Observe, []);
    RunFirst(fp, w3, HostMoves(first), [Observe]);
    RunFirst(fp, w2, Observe, [HostMoves(first), Observe]);
    RunFirst(fp, w1, HostMoves(none), [Observe, HostMoves(first), Observe]);
    RunFirst(fp, w0, Observe, [HostMoves(none), Observe, HostMoves(first), Observe]);
    assert [Observe] + [] == [Observe];
    assert [HostMoves(first)] + [Observe] == [HostMoves(first), Observe];
    assert [Observe] + [HostMoves(first), Observe] == [Observe, HostMoves(first), Observe];
    assert [HostMoves(none)] + [Observe, HostMoves(first), Observe] ==
        [HostMoves(none), Observe, HostMoves(first), Observe];
    assert [Observe] + [HostMoves(none), Observe, HostMoves(first), Observe]
        == [Observe, HostMoves(none), Observe, HostMoves(first), Observe];
  }

  /** A checkbox is ticked, the answer is lost, and the request is written again: the first copy ran, and the
      second is refused, whatever it would have done. */
  lemma {:induction false} LostAnswerLooksStale(fp: Fingerprint, off: Attrs, on: Attrs, other: Host)
    requires off.checked == Some(false) && on == off.(checked := Some(true))
    requires fp("done", Row(off, None)) != fp("done", Row(on, None))
    ensures var before, after := Host([Node("done", off, [])], Some(1), None),
              Host([Node("done", on, [])], Some(2), None);
            var w := Become(World(before, map[], EMPTY_CACHE, View([], None)), before);
            var seen := Take(fp, w, Observe);
            && seen.view.nodes == before.nodes
            && Take(fp, Take(fp, seen, Act("done", after)), Act("done", other)).host == after
  {
    var before, after := Host([Node("done", off, [])], Some(1), None), Host([Node("done", on, [])], Some(2), None);
    var w := Become(World(before, map[], EMPTY_CACHE, View([], None)), before);
    var seen := Take(fp, w, Observe);
    assert seen.view == View(before.nodes, Some(1)) && seen.log == map[1 := before.nodes] && seen.host == before;
    assert Tracks(w) by { StartTracks(before); }
    assert Tracks(seen) by { StepKeepsTracking(fp, w, Observe); }
    assert Flat(before.nodes, "done") == Some(Row(off, None)) && Flat(after.nodes, "done") == Some(Row(on, None));
    assert Honest(seen.log, after);
    hide *;
    ResentCopy(fp, seen, "done", after, other);
  }
}
