/** The per-connection snapshot cache and its ring of past revisions. */
module SnapshotCache {
  import opened Ordering
  import opened UiForest

  const REV_RING_DEPTH: nat := 8

  datatype Tree = Tree(nodes: Forest, rev: Option<nat>)

  /** What a host answers: its revision counter (if it keeps one) and its snapshot. */
  datatype Host = Host(nodes: Forest, revision: Option<nat>, treeRev: Option<nat>)

  /** The revision a fresh snapshot is stamped with. */
  function Stamp(h: Host): Option<nat>
  {
    if h.revision.Some? then h.revision else h.treeRev
  }

  datatype Revision = Revision(rev: nat, tree: Tree)

  datatype CacheState = CacheState(ring: seq<Revision>, rebuilds: nat)

  const EMPTY_CACHE := CacheState([], 0)

  predicate Hit(c: CacheState, h: Host)
  {
    h.revision.Some? && c.ring != [] && c.ring[|c.ring| - 1].rev == h.revision.value
  }

  function Trim(ring: seq<Revision>): seq<Revision>
  {
    if |ring| > REV_RING_DEPTH then ring[|ring| - REV_RING_DEPTH..] else ring
  }

  function SnapshotStep(c: CacheState, h: Host): (Tree, CacheState)
  {
    if Hit(c, h) then (c.ring[|c.ring| - 1].tree, c)
    else
      var tree := Tree(h.nodes, Stamp(h));
      if Stamp(h).Some?
      then (tree, CacheState(Trim(c.ring + [Revision(Stamp(h).value, tree)]), c.rebuilds + 1))
      else (tree, CacheState(c.ring, c.rebuilds + 1))
  }

  /** The oldest ring entry with this revision. */
  function TreeAt(ring: seq<Revision>, rev: nat): Option<Tree>
  {
    if ring == [] then None
    else if ring[0].rev == rev then Some(ring[0].tree)
    else TreeAt(ring[1..], rev)
  }

  class TreeCache {
    var ring: seq<Revision>
    var rebuilds: nat

    ghost function State(): CacheState
      reads this
    {
      CacheState(ring, rebuilds)
    }

    constructor ()
      ensures State() == EMPTY_CACHE
    {
      ring, rebuilds := [], 0;
    }

    method Snapshot(h: Host) returns (tree: Tree)
      modifies this
      ensures (tree, State()) == SnapshotStep(old(State()), h)
    {
      if h.revision.Some? {
        if |ring| > 0 {
          var last := ring[|ring| - 1];
          if last.rev == h.revision.value { return last.tree; }
        }
      }
      rebuilds := rebuilds + 1;
      tree := Tree(h.nodes, h.treeRev);
      var rev := if h.revision.Some? then h.revision else tree.rev;
      if rev.Some? {
        tree := tree.(rev := rev);
        ring := ring + [Revision(rev.value, tree)];
        ghost var pushed := ring;
        while |ring| > REV_RING_DEPTH
          invariant |ring| <= |pushed| && ring == pushed[|pushed| - |ring|..]
          invariant |ring| >= REV_RING_DEPTH || ring == pushed
          invariant rebuilds == old(rebuilds) + 1
          decreases |ring|
        {
          ring := ring[1..];
        }
        assert ring == Trim(pushed);
        tree := ring[|ring| - 1].tree;
      }
    }

    method At(rev: nat) returns (tree: Option<Tree>)
      ensures tree == TreeAt(ring, rev)
    {
      for i := 0 to |ring|
        invariant TreeAt(ring, rev) == TreeAt(ring[i..], rev)
      {
        if ring[i].rev == rev { return Some(ring[i].tree); }
      }
      return None;
    }
  }

  // ----- coherence with an honest host

  /** Every tree a revision number has ever stood for; an honest host never reuses a number. */
  type Log = map<nat, Forest>

  predicate Logged(log: Log, h: Host)
  {
    Stamp(h).Some? ==> Stamp(h).value in log && log[Stamp(h).value] == h.nodes
  }

  predicate Coherent(c: CacheState, log: Log)
  {
    && |c.ring| <= REV_RING_DEPTH
    && forall e :: e in c.ring ==> e.rev in log && e.tree == Tree(log[e.rev], Some(e.rev))
  }

  predicate Ascends(ring: seq<Revision>)
  {
    forall i, j :: 0 <= i < j < |ring| ==> ring[i].rev < ring[j].rev
  }

  /** No revision in the ring is later than the host's. */
  predicate NotAhead(ring: seq<Revision>, h: Host)
  {
    h.revision.Some? && forall e :: e in ring ==> e.rev <= h.revision.value
  }

  /** The cached answer always equals a fresh, stamped snapshot, and the ring stays a bounded
      excerpt of the log that remembers the current revision. */
  lemma {:induction false} SnapshotIsFresh(c: CacheState, log: Log, h: Host)
    requires Coherent(c, log) && Logged(log, h)
    ensures var (tree, d) := SnapshotStep(c, h);
            && tree == Tree(h.nodes, Stamp(h))
            && Coherent(d, log)
            && (Stamp(h).Some? ==> TreeAt(d.ring, Stamp(h).value) == Some(tree))
  {
    var (tree, d) := SnapshotStep(c, h);
    if Hit(c, h) {
      assert c.ring[|c.ring| - 1] in c.ring;
    }
    if Stamp(h).Some? {
      assert d.ring[|d.ring| - 1] == Revision(Stamp(h).value, tree);
      TreeAtFinds(d.ring, log, |d.ring| - 1);
    }
  }

  lemma {:induction false} TreeAtFinds(ring: seq<Revision>, log: Log, k: nat)
    requires k < |ring|
    requires forall e :: e in ring ==> e.rev in log && e.tree == Tree(log[e.rev], Some(e.rev))
    ensures TreeAt(ring, ring[k].rev) == Some(Tree(log[ring[k].rev], Some(ring[k].rev)))
  {
    assert ring[0] in ring && ring[k] in ring;
    if ring[0].rev != ring[k].rev { TreeAtFinds(ring[1..], log, k - 1); }
  }

  lemma {:induction false} TreeAtIsLogged(ring: seq<Revision>, log: Log, rev: nat)
    requires forall e :: e in ring ==> e.rev in log && e.tree == Tree(log[e.rev], Some(e.rev))
    ensures TreeAt(ring, rev).Some? ==> rev in log && TreeAt(ring, rev).value == Tree(log[rev], Some(rev))
  {
    if ring != [] {
      assert ring[0] in ring;
      TreeAtIsLogged(ring[1..], log, rev);
    }
  }

  lemma {:induction false} PushAscends(ring: seq<Revision>, next: Revision)
    requires Ascends(ring) && (ring != [] ==> ring[|ring| - 1].rev < next.rev)
    ensures Ascends(ring + [next])
  {
    var pushed := ring + [next];
    forall i, j | 0 <= i < j < |pushed| ensures pushed[i].rev < pushed[j].rev {
      if j == |ring| && i < |ring| - 1 { assert ring[i].rev < ring[|ring| - 1].rev; }
    }
  }

  lemma {:induction false} TrimAscends(ring: seq<Revision>)
    requires Ascends(ring)
    ensures Ascends(Trim(ring)) && |Trim(ring)| <= REV_RING_DEPTH
    ensures forall e :: e in Trim(ring) ==> e in ring
  {
  }

  /** With a counter that only grows, the ring's revisions are strictly increasing. */
  lemma {:induction false} RingAscends(c: CacheState, h: Host)
    requires Ascends(c.ring) && NotAhead(c.ring, h)
    ensures var d := SnapshotStep(c, h).1; Ascends(d.ring) && NotAhead(d.ring, h)
    ensures Hit(c, h) || |SnapshotStep(c, h).1.ring| <= REV_RING_DEPTH
  {
    if !Hit(c, h) {
      var next := Revision(h.revision.value, Tree(h.nodes, h.revision));
      assert c.ring != [] ==> c.ring[|c.ring| - 1] in c.ring;
      assert SnapshotStep(c, h).1.ring == Trim(c.ring + [next]);
      hide Ascends, Trim, SnapshotStep, Hit;
      PushAscends(c.ring, next);
      TrimAscends(c.ring + [next]);
    }
  }

  // ----- how often the host is asked for a snapshot

  function Serve(c: CacheState, calls: seq<Host>): CacheState
  {
    if calls == [] then c else SnapshotStep(Serve(c, calls[..|calls| - 1]), calls[|calls| - 1]).1
  }

  /** The revision of the latest call that had one. */
  function LastStamp(calls: seq<Host>): Option<nat>
  {
    if calls == [] then None
    else
      var s := Stamp(calls[|calls| - 1]);
      if s.Some? then s else LastStamp(calls[..|calls| - 1])
  }

  /** Calls that had to rebuild: no revision counter, or not the last stamped revision. */
  function Misses(calls: seq<Host>): nat
  {
    if calls == [] then 0
    else
      var front, last := calls[..|calls| - 1], calls[|calls| - 1];
      Misses(front) + if last.revision.Some? && last.revision == LastStamp(front) then 0 else 1
  }

  /** From a fresh cache, the rebuild counter is the number of missing calls. */
  lemma {:induction false} RebuildsCountMisses(calls: seq<Host>)
    ensures var c := Serve(EMPTY_CACHE, calls);
            && c.rebuilds == Misses(calls)
            && LastStamp(calls) == if c.ring == [] then None else Some(c.ring[|c.ring| - 1].rev)
  {
    if calls != [] { RebuildsCountMisses(calls[..|calls| - 1]); }
  }

  /** What a call adds to the stamped snapshots. */
  function Adds(hit: bool, h: Host): seq<Revision>
  {
    if hit || Stamp(h).None? then [] else [Revision(Stamp(h).value, Tree(h.nodes, Stamp(h)))]
  }

  /** The stamped snapshots the calls rebuilt, oldest first. */
  function Rebuilt(calls: seq<Host>): seq<Revision>
  {
    if calls == [] then []
    else
      var front, last := calls[..|calls| - 1], calls[|calls| - 1];
      var hit := last.revision.Some? && last.revision == LastStamp(front);
      Rebuilt(front) + Adds(hit, last)
  }

  /** The ring is the tail of `all`, as long as fits. */
  predicate IsTail(ring: seq<Revision>, all: seq<Revision>)
  {
    && |ring| == (if |all| < REV_RING_DEPTH then |all| else REV_RING_DEPTH)
    && ring == all[|all| - |ring|..]
  }

  lemma {:induction false} TailGrows(ring: seq<Revision>, all: seq<Revision>, e: Revision)
    requires IsTail(ring, all)
    ensures IsTail(Trim(ring + [e]), all + [e])
  {
    assert ring + [e] == (all + [e])[|all| - |ring|..];
  }

  lemma {:induction false} StepKeepsTail(c: CacheState, all: seq<Revision>, h: Host)
    requires IsTail(c.ring, all)
    ensures IsTail(SnapshotStep(c, h).1.ring, all + Adds(Hit(c, h), h))
  {
    hide IsTail, Trim;
    assert all + [] == all;
    if !Hit(c, h) && Stamp(h).Some? {
      TailGrows(c.ring, all, Revision(Stamp(h).value, Tree(h.nodes, Stamp(h))));
    }
  }

  /** From a fresh cache, the ring holds exactly the last eight stamped rebuilds, whatever the host. */
  lemma {:induction false} RingIsRecent(calls: seq<Host>)
    ensures IsTail(Serve(EMPTY_CACHE, calls).ring, Rebuilt(calls))
  {
    if calls != [] {
      var front, last := calls[..|calls| - 1], calls[|calls| - 1];
      var c := Serve(EMPTY_CACHE, front);
      RingIsRecent(front);
      StepKeepsTail(c, Rebuilt(front), last);
      HitIsRepeat(front, last);
      hide IsTail, SnapshotStep, Hit, LastStamp;
    }
  }

  lemma {:induction false} HitIsRepeat(calls: seq<Host>, h: Host)
    ensures Hit(Serve(EMPTY_CACHE, calls), h) <==> h.revision.Some? && h.revision == LastStamp(calls)
  {
    RebuildsCountMisses(calls);
    hide Serve, LastStamp, Misses;
  }

  /** A revision rebuilt by one of the last eight stamped rebuilds is found again, and no other is. */
  lemma {:induction false} RecentIsRemembered(calls: seq<Host>, rev: nat)
    ensures var all := Rebuilt(calls);
            TreeAt(Serve(EMPTY_CACHE, calls).ring, rev).Some? <==>
              exists k :: 0 <= k < |all| && |all| - k <= REV_RING_DEPTH && all[k].rev == rev
  {
    var all, ring := Rebuilt(calls), Serve(EMPTY_CACHE, calls).ring;
    RingIsRecent(calls);
    TreeAtIff(ring, rev);
    hide Rebuilt, Serve, TreeAt;
    if i :| 0 <= i < |ring| && ring[i].rev == rev { assert all[|all| - |ring| + i].rev == rev; }
    if k :| 0 <= k < |all| && |all| - k <= REV_RING_DEPTH && all[k].rev == rev {
      assert ring[k - (|all| - |ring|)].rev == rev;
    }
  }

  /** The oldest entry with the revision is the one found, and nothing is found exactly if there is none. */
  lemma {:induction false} TreeAtIff(ring: seq<Revision>, rev: nat)
    ensures TreeAt(ring, rev).Some? <==> exists i :: 0 <= i < |ring| && ring[i].rev == rev
    ensures TreeAt(ring, rev).Some? ==>
              exists i :: 0 <= i < |ring| && ring[i].rev == rev && TreeAt(ring, rev).value == ring[i].tree
                          && forall j :: 0 <= j < i ==> ring[j].rev != rev
  {
    if ring != [] {
      TreeAtIff(ring[1..], rev);
      if ring[0].rev != rev && TreeAt(ring, rev).Some? {
        var k :| 0 <= k < |ring[1..]| && ring[1..][k].rev == rev && TreeAt(ring, rev).value == ring[1..][k].tree
                 && forall j :: 0 <= j < k ==> ring[1..][j].rev != rev;
        assert ring[k + 1].rev == rev && forall j :: 0 < j < k + 1 ==> ring[j] == ring[1..][j - 1];
      }
      if i :| 0 <= i < |ring| && ring[i].rev == rev && i > 0 { assert ring[1..][i - 1].rev == rev; }
      if i :| 0 <= i < |ring[1..]| && ring[1..][i].rev == rev { assert ring[i + 1].rev == rev; }
    }
  }
}
