/** `apply_diff` inverts `diff_trees`, for the tree diffed and for any client copy of its shape. */
module PatchTheorem {
  import opened Ordering
  import opened UiForest
  import opened TreeDiff
  import opened Prune
  import opened Patch
  import opened DiffReads

  // ----- the removal phase

  /** The two revisions' indexes and their flat readings agree on what is displaced. */
  lemma {:induction false} DisplacedAt(prior: Forest, next: Forest, x: string)
    requires Unique(prior) && Unique(next)
    ensures var before, after := IndexOf(prior, None), IndexOf(next, None);
            x in Displaced(prior, next) <==> Moved(before, after, x) || (x in before && x !in after)
  {
    IndexReads(prior, None, x);
    IndexReads(next, None, x);
  }

  lemma {:induction false} RemovedAt(prior: Forest, next: Forest, x: string)
    requires Unique(prior) && Unique(next)
    ensures x in Diff(prior, next).removed <==> x in Displaced(prior, next)
  {
    DisplacedAt(prior, next, x);
    var before, after := IndexOf(prior, None), IndexOf(next, None);
    hide Displaced, IndexOf;
    SortedKeysListing(after.Keys);
    SortedKeysListing(before.Keys);
    var moved := CompareOver(SortedKeys(after.Keys), before, after).removed;
    var gone := GoneOver(SortedKeys(before.Keys), after);
    MovedMembers(SortedKeys(after.Keys), before, after, x);
    GoneMembers(SortedKeys(before.Keys), after, x);
    assert Diff(prior, next).removed == SortedKeys(set id | id in moved + gone);
    hide *;
    SortedKeysListing(set id | id in moved + gone);
  }

  lemma {:induction false} RemovedIsDisplaced(prior: Forest, next: Forest)
    requires Unique(prior) && Unique(next)
    ensures (set x | x in Diff(prior, next).removed) == Displaced(prior, next)
  {
    forall x ensures x in Diff(prior, next).removed <==> x in Displaced(prior, next) { RemovedAt(prior, next, x); }
    hide *;
  }

  // ----- the grafting phase

  /** `out` is `next` with the subtrees named in `rest` still missing; nodes of `base` keep their `base` rows. */
  ghost predicate Partial(out: Forest, base: Forest, next: Forest, rest: set<string>)
  {
    && Unique(out)
    && Ids(out) == Ids(Cut(next, rest))
    && forall x :: x in Ids(out) ==> Flat(out, x) == if x in Ids(base) then Flat(base, x) else Flat(next, x)
  }

  /** An addition as `Diff` emits it for a node of `next`. */
  ghost predicate Genuine(next: Forest, add: AddedNode)
  {
    var after := IndexOf(next, None);
    add.node.id in after && add == AddedNode(after[add.node.id].node, after[add.node.id].parent)
  }

  lemma {:induction false} PlaceReads(out: Forest, add: AddedNode, x: string)
    requires Unique(out) && Unique([add.node]) && Ids([add.node]) !! Ids(out)
    requires add.parent.Some? ==> add.parent.value != "" && add.parent.value in Ids(out)
    ensures Unique(Place(out, add)) && Ids(Place(out, add)) == Ids(out) + Ids([add.node])
    ensures Flat(Place(out, add), x) == if x in Ids(out) then Flat(out, x) else RowAt([add.node], add.parent, x)
  {
    if add.parent.Some? {
      var edit := (n: Node) => n.(children := n.children + [add.node]);
      PushIds(out, add.parent.value, add.node, edit);
      PushReads(out, add.parent.value, add.node, edit, None, x);
    } else {
      Concat(out, [add.node]);
      ConcatRow(out, [add.node], None, x);
    }
  }

  /** A topmost displaced node that is still missing can be placed, and only its subtree appears. */
  lemma {:induction false} PlaceTop(out: Forest, base: Forest, prior: Forest, next: Forest, rest: set<string>,
                                    add: AddedNode)
    requires Unique(prior) && Unique(next) && Ids(base) == Kept(prior, next)
    requires rest <= Tops(prior, next) && add.node.id in rest && Genuine(next, add)
    requires add.parent != Some("") && Partial(out, base, next, rest)
    ensures add.node.id !in Ids(out) && CanPlace(out, add)
    ensures Partial(Place(out, add), base, next, rest - {add.node.id})
  {
    var q := add.node.id;
    var less := rest - {q};
    TopsCoverDisplaced(prior, next);
    CutLessKeepsMore(next, rest, Tops(prior, next));
    CutLessKeepsMore(next, less, rest);
    IndexReads(next, None, q);
    SurvivesIff(next, rest, None, q);
    SurvivesIff(next, less, None, q);
    TopSubtree(prior, next, q);
    assert less + {q} == rest;
    CutOneMore(next, None, less, q);
    SubtreeReads(next, None, q, q);
    assert HangsIn(next, None, q, Kept(prior, next));
    var placed := Place(out, add);
    PlaceReads(out, add, q);
    forall x | x in Ids(placed)
      ensures Flat(placed, x) == if x in Ids(base) then Flat(base, x) else Flat(next, x)
    {
      PlaceReads(out, add, x);
      SubtreeReads(next, None, q, x);
    }
  }

  ghost predicate Emittable(prior: Forest, next: Forest, add: AddedNode)
  {
    Genuine(next, add) && add.node.id in Displaced(next, prior)
  }

  function NamesOf(adds: seq<AddedNode>): set<string>
  {
    set a | a in adds :: a.node.id
  }

  /** An addition that is neither missing at the top nor present has to wait for its ancestor. */
  lemma {:induction false} WaitsForAncestor(out: Forest, base: Forest, prior: Forest, next: Forest, rest: set<string>,
                                            add: AddedNode)
    requires Unique(prior) && Unique(next) && rest <= Tops(prior, next)
    requires Emittable(prior, next, add) && Partial(out, base, next, rest)
    requires add.node.id !in rest && add.node.id !in Ids(out) && add.parent != Some("")
    ensures !CanPlace(out, add) && rest != {}
  {
    IndexReads(next, None, add.node.id);
    SurvivesIff(next, rest, None, add.node.id);
    if rest == {} { CutNothing(next, {}); }
  }

  lemma {:induction false} SweepOne(s: Grafting, base: Forest, prior: Forest, next: Forest, rest: set<string>,
                                    add: AddedNode)
    requires Unique(prior) && Unique(next) && Ids(base) == Kept(prior, next) && rest <= Tops(prior, next)
    requires Emittable(prior, next, add) && Partial(s.out, base, next, rest)
    requires add.parent == Some("") ==> add.node.id in Ids(s.out)
    ensures var t := GraftOne(s, add);
            && Partial(t.out, base, next, rest - {add.node.id})
            && t.progress == (s.progress || add.node.id in rest)
            && t.out == (if add.node.id in rest then Place(s.out, add) else s.out)
            && (add.node.id in rest ==> add.node.id !in Ids(s.out) && CanPlace(s.out, add))
            && (t.kept == s.kept || (t.kept == s.kept + [add] && rest != {}))
  {
    var q := add.node.id;
    CutKeepsRows(next, rest, None, q);
    if q in rest {
      PlaceTop(s.out, base, prior, next, rest, add);
    } else {
      assert rest - {q} == rest;
      if q !in Ids(s.out) { WaitsForAncestor(s.out, base, prior, next, rest, add); }
    }
  }

  /** If the parent id of `add` is empty, what was swept before it has put it in place. */
  ghost predicate InTurn(next: Forest, rest: set<string>, front: seq<AddedNode>, add: AddedNode)
  {
    add.parent == Some("") ==> add.node.id in Ids(Cut(next, rest - NamesOf(front)))
  }

  ghost predicate AllInTurn(next: Forest, rest: set<string>, pending: seq<AddedNode>)
  {
    forall i :: 0 <= i < |pending| ==> InTurn(next, rest, pending[..i], pending[i])
  }

  /** What a sweep over `pending` leaves. */
  ghost predicate Swept(s: Grafting, base: Forest, next: Forest, rest: set<string>, pending: seq<AddedNode>)
  {
    && Partial(s.out, base, next, rest - NamesOf(pending))
    && (s.progress <==> rest * NamesOf(pending) != {})
    && (forall a :: a in s.kept ==> a in pending)
    && (rest == {} ==> s.kept == [])
  }

  lemma {:induction false} NamesGrow(front: seq<AddedNode>, last: AddedNode)
    ensures NamesOf(front + [last]) == NamesOf(front) + {last.node.id}
  {
  }

  lemma {:induction false} SweepStep(s: Grafting, base: Forest, prior: Forest, next: Forest, rest: set<string>,
                                     front: seq<AddedNode>, last: AddedNode)
    requires Unique(prior) && Unique(next) && Ids(base) == Kept(prior, next) && rest <= Tops(prior, next)
    requires Emittable(prior, next, last) && Swept(s, base, next, rest, front) && InTurn(next, rest, front, last)
    ensures Swept(GraftOne(s, last), base, next, rest, front + [last])
  {
    assert last.parent == Some("") ==> last.node.id in Ids(s.out);
    hide Partial, Emittable, Kept, Tops, GraftOne, Unique, Ids, NamesOf, Cut, InTurn;
    var names, x := NamesOf(front), last.node.id;
    NamesGrow(front, last);
    SweepOne(s, base, prior, next, rest - names, last);
    assert rest - names - {x} == rest - (names + {x});
    assert rest * (names + {x}) != {} <==> rest * names != {} || x in rest - names by {
      assert rest * (names + {x}) == rest * names + rest * {x};
      if x in rest { assert x in rest * (names + {x}); } else { assert rest * {x} == {}; }
      if x in names && x in rest { assert x in rest * names; }
    }
    var t := GraftOne(s, last);
    forall a | a in t.kept ensures a in front + [last] {
      if a in s.kept { assert a in front; }
    }
  }

  lemma {:induction false} FrontEmittable(prior: Forest, next: Forest, pending: seq<AddedNode>)
    requires pending != [] && forall a :: a in pending ==> Emittable(prior, next, a)
    ensures Emittable(prior, next, pending[|pending| - 1])
    ensures forall a :: a in pending[..|pending| - 1] ==> Emittable(prior, next, a)
  {
    hide Emittable;
    forall a | a in pending[..|pending| - 1] ensures Emittable(prior, next, a) { assert a in pending; }
  }

  lemma {:induction false} FrontInTurn(next: Forest, rest: set<string>, pending: seq<AddedNode>)
    requires pending != [] && AllInTurn(next, rest, pending)
    ensures AllInTurn(next, rest, pending[..|pending| - 1])
    ensures InTurn(next, rest, pending[..|pending| - 1], pending[|pending| - 1])
  {
    hide InTurn;
    PrefixInTurn(next, rest, pending, |pending| - 1);
  }

  lemma {:induction false} PrefixInTurn(next: Forest, rest: set<string>, pending: seq<AddedNode>, n: nat)
    requires n <= |pending| && forall i :: 0 <= i < n ==> InTurn(next, rest, pending[..i], pending[i])
    ensures AllInTurn(next, rest, pending[..n])
  {
    hide InTurn;
    forall i | 0 <= i < n ensures InTurn(next, rest, pending[..n][..i], pending[..n][i]) {
      assert pending[..n][..i] == pending[..i];
    }
  }

  /** Once every subtree is in place, every addition is. */
  lemma {:induction false} PlacedInTurn(prior: Forest, next: Forest, pending: seq<AddedNode>)
    requires Unique(next) && forall a :: a in pending ==> Emittable(prior, next, a)
    ensures AllInTurn(next, {}, pending)
  {
    CutNothing(next, {});
    forall i | 0 <= i < |pending| ensures InTurn(next, {}, pending[..i], pending[i]) {
      assert Emittable(prior, next, pending[i]);
      IndexReads(next, None, pending[i].node.id);
      assert {} - NamesOf(pending[..i]) == {};
    }
  }

  /** One sweep places every missing top among the pending additions, each once. */
  lemma {:induction false} Sweep(out: Forest, base: Forest, prior: Forest, next: Forest, rest: set<string>,
                                 pending: seq<AddedNode>)
    requires Unique(prior) && Unique(next) && Ids(base) == Kept(prior, next) && rest <= Tops(prior, next)
    requires Partial(out, base, next, rest) && AllInTurn(next, rest, pending)
    requires forall a :: a in pending ==> Emittable(prior, next, a)
    ensures Swept(GraftPass(out, pending), base, next, rest, pending)
  {
    if pending == [] {
      assert rest - NamesOf(pending) == rest;
    } else {
      FrontInTurn(next, rest, pending);
      hide Partial, Emittable, Kept, Tops, GraftOne, Unique, Ids, Swept, AllInTurn;
      var front, last := pending[..|pending| - 1], pending[|pending| - 1];
      assert GraftPass(out, pending) == GraftOne(GraftPass(out, front), last);
      hide GraftPass;
      FrontEmittable(prior, next, pending);
      Sweep(out, base, prior, next, rest, front);
      SweepStep(GraftPass(out, front), base, prior, next, rest, front, last);
      assert pending == front + [last];
    }
  }

  /** The graft loop ends with nothing pending and every subtree in place. */
  lemma {:induction false} GraftLoopCompletes(out: Forest, base: Forest, prior: Forest, next: Forest,
                                              rest: set<string>, pending: seq<AddedNode>)
    requires Unique(prior) && Unique(next) && Ids(base) == Kept(prior, next) && rest <= Tops(prior, next)
    requires Partial(out, base, next, rest) && rest <= NamesOf(pending) && AllInTurn(next, rest, pending)
    requires forall a :: a in pending ==> Emittable(prior, next, a)
    ensures var (r, left) := GraftLoop(out, pending); left == [] && Partial(r, base, next, {})
    decreases |pending|
  {
    if pending == [] {
      assert rest == {};
    } else {
      var s := GraftPass(out, pending);
      Sweep(out, base, prior, next, rest, pending);
      assert rest - NamesOf(pending) == {};
      if s.progress {
        PlacedInTurn(prior, next, s.kept);
        GraftLoopCompletes(s.out, base, prior, next, {}, s.kept);
      } else {
        assert rest == rest * NamesOf(pending);
      }
    }
  }

  // ----- the additions of a diff

  lemma {:induction false} IndexIsNamed(f: Forest)
    requires Unique(f)
    ensures Named(IndexOf(f, None)) && IndexOf(f, None).Keys == Ids(f)
  {
    forall x ensures x in IndexOf(f, None) <==> x in Ids(f) { IndexReads(f, None, x); }
    forall x | x in IndexOf(f, None) ensures IndexOf(f, None)[x].node.id == x { IndexReads(f, None, x); }
  }

  lemma {:induction false} AddedAt(prior: Forest, next: Forest, e: AddedNode)
    requires Unique(prior) && Unique(next)
    ensures var before, after := IndexOf(prior, None), IndexOf(next, None);
            e in Diff(prior, next).added <==>
              Genuine(next, e) && e.node.id in after && Grafts(before, after, e.node.id)
  {
    var before, after := IndexOf(prior, None), IndexOf(next, None);
    IndexIsNamed(next);
    SortedKeysListing(after.Keys);
    AddedMembers(SortedKeys(after.Keys), before, after, e);
    assert Diff(prior, next).added == CompareOver(SortedKeys(after.Keys), before, after).added;
    hide IndexOf, CompareOver, Grafts, SortedKeys;
  }

  lemma {:induction false} AddedIsEmittable(prior: Forest, next: Forest, e: AddedNode)
    requires Unique(prior) && Unique(next) && e in Diff(prior, next).added
    ensures Emittable(prior, next, e)
  {
    AddedAt(prior, next, e);
    hide Diff;
    IndexReads(prior, None, e.node.id);
    IndexReads(next, None, e.node.id);
    assert ParentOf(next, e.node.id) == Some(e.parent);
  }

  /** Every topmost displaced node is emitted: its parent is unmoved, so it is not embedded. */
  lemma {:induction false} TopsAreAdded(prior: Forest, next: Forest, q: string)
    requires Unique(prior) && Unique(next) && q in Tops(prior, next)
    ensures q in NamesOf(Diff(prior, next).added)
  {
    var before, after := IndexOf(prior, None), IndexOf(next, None);
    IndexReads(prior, None, q);
    IndexReads(next, None, q);
    var e := AddedNode(after[q].node, after[q].parent);
    assert HangsIn(next, None, q, Kept(prior, next));
    if e.parent.Some? {
      var k := e.parent.value;
      CutKeepsRows(prior, Displaced(prior, next), None, k);
      DisplacedAt(prior, next, k);
      IndexReads(prior, None, k);
    }
    assert Grafts(before, after, q);
    AddedAt(prior, next, e);
  }

  // ----- additions under an empty id, which the graft reads as the top level

  ghost predicate RidesAlong(prior: Forest, next: Forest, adds: seq<AddedNode>, i: nat)
    requires i < |adds|
  {
    exists j :: 0 <= j < i && Carries(prior, next, adds[j], adds[i].node.id)
  }

  /** `top` is a topmost displaced node and `x` travels in its entry. */
  ghost predicate Carries(prior: Forest, next: Forest, top: AddedNode, x: string)
  {
    top.node.id in Tops(prior, next) && x in Ids([top.node])
  }

  /** Every addition whose parent id is empty travels inside a topmost addition listed before it. */
  ghost predicate EmptyParentsRide(prior: Forest, next: Forest)
  {
    var adds := Diff(prior, next).added;
    forall i :: 0 <= i < |adds| && adds[i].parent == Some("") ==> RidesAlong(prior, next, adds, i)
  }

  lemma {:induction false} TopSurvives(prior: Forest, next: Forest, cut: set<string>, t: string)
    requires Unique(prior) && Unique(next) && cut <= Tops(prior, next) && t in Tops(prior, next) && t !in cut
    ensures t in IndexOf(next, None)
    ensures var sub := Ids([IndexOf(next, None)[t].node]);
            && t in sub
            && Ids(Cut(next, cut)) == Ids(Cut(next, cut + {t})) + sub
            && Ids(Cut(next, cut + {t})) !! sub
  {
    IndexReads(next, None, t);
    TopsCoverDisplaced(prior, next);
    CutLessKeepsMore(next, cut, Tops(prior, next));
    SurvivesIff(next, cut, None, t);
    assert HangsIn(next, None, t, Kept(prior, next));
    TopSubtree(prior, next, t);
    hide Tops, Kept, Unique, IndexOf;
    CutOneMore(next, None, cut, t);
  }

  lemma {:induction false} SomethingSpared(prior: Forest, next: Forest, spared: set<string>, x: string)
    requires Unique(prior) && Unique(next)
    requires x in Ids(Cut(next, Tops(prior, next) - spared)) && x !in Kept(prior, next)
    ensures spared != {}
  {
    TopsCoverDisplaced(prior, next);
    hide Tops, Kept, Unique, Cut;
    assert Tops(prior, next) - {} == Tops(prior, next);
  }

  /** What sparing the tops in `spared` keeps: kept nodes and what travels with a spared top. */
  lemma {:induction false} SparedCarry(prior: Forest, next: Forest, spared: set<string>, x: string)
    requires Unique(prior) && Unique(next) && spared <= Tops(prior, next)
    requires x in Ids(Cut(next, Tops(prior, next) - spared)) && x !in Kept(prior, next)
    ensures exists t :: t in spared && t in IndexOf(next, None) && x in Ids([IndexOf(next, None)[t].node])
    decreases |spared|
  {
    var tops := Tops(prior, next);
    SomethingSpared(prior, next, spared, x);
    hide *;
    var t :| t in spared;
    TopSurvives(prior, next, tops - spared, t);
    assert tops - (spared - {t}) == tops - spared + {t};
    if x !in Ids([IndexOf(next, None)[t].node]) { SparedCarry(prior, next, spared - {t}, x); }
  }

  lemma {:induction false} CarriedIsPlaced(prior: Forest, next: Forest, adds: seq<AddedNode>, i: nat)
    requires Unique(prior) && Unique(next) && i < |adds| && RidesAlong(prior, next, adds, i)
    requires forall e :: e in adds ==> Emittable(prior, next, e)
    ensures adds[i].node.id in Ids(Cut(next, Tops(prior, next) - NamesOf(adds[..i])))
  {
    var tops, front := Tops(prior, next), NamesOf(adds[..i]);
    var j :| 0 <= j < i && Carries(prior, next, adds[j], adds[i].node.id);
    assert adds[..i][j] == adds[j];
    assert Emittable(prior, next, adds[j]);
    hide Tops, Displaced, Cut, Unique, IndexOf;
    TopSurvives(prior, next, tops - front, adds[j].node.id);
  }

  lemma {:induction false} PlacedIsCarried(prior: Forest, next: Forest, adds: seq<AddedNode>, i: nat)
    requires Unique(prior) && Unique(next) && i < |adds|
    requires forall e :: e in adds ==> Emittable(prior, next, e)
    requires adds[i].node.id in Ids(Cut(next, Tops(prior, next) - NamesOf(adds[..i])))
    ensures RidesAlong(prior, next, adds, i)
  {
    var x, tops, front := adds[i].node.id, Tops(prior, next), NamesOf(adds[..i]);
    assert Emittable(prior, next, adds[i]);
    DisplacedIsNotKept(prior, next, x);
    assert tops - front == tops - tops * front;
    hide Tops, Displaced, Cut, Unique, Kept, IndexOf;
    SparedCarry(prior, next, tops * front, x);
    var t :| t in tops * front && t in IndexOf(next, None) && x in Ids([IndexOf(next, None)[t].node]);
    var e :| e in adds[..i] && e.node.id == t;
    var j :| 0 <= j < i && adds[..i][j] == e;
    assert adds[j] == e;
    assert Emittable(prior, next, adds[j]);
    assert Carries(prior, next, adds[j], x);
  }

  /** An addition rides along exactly when the tops swept before it have put it in place. */
  lemma {:induction false} RidesIffPlaced(prior: Forest, next: Forest, i: nat)
    requires Unique(prior) && Unique(next) && i < |Diff(prior, next).added|
    ensures var adds := Diff(prior, next).added;
            RidesAlong(prior, next, adds, i) <==>
              adds[i].node.id in Ids(Cut(next, Tops(prior, next) - NamesOf(adds[..i])))
  {
    var adds := Diff(prior, next).added;
    forall e | e in adds ensures Emittable(prior, next, e) { AddedIsEmittable(prior, next, e); }
    hide *;
    if RidesAlong(prior, next, adds, i) { CarriedIsPlaced(prior, next, adds, i); }
    if adds[i].node.id in Ids(Cut(next, Tops(prior, next) - NamesOf(adds[..i]))) {
      PlacedIsCarried(prior, next, adds, i);
    }
  }

  lemma {:induction false} DisplacedIsNotKept(prior: Forest, next: Forest, x: string)
    requires Unique(prior) && Unique(next) && x in Displaced(next, prior)
    ensures x !in Kept(prior, next)
  {
    KeptIsSymmetric(prior, next);
    CutKeepsRows(next, Displaced(next, prior), None, x);
  }

  // ----- roots stay roots

  ghost predicate RootsStay(f: Forest, g: Forest)
  {
    |f| <= |g| && forall k :: 0 <= k < |f| ==> f[k].id == g[k].id
  }

  lemma {:induction false} EditKeepsRoots(f: Forest, id: string, child: Node)
    ensures |PushChild(f, id, child)| == |f|
    ensures forall k :: 0 <= k < |f| ==> PushChild(f, id, child)[k].id == f[k].id
  {
    EditRoots(f, id, (n: Node) => n.(children := n.children + [child]));
  }

  lemma {:induction false} EditRoots(f: Forest, id: string, edit: Node -> Node)
    requires forall n :: edit(n).id == n.id
    ensures |EditFirst(f, id, edit)| == |f|
    ensures forall k :: 0 <= k < |f| ==> EditFirst(f, id, edit)[k].id == f[k].id
  {
    if f != [] && f[0].id != id && id !in Ids(f[0].children) {
      EditRoots(f[1..], id, edit);
    }
  }

  lemma {:induction false} GraftKeepsRoots(s: Grafting, add: AddedNode)
    ensures RootsStay(s.out, GraftOne(s, add).out)
  {
    if add.parent.Some? { EditKeepsRoots(s.out, add.parent.value, add.node); }
  }

  lemma {:induction false} PassKeepsRoots(out: Forest, pending: seq<AddedNode>, n: nat)
    requires n <= |pending|
    ensures RootsStay(GraftPass(out, pending[..n]).out, GraftPass(out, pending).out)
    decreases |pending| - n
  {
    if n == |pending| {
      assert pending[..n] == pending;
    } else {
      assert pending[..n + 1][..n] == pending[..n];
      GraftKeepsRoots(GraftPass(out, pending[..n]), pending[n]);
      PassKeepsRoots(out, pending, n + 1);
    }
  }

  lemma {:induction false} LoopKeepsRoots(out: Forest, pending: seq<AddedNode>)
    ensures RootsStay(out, GraftLoop(out, pending).0)
    decreases |pending|
  {
    if pending != [] {
      PassKeepsRoots(out, pending, 0);
      assert GraftPass(out, pending[..0]).out == out;
      var s := GraftPass(out, pending);
      if s.progress { LoopKeepsRoots(s.out, s.kept); }
    }
  }

  lemma {:induction false} RootReads(f: Forest, p: Option<string>, k: nat)
    requires Unique(f) && k < |f|
    ensures RowAt(f, p, f[k].id) == Some(Row(f[k].attrs, p))
  {
    if k > 0 {
      RootReads(f[1..], p, k - 1);
      assert f[k] == f[1..][k - 1];
    }
  }

  // ----- the theorem

  /** Same ids hanging in the same places; attributes and sibling order may differ. */
  ghost predicate SameShape(f: Forest, g: Forest)
  {
    Unique(f) && Unique(g) && forall x :: ParentOf(f, x) == ParentOf(g, x)
  }

  lemma {:induction false} ShapeDecidesKept(held: Forest, prior: Forest, next: Forest)
    requires SameShape(held, prior) && Unique(next)
    ensures Ids(held) == Ids(prior) && Displaced(held, next) == Displaced(prior, next)
    ensures Kept(held, next) == Kept(prior, next)
  {
    forall x ensures x in Ids(held) <==> x in Ids(prior) {
      assert ParentOf(held, x) == ParentOf(prior, x);
    }
    assert Displaced(next, held) == Displaced(next, prior);
    KeptIsSymmetric(held, next);
    KeptIsSymmetric(prior, next);
  }

  /** The scalars a kept node ends up with on a client that held `held`. */
  function Patched(held: Forest, prior: Forest, next: Forest, x: string): Attrs
    requires x in Ids(held) && x in Ids(prior) && x in Ids(next)
  {
    ApplyFields(Flat(held, x).value.attrs,
                ChangedFields(Flat(prior, x).value.attrs, Flat(next, x).value.attrs))
  }

  function Trimmed(held: Forest, d: TreeDiff): Forest
  {
    ChangeAll(RemoveAll(held, d.removed), d.changed)
  }

  /** After removals and edits: exactly the kept nodes, patched. */
  lemma {:induction false} TrimmedReads(held: Forest, prior: Forest, next: Forest, x: string)
    requires SameShape(held, prior) && Unique(next)
    ensures var base := Trimmed(held, Diff(prior, next));
            && Unique(base) && Ids(base) == Kept(prior, next)
            && (x in Kept(prior, next) ==>
                  && x in Ids(held) && x in Ids(prior) && x in Ids(next)
                  && Flat(base, x) == Some(Row(Patched(held, prior, next, x), Flat(next, x).value.parent)))
  {
    var before, after := IndexOf(prior, None), IndexOf(next, None);
    var d := Diff(prior, next);
    ShapeDecidesKept(held, prior, next);
    RemovedIsDisplaced(prior, next);
    RemoveAllIsCut(held, d.removed);
    var cut := RemoveAll(held, d.removed);
    CutKeepsRows(held, Displaced(prior, next), None, x);
    SortedKeysListing(after.Keys);
    AscendingIsDistinct(SortedKeys(after.Keys));
    ChangeAllReads(cut, SortedKeys(after.Keys), before, after, x);
    assert d.changed == CompareOver(SortedKeys(after.Keys), before, after).changed;
    if x in Kept(prior, next) {
      KeptIsSymmetric(prior, next);
      CutKeepsRows(prior, Displaced(prior, next), None, x);
      CutKeepsRows(next, Displaced(next, prior), None, x);
      IndexReads(prior, None, x);
      IndexReads(next, None, x);
      assert ParentOf(held, x) == ParentOf(prior, x) == ParentOf(next, x);
    }
  }

  lemma {:induction false} AscendingIsDistinct(keys: seq<string>)
    requires Ascending(keys)
    ensures Distinct(keys)
  {
    forall i, j | 0 <= i < j < |keys| ensures keys[i] != keys[j] { LessIsStrict(keys[i]); }
  }

  /** Before the first sweep exactly the subtrees of the tops are missing. */
  lemma {:induction false} TrimmedIsPartial(held: Forest, prior: Forest, next: Forest)
    requires SameShape(held, prior) && Unique(next)
    ensures var base := Trimmed(held, Diff(prior, next));
            Ids(base) == Kept(prior, next) && Partial(base, base, next, Tops(prior, next))
    ensures forall e :: e in Diff(prior, next).added ==> Emittable(prior, next, e)
    ensures Tops(prior, next) <= NamesOf(Diff(prior, next).added)
  {
    var d := Diff(prior, next);
    forall e | e in d.added ensures Emittable(prior, next, e) { AddedIsEmittable(prior, next, e); }
    forall q | q in Tops(prior, next) ensures q in NamesOf(d.added) { TopsAreAdded(prior, next, q); }
    TopsCoverDisplaced(prior, next);
    TrimmedReads(held, prior, next, "");
    hide Diff, Tops, Emittable, NamesOf, Trimmed;
  }

  /** Additions that ride along, if their parent id is empty, are in turn. */
  lemma {:induction false} RidersAreInTurn(prior: Forest, next: Forest, n: nat)
    requires Unique(prior) && Unique(next) && n <= |Diff(prior, next).added|
    requires var adds := Diff(prior, next).added;
             forall i :: 0 <= i < n && adds[i].parent == Some("") ==> RidesAlong(prior, next, adds, i)
    ensures AllInTurn(next, Tops(prior, next), Diff(prior, next).added[..n])
  {
    var adds := Diff(prior, next).added;
    forall i | 0 <= i < n ensures InTurn(next, Tops(prior, next), adds[..i], adds[i]) {
      RidesIffPlaced(prior, next, i);
      hide Diff, Tops, RidesAlong, Cut;
    }
    hide Diff, Tops, RidesAlong;
    PrefixInTurn(next, Tops(prior, next), adds, n);
  }

  /** The graft loop leaves nothing pending and puts every displaced subtree in its place. */
  lemma {:induction false} GraftingCompletes(held: Forest, prior: Forest, next: Forest)
    requires SameShape(held, prior) && Unique(next) && EmptyParentsRide(prior, next)
    ensures var d := Diff(prior, next);
            && GraftLoop(Trimmed(held, d), d.added).1 == []
            && Partial(Apply(held, d), Trimmed(held, d), next, {})
  {
    var d := Diff(prior, next);
    var base := Trimmed(held, d);
    TrimmedIsPartial(held, prior, next);
    RidersAreInTurn(prior, next, |d.added|);
    assert d.added[..|d.added|] == d.added;
    assert Apply(held, d) == GraftLoop(base, d.added).0;
    hide *;
    GraftLoopCompletes(base, base, prior, next, Tops(prior, next), d.added);
  }

  /** An addition under an empty id that does not ride along becomes a root, and stays one. */
  lemma {:induction false} StrayIsRoot(held: Forest, prior: Forest, next: Forest, i: nat) returns (k: nat)
    requires SameShape(held, prior) && Unique(next) && i < |Diff(prior, next).added|
    requires var adds := Diff(prior, next).added;
             && adds[i].parent == Some("") && !RidesAlong(prior, next, adds, i)
             && forall j :: 0 <= j < i && adds[j].parent == Some("") ==> RidesAlong(prior, next, adds, j)
    ensures var r := Apply(held, Diff(prior, next)); k < |r| && r[k].id == Diff(prior, next).added[i].node.id
  {
    var d := Diff(prior, next);
    var adds, base, tops, e := d.added, Trimmed(held, d), Tops(prior, next), d.added[i];
    TrimmedIsPartial(held, prior, next);
    RidersAreInTurn(prior, next, i);
    RidesIffPlaced(prior, next, i);
    assert Apply(held, d) == GraftLoop(base, adds).0;
    hide Diff, Tops, RidesAlong, Trimmed, Kept, Cut, Emittable, Unique, Apply, AllInTurn;
    forall a | a in adds[..i] ensures Emittable(prior, next, a) {}
    Sweep(base, base, prior, next, tops, adds[..i]);
    var s := GraftPass(base, adds[..i]);
    assert e.node.id !in Ids(s.out);
    k := |s.out|;
    StrayStays(base, adds, i);
  }

  lemma {:induction false} StrayStays(base: Forest, adds: seq<AddedNode>, i: nat)
    requires i < |adds| && adds[i].parent == Some("") && adds[i].node.id !in Ids(GraftPass(base, adds[..i]).out)
    ensures var r, k := GraftLoop(base, adds).0, |GraftPass(base, adds[..i]).out|; k < |r| && r[k].id == adds[i].node.id
  {
    var s, e := GraftPass(base, adds[..i]), adds[i];
    assert adds[..i + 1][..i] == adds[..i];
    assert GraftPass(base, adds[..i + 1]) == GraftOne(s, e);
    assert GraftOne(s, e).out == s.out + [e.node];
    var all := GraftPass(base, adds);
    var r := GraftLoop(base, adds).0;
    assert r == if all.progress then GraftLoop(all.out, all.kept).0 else all.out;
    hide GraftPass, GraftOne, GraftLoop;
    PassKeepsRoots(base, adds, i + 1);
    LoopKeepsRoots(all.out, all.kept);
  }

  lemma {:induction false} StrayBreaksShape(held: Forest, prior: Forest, next: Forest, i: nat)
    requires SameShape(held, prior) && Unique(next) && i < |Diff(prior, next).added|
    requires var adds := Diff(prior, next).added;
             && adds[i].parent == Some("") && !RidesAlong(prior, next, adds, i)
             && forall j :: 0 <= j < i && adds[j].parent == Some("") ==> RidesAlong(prior, next, adds, j)
    ensures !SameShape(Apply(held, Diff(prior, next)), next)
  {
    var r, e := Apply(held, Diff(prior, next)), Diff(prior, next).added[i];
    var k := StrayIsRoot(held, prior, next, i);
    AddedIsEmittable(prior, next, e);
    IndexReads(next, None, e.node.id);
    assert ParentOf(next, e.node.id) == Some(Some(""));
    hide Diff, Apply, RidesAlong, Emittable, IndexOf;
    if Unique(r) {
      RootReads(r, None, k);
      assert ParentOf(r, e.node.id) == Some(None);
    }
  }

  lemma {:induction false} FirstStray(prior: Forest, next: Forest) returns (i: nat)
    requires !EmptyParentsRide(prior, next)
    ensures var adds := Diff(prior, next).added;
            && i < |adds| && adds[i].parent == Some("") && !RidesAlong(prior, next, adds, i)
            && forall j :: 0 <= j < i && adds[j].parent == Some("") ==> RidesAlong(prior, next, adds, j)
  {
    var adds := Diff(prior, next).added;
    hide Diff, RidesAlong;
    i := 0;
    while i < |adds| && (adds[i].parent == Some("") ==> RidesAlong(prior, next, adds, i))
      invariant i <= |adds|
      invariant forall j :: 0 <= j < i && adds[j].parent == Some("") ==> RidesAlong(prior, next, adds, j)
    {
      i := i + 1;
    }
  }

  /** The row of `x` on a client that held `held` and applied the diff. */
  function PatchedRow(held: Forest, prior: Forest, next: Forest, x: string): Option<Row>
  {
    if x in Kept(prior, next) && x in Ids(held) && x in Ids(prior) && x in Ids(next)
    then Some(Row(Patched(held, prior, next, x), Flat(next, x).value.parent))
    else Flat(next, x)
  }

  /** What a client holding any copy of `prior`'s shape has after applying the diff: the ids and
      parents of `next`, the scalars of `next` off the kept nodes, the patched scalars on them. */
  lemma {:induction false} ApplyReads(held: Forest, prior: Forest, next: Forest)
    requires SameShape(held, prior) && Unique(next) && EmptyParentsRide(prior, next)
    ensures var r := Apply(held, Diff(prior, next));
            Unique(r) && Ids(r) == Ids(next) && forall x :: Flat(r, x) == PatchedRow(held, prior, next, x)
  {
    var r, base := Apply(held, Diff(prior, next)), Trimmed(held, Diff(prior, next));
    GraftingCompletes(held, prior, next);
    CutNothing(next, {});
    KeptIsSymmetric(prior, next);
    CutKeepsRows(next, Displaced(next, prior), None, "");
    forall x ensures Flat(r, x) == PatchedRow(held, prior, next, x) {
      TrimmedReads(held, prior, next, x);
    }
  }

  /** Patching any copy of the prior revision's shape gives the next one's exactly when every addition under
      an empty id rides along. */
  lemma {:induction false} ApplyKeepsShape(held: Forest, prior: Forest, next: Forest)
    requires SameShape(held, prior) && Unique(next)
    ensures SameShape(Apply(held, Diff(prior, next)), next) <==> EmptyParentsRide(prior, next)
  {
    if EmptyParentsRide(prior, next) {
      ApplyReads(held, prior, next);
      var r := Apply(held, Diff(prior, next));
      hide Apply, Diff, Kept, Patched, EmptyParentsRide;
      forall x ensures ParentOf(r, x) == ParentOf(next, x) {
        assert Flat(r, x) == PatchedRow(held, prior, next, x);
      }
    } else {
      var i := FirstStray(prior, next);
      StrayBreaksShape(held, prior, next, i);
    }
  }

  /** An id that is never empty is never read as the top level. */
  lemma {:induction false} NonEmptyIdsRide(prior: Forest, next: Forest)
    requires Unique(prior) && Unique(next) && "" !in Ids(next)
    ensures EmptyParentsRide(prior, next)
  {
    forall e | e in Diff(prior, next).added ensures e.parent != Some("") {
      AddedIsEmittable(prior, next, e);
      IndexReads(next, None, e.node.id);
      hide Diff;
    }
    hide Diff, RidesAlong;
  }

  /** A kept node serialised some scalar key in `prior` that it omits in `next`. */
  ghost predicate KeptKeyVanishes(prior: Forest, next: Forest)
  {
    exists x :: x in Kept(prior, next) && x in Ids(prior) && x in Ids(next)
                && KeyVanishes(Flat(prior, x).value.attrs, Flat(next, x).value.attrs)
  }

  /** `apply_diff` inverts `diff_trees` exactly when no kept node loses a serialised key and no addition under
      an empty id is taken for a root; the second alone decides the shape. */
  lemma {:induction false} PatchInvertsDiff(prior: Forest, next: Forest)
    requires Unique(prior) && Unique(next)
    ensures SameShape(Apply(prior, Diff(prior, next)), next) <==> EmptyParentsRide(prior, next)
    ensures SameUpToOrder(Apply(prior, Diff(prior, next)), next) <==>
              EmptyParentsRide(prior, next) && !KeptKeyVanishes(prior, next)
  {
    PatchOfCopy(prior, prior, next);
  }

  lemma {:induction false} SameIsSameShape(f: Forest, g: Forest)
    requires SameUpToOrder(f, g) && Unique(g)
    ensures SameShape(f, g)
  {
    SameImpliesRows(f, g, None, "");
    forall x ensures ParentOf(f, x) == ParentOf(g, x) { SameImpliesRows(f, g, None, x); }
  }

  /** The same for a client that holds the prior revision only up to sibling order. */
  lemma {:induction false} PatchOfCopy(held: Forest, prior: Forest, next: Forest)
    requires Unique(held) && Unique(prior) && Unique(next)
    requires forall x :: Flat(held, x) == Flat(prior, x)
    ensures SameShape(Apply(held, Diff(prior, next)), next) <==> EmptyParentsRide(prior, next)
    ensures SameUpToOrder(Apply(held, Diff(prior, next)), next) <==>
              EmptyParentsRide(prior, next) && !KeptKeyVanishes(prior, next)
  {
    forall x ensures ParentOf(held, x) == ParentOf(prior, x) { }
    ApplyKeepsShape(held, prior, next);
    if EmptyParentsRide(prior, next) {
      CopyIsExact(held, prior, next);
    } else if SameUpToOrder(Apply(held, Diff(prior, next)), next) {
      SameIsSameShape(Apply(held, Diff(prior, next)), next);
    }
    hide *;
  }

  lemma {:induction false} CopyIsExact(held: Forest, prior: Forest, next: Forest)
    requires SameShape(held, prior) && Unique(next) && EmptyParentsRide(prior, next)
    requires forall x :: Flat(held, x) == Flat(prior, x)
    ensures SameUpToOrder(Apply(held, Diff(prior, next)), next) <==> !KeptKeyVanishes(prior, next)
  {
    ApplyReads(held, prior, next);
    var r := Apply(held, Diff(prior, next));
    SameIffFlat(r, next);
    forall x ensures Flat(r, x) == Flat(next, x) <==>
                       !(x in Kept(prior, next) && x in Ids(prior) && x in Ids(next)
                         && KeyVanishes(Flat(prior, x).value.attrs, Flat(next, x).value.attrs))
    {
      assert Flat(held, x) == Flat(prior, x);
      assert Flat(r, x) == PatchedRow(held, prior, next, x);
      if x in Kept(prior, next) && x in Ids(prior) && x in Ids(next) {
        FieldPatchExact(Flat(prior, x).value.attrs, Flat(next, x).value.attrs);
      }
      hide *;
    }
  }
}
