/** Where everything stands after a patch: the order of the siblings under every node. */
module SiblingOrder {
  import opened Ordering
  import opened UiForest
  import opened TreeDiff
  import opened Prune
  import opened Patch
  import opened PatchTheorem
  import opened DiffFacts

  // ----- siblings by name

  function RootIds(f: Forest): (r: seq<string>)
    ensures |r| == |f| && forall k :: 0 <= k < |r| ==> r[k] == f[k].id
  {
    if f == [] then [] else [f[0].id] + RootIds(f[1..])
  }

  /** The children of the first node called `x`, in order. */
  function KidIds(f: Forest, x: string): (r: seq<string>)
    ensures x !in Ids(f) ==> r == []
  {
    if f == [] then []
    else if f[0].id == x then RootIds(f[0].children)
    else if x in Ids(f[0].children) then KidIds(f[0].children, x)
    else KidIds(f[1..], x)
  }

  /** The roots, or the children of one node. */
  function Listed(f: Forest, slot: Option<string>): seq<string>
  {
    match slot case None => RootIds(f) case Some(x) => KidIds(f, x)
  }

  predicate HasSlot(f: Forest, slot: Option<string>) { slot.Some? ==> slot.value in Ids(f) }

  /** Those of the ids that are in `keep`, in order. */
  function Only(ids: seq<string>, keep: set<string>): seq<string>
  {
    if ids == [] then [] else (if ids[0] in keep then [ids[0]] else []) + Only(ids[1..], keep)
  }

  lemma {:induction false} OnlyAgrees(ids: seq<string>, a: set<string>, b: set<string>)
    requires forall i :: 0 <= i < |ids| ==> (ids[i] in a <==> ids[i] in b)
    ensures Only(ids, a) == Only(ids, b)
  {
    if ids != [] { OnlyAgrees(ids[1..], a, b); }
  }

  /** What is listed in a slot hangs there. */
  lemma {:induction false} RootHangs(f: Forest, p: Option<string>, k: nat)
    requires Unique(f) && k < |f|
    ensures f[k].id in Ids(f) && RowAt(f, p, f[k].id).value.parent == p
  {
    RootReads(f, p, k);
  }

  lemma {:induction false} KidHangs(f: Forest, p: Option<string>, x: string, k: nat)
    requires Unique(f) && k < |KidIds(f, x)|
    ensures KidIds(f, x)[k] in Ids(f) && RowAt(f, p, KidIds(f, x)[k]).value.parent == Some(x)
  {
    var id, c, t := f[0].id, f[0].children, f[1..];
    if id == x {
      RootHangs(c, Some(id), k);
    } else if x in Ids(c) {
      KidHangs(c, Some(id), x, k);
    } else {
      KidHangs(t, p, x, k);
    }
  }

  lemma {:induction false} ListedHangs(f: Forest, slot: Option<string>, k: nat)
    requires Unique(f) && k < |Listed(f, slot)|
    ensures ParentOf(f, Listed(f, slot)[k]) == Some(slot)
  {
    match slot
    case None => RootHangs(f, None, k);
    case Some(x) => KidHangs(f, None, x, k);
  }

  // ----- removals

  lemma {:induction false} CutRoots(f: Forest, cut: set<string>, left: set<string>)
    requires forall k :: 0 <= k < |f| ==> (f[k].id in left <==> f[k].id !in cut)
    ensures RootIds(Cut(f, cut)) == Only(RootIds(f), left)
  {
    if f != [] {
      forall k | 0 <= k < |f[1..]| ensures f[1..][k].id in left <==> f[1..][k].id !in cut {
        assert f[1..][k] == f[k + 1];
      }
      CutRoots(f[1..], cut, left);
      if f[0].id !in cut { assert Cut(f, cut)[1..] == Cut(f[1..], cut); }
      assert f[0].id in left <==> f[0].id !in cut;
    }
  }

  /** The children of a node that survives a cut are those that are not cut. */
  lemma {:induction false} CutKids(f: Forest, cut: set<string>, x: string, left: set<string>)
    requires Unique(f) && x in Ids(Cut(f, cut))
    requires forall k :: 0 <= k < |KidIds(f, x)| ==> (KidIds(f, x)[k] in left <==> KidIds(f, x)[k] !in cut)
    ensures KidIds(Cut(f, cut), x) == Only(KidIds(f, x), left)
  {
    var id, c, t := f[0].id, f[0].children, f[1..];
    CutIds(f, cut);
    CutKeepsRows(c, cut, None, x);
    CutKeepsRows(t, cut, None, x);
    var cc, ct := Cut(c, cut), Cut(t, cut);
    if id in cut {
      assert Cut(f, cut) == ct;
      assert x in Ids(t) && KidIds(f, x) == KidIds(t, x);
      CutKids(t, cut, x, left);
    } else {
      assert Cut(f, cut) == [f[0].(children := cc)] + ct;
      assert Cut(f, cut)[0].children == cc && Cut(f, cut)[1..] == ct;
      if id == x {
        assert forall k :: 0 <= k < |c| ==> c[k].id == KidIds(f, x)[k];
        CutRoots(c, cut, left);
      } else if x in Ids(cc) {
        assert x in Ids(c) && KidIds(f, x) == KidIds(c, x);
        CutKids(c, cut, x, left);
      } else {
        assert x in Ids(t) && KidIds(f, x) == KidIds(t, x);
        CutKids(t, cut, x, left);
      }
    }
  }

  // ----- edits

  lemma {:induction false} EditLists(f: Forest, id: string, edit: Node -> Node, x: string)
    requires forall n :: edit(n).id == n.id && edit(n).children == n.children
    ensures Ids(EditFirst(f, id, edit)) == Ids(f)
    ensures RootIds(EditFirst(f, id, edit)) == RootIds(f) && KidIds(EditFirst(f, id, edit), x) == KidIds(f, x)
  {
    if f != [] {
      var r := EditFirst(f, id, edit);
      if f[0].id == id {
        assert r[1..] == f[1..];
      } else if id in Ids(f[0].children) {
        EditLists(f[0].children, id, edit, x);
        assert r[1..] == f[1..];
      } else {
        EditLists(f[1..], id, edit, x);
        assert r[1..] == EditFirst(f[1..], id, edit);
      }
    }
  }

  lemma {:induction false} ChangeLists(f: Forest, changes: seq<ChangedNode>, slot: Option<string>)
    ensures Ids(ChangeAll(f, changes)) == Ids(f) && Listed(ChangeAll(f, changes), slot) == Listed(f, slot)
  {
    if changes != [] {
      var front, last := changes[..|changes| - 1], changes[|changes| - 1];
      ChangeLists(f, front, slot);
      var x := if slot.Some? then slot.value else "";
      EditLists(ChangeAll(f, front), last.id, (n: Node) => n.(attrs := ApplyFields(n.attrs, last.fields)), x);
      hide ApplyFields, EditFirst;
    }
  }

  // ----- grafts

  lemma {:induction false} AppendLists(f: Forest, g: Forest, x: string)
    ensures RootIds(f + g) == RootIds(f) + RootIds(g)
    ensures KidIds(f + g, x) == if x in Ids(f) then KidIds(f, x) else KidIds(g, x)
  {
    if f == [] {
      assert f + g == g;
    } else {
      assert (f + g)[0] == f[0] && (f + g)[1..] == f[1..] + g;
      AppendLists(f[1..], g, x);
    }
  }

  lemma {:induction false} ConsLists(head: Node, tail: Forest, x: string)
    ensures var f := [head] + tail;
            && RootIds(f) == [head.id] + RootIds(tail) && Ids(f) == {head.id} + Ids(head.children) + Ids(tail)
            && KidIds(f, x) == if x == head.id then RootIds(head.children)
                               else if x in Ids(head.children) then KidIds(head.children, x) else KidIds(tail, x)
  {
    assert ([head] + tail)[1..] == tail;
  }

  /** A child pushed under `id` stands last there; nothing else moves. */
  ghost predicate Pushed(f: Forest, r: Forest, id: string, child: Node, x: string)
  {
    && RootIds(r) == RootIds(f) && Ids(r) == Ids(f) + Ids([child])
    && KidIds(r, x) == if x == id then KidIds(f, x) + [child.id]
                       else if x in Ids(f) then KidIds(f, x) else KidIds([child], x)
  }

  lemma {:induction false} PushLists(f: Forest, id: string, child: Node, edit: Node -> Node, x: string)
    requires Unique(f) && id in Ids(f) && Ids([child]) !! Ids(f) && PushesChild(edit, child)
    ensures Pushed(f, EditFirst(f, id, edit), id, child, x)
  {
    var head, tail, r := f[0], f[1..], EditFirst(f, id, edit);
    assert f == [head] + tail;
    SplitIds(head, tail);
    if head.id == id {
      assert r == [head.(children := head.children + [child])] + tail;
      hide *;
      PushHead(head, tail, child, x);
    } else if id in Ids(head.children) {
      var kids := EditFirst(head.children, id, edit);
      assert r == [head.(children := kids)] + tail;
      hide *;
      PushLists(head.children, id, child, edit, x);
      PushedBelow(head, tail, kids, id, child, x);
    } else {
      var rest := EditFirst(tail, id, edit);
      assert r == [head] + rest;
      hide *;
      PushLists(tail, id, child, edit, x);
      PushedAfter(head, tail, rest, id, child, x);
    }
  }

  lemma {:induction false} SplitIds(head: Node, tail: Forest)
    requires Unique([head] + tail)
    ensures Ids([head] + tail) == {head.id} + Ids(head.children) + Ids(tail)
    ensures Unique(head.children) && Unique(tail) && Ids(head.children) !! Ids(tail)
    ensures head.id !in Ids(head.children) && head.id !in Ids(tail)
  {
    assert ([head] + tail)[1..] == tail;
  }

  lemma {:induction false} PushedBelow(head: Node, tail: Forest, kids: Forest, id: string, child: Node, x: string)
    requires Unique([head] + tail) && id in Ids(head.children) && Ids([child]) !! Ids([head] + tail)
    requires Pushed(head.children, kids, id, child, x)
    ensures Pushed([head] + tail, [head.(children := kids)] + tail, id, child, x)
  {
    SplitIds(head, tail);
    ConsLists(head, tail, x);
    ConsLists(head.(children := kids), tail, x);
    hide RootIds, KidIds, Ids, Unique;
  }

  lemma {:induction false} PushedAfter(head: Node, tail: Forest, rest: Forest, id: string, child: Node, x: string)
    requires Unique([head] + tail) && id in Ids(tail) && Ids([child]) !! Ids([head] + tail)
    requires Pushed(tail, rest, id, child, x)
    ensures Pushed([head] + tail, [head] + rest, id, child, x)
  {
    SplitIds(head, tail);
    ConsLists(head, tail, x);
    ConsLists(head, rest, x);
    hide RootIds, KidIds, Ids, Unique;
  }

  lemma {:induction false} PushHead(head: Node, tail: Forest, child: Node, x: string)
    requires Unique([head] + tail) && Ids([child]) !! Ids([head] + tail)
    ensures Pushed([head] + tail, [head.(children := head.children + [child])] + tail, head.id, child, x)
  {
    var kids := head.children + [child];
    ConsLists(head, tail, x);
    ConsLists(head.(children := kids), tail, x);
    Concat(head.children, [child]);
    AppendLists(head.children, [child], x);
    assert RootIds([child]) == [child.id];
    assert head.id in Ids([head] + tail);
    hide RootIds, KidIds;
  }

  lemma {:induction false} PlaceLists(out: Forest, add: AddedNode, slot: Option<string>)
    requires Unique(out) && Ids([add.node]) !! Ids(out)
    requires add.parent.Some? ==> add.parent.value != "" && add.parent.value in Ids(out)
    ensures HasSlot(out, slot) ==>
              Listed(Place(out, add), slot) == Listed(out, slot) + if add.parent == slot then [add.node.id] else []
    ensures slot.Some? && slot.value in Ids([add.node]) ==>
              Listed(Place(out, add), slot) == KidIds([add.node], slot.value)
  {
    var x := if slot.Some? then slot.value else "";
    if add.parent.Some? {
      PushLists(out, add.parent.value, add.node, (n: Node) => n.(children := n.children + [add.node]), x);
    } else {
      AppendLists(out, [add.node], x);
      assert RootIds([add.node]) == [add.node.id];
    }
    hide EditFirst;
    assert forall s: seq<string> :: s + [] == s;
  }

  /** The entry of `q` in the index keeps the lists of the nodes below it. */
  lemma {:induction false} SubtreeLists(f: Forest, p: Option<string>, q: string, y: string)
    requires Unique(f) && q in Ids(f) && q in IndexOf(f, p) && y in Ids([IndexOf(f, p)[q].node])
    ensures KidIds([IndexOf(f, p)[q].node], y) == KidIds(f, y)
  {
    var n := IndexOf(f, p)[q].node;
    IndexSplit(f, p, q);
    SubtreeReads(f, p, q, y);
    if q in Ids(f[1..]) {
      SubtreeLists(f[1..], p, q, y);
      SubtreeReads(f[1..], p, q, y);
    } else if q in Ids(f[0].children) {
      SubtreeLists(f[0].children, Some(f[0].id), q, y);
      SubtreeReads(f[0].children, Some(f[0].id), q, y);
    } else {
      Singleton(f[0]);
      assert [f[0]][0] == f[0] && [f[0]][1..] == [];
    }
  }

  // ----- sweeps

  /** The missing tops among the pending additions that hang in this slot, in the order they are swept. */
  function Arriving(pending: seq<AddedNode>, rest: set<string>, slot: Option<string>): seq<string>
  {
    if pending == [] then []
    else
      var front, last := pending[..|pending| - 1], pending[|pending| - 1];
      Arriving(front, rest, slot) +
        if last.node.id in rest - NamesOf(front) && last.parent == slot then [last.node.id] else []
  }

  lemma {:induction false} NothingArrives(pending: seq<AddedNode>, slot: Option<string>)
    ensures Arriving(pending, {}, slot) == []
  {
    if pending != [] { NothingArrives(pending[..|pending| - 1], slot); }
  }

  /** Nodes that came with a graft keep the lists they have in `next`. */
  ghost predicate Intact(out: Forest, base: set<string>, next: Forest)
  {
    forall y :: y in Ids(out) && y !in base ==> KidIds(out, y) == KidIds(next, y)
  }

  /** A missing top hangs at the top level or under a kept node, and brings its subtree as it is in `next`. */
  lemma {:induction false} TopHangs(prior: Forest, next: Forest, out: Forest, rest: set<string>, add: AddedNode)
    requires Unique(prior) && Unique(next) && rest <= Tops(prior, next) && add.node.id in rest && Genuine(next, add)
    requires Ids(out) == Ids(Cut(next, rest)) && add.node.id !in Ids(out)
    ensures Ids([add.node]) !! Ids(out) && Ids([add.node]) !! Kept(prior, next)
    ensures add.parent.Some? ==> add.parent.value in Kept(prior, next) && add.parent.value in Ids(out)
    ensures forall y :: y in Ids([add.node]) ==> KidIds([add.node], y) == KidIds(next, y)
  {
    var q := add.node.id;
    IndexReads(next, None, q);
    TopSubtree(prior, next, q);
    forall y | y in Ids([add.node]) ensures KidIds([add.node], y) == KidIds(next, y) { SubtreeLists(next, None, q, y); }
    TopsCoverDisplaced(prior, next);
    CutLessKeepsMore(next, rest, Tops(prior, next));
    assert HangsIn(next, None, q, Kept(prior, next));
    hide Tops, Kept, KidIds, Displaced;
    var less := rest - {q};
    assert less + {q} == rest;
    CutLessKeepsMore(next, less, rest);
    SurvivesIff(next, less, None, q);
    CutOneMore(next, None, less, q);
  }

  lemma {:induction false} OneArrives(out: Forest, prior: Forest, next: Forest, rest: set<string>, add: AddedNode,
                                      slot: Option<string>)
    requires Unique(prior) && Unique(next) && rest <= Tops(prior, next) && add.node.id in rest && Genuine(next, add)
    requires Unique(out) && Ids(out) == Ids(Cut(next, rest)) && add.node.id !in Ids(out) && CanPlace(out, add)
    requires add.parent != Some("") && HasSlot(out, slot) && Intact(out, Kept(prior, next), next)
    ensures Listed(Place(out, add), slot) == Listed(out, slot) + if add.parent == slot then [add.node.id] else []
    ensures Intact(Place(out, add), Kept(prior, next), next)
    ensures Ids(Place(out, add)) == Ids(out) + Ids([add.node])
  {
    TopHangs(prior, next, out, rest, add);
    PlaceLists(out, add, slot);
    PlacedIds(out, add);
    hide Tops, Kept, KidIds, Place, Genuine, CanPlace, Unique, Cut, RootIds;
    var placed := Place(out, add);
    forall y | y in Ids(placed) && y !in Kept(prior, next) ensures KidIds(placed, y) == KidIds(next, y) {
      PlaceLists(out, add, Some(y));
      if y in Ids(out) {
        assert Listed(placed, Some(y)) == Listed(out, Some(y)) + [];
        assert KidIds(out, y) == KidIds(next, y);
      }
    }
  }

  lemma {:induction false} PlacedIds(out: Forest, add: AddedNode)
    requires Unique(out) && Ids([add.node]) !! Ids(out)
    requires add.parent.Some? ==> add.parent.value != "" && add.parent.value in Ids(out)
    ensures Ids(Place(out, add)) == Ids(out) + Ids([add.node])
  {
    if add.parent.Some? {
      PushLists(out, add.parent.value, add.node, (n: Node) => n.(children := n.children + [add.node]), "");
    } else {
      Concat(out, [add.node]);
    }
    hide EditFirst;
  }

  /** What a sweep adds to the slots of the kept nodes, and that it leaves the others alone. */
  lemma {:induction false} SweepLists(out: Forest, base: Forest, prior: Forest, next: Forest, rest: set<string>,
                                      pending: seq<AddedNode>, slot: Option<string>)
    requires Unique(prior) && Unique(next) && Ids(base) == Kept(prior, next) && rest <= Tops(prior, next)
    requires Partial(out, base, next, rest) && AllInTurn(next, rest, pending)
    requires forall a :: a in pending ==> Emittable(prior, next, a)
    requires HasSlot(out, slot) && Intact(out, Kept(prior, next), next)
    ensures var s := GraftPass(out, pending);
            && Listed(s.out, slot) == Listed(out, slot) + Arriving(pending, rest, slot)
            && Intact(s.out, Kept(prior, next), next) && HasSlot(s.out, slot)
  {
    if pending == [] {
      assert Listed(out, slot) + [] == Listed(out, slot);
    } else {
      var front, last := pending[..|pending| - 1], pending[|pending| - 1];
      FrontInTurn(next, rest, pending);
      FrontEmittable(prior, next, pending);
      SweepLists(out, base, prior, next, rest, front, slot);
      Sweep(out, base, prior, next, rest, front);
      var s := GraftPass(out, front);
      assert GraftPass(out, pending) == GraftOne(s, last);
      assert Partial(s.out, base, next, rest - NamesOf(front));
      assert last.parent == Some("") ==> last.node.id in Ids(s.out);
      hide GraftPass, AllInTurn, InTurn, Kept, Tops, Listed, Intact, GraftOne, NamesOf, Swept;
      SweepOne(s, base, prior, next, rest - NamesOf(front), last);
      if last.node.id in rest - NamesOf(front) {
        OneArrives(s.out, prior, next, rest - NamesOf(front), last, slot);
      }
      Appends(Listed(out, slot), Arriving(front, rest, slot),
              Arriving(pending, rest, slot)[|Arriving(front, rest, slot)|..]);
    }
  }

  lemma {:induction false} LoopLists(out: Forest, base: Forest, prior: Forest, next: Forest, rest: set<string>,
                                     pending: seq<AddedNode>, slot: Option<string>)
    requires Unique(prior) && Unique(next) && Ids(base) == Kept(prior, next) && rest <= Tops(prior, next)
    requires Partial(out, base, next, rest) && rest <= NamesOf(pending) && AllInTurn(next, rest, pending)
    requires forall a :: a in pending ==> Emittable(prior, next, a)
    requires HasSlot(out, slot) && Intact(out, Kept(prior, next), next)
    ensures var r := GraftLoop(out, pending).0;
            && Listed(r, slot) == Listed(out, slot) + Arriving(pending, rest, slot)
            && Intact(r, Kept(prior, next), next)
    decreases |pending|
  {
    if pending == [] {
      assert Listed(out, slot) + [] == Listed(out, slot);
    } else {
      var s := GraftPass(out, pending);
      Sweep(out, base, prior, next, rest, pending);
      SweepLists(out, base, prior, next, rest, pending, slot);
      assert rest - NamesOf(pending) == {};
      assert GraftLoop(out, pending).0 == if s.progress then GraftLoop(s.out, s.kept).0 else s.out;
      hide GraftPass, GraftLoop, Listed, Intact, Kept, Tops;
      if s.progress {
        PlacedInTurn(prior, next, s.kept);
        LoopLists(s.out, base, prior, next, {}, s.kept, slot);
        NothingArrives(s.kept, slot);
        assert Listed(s.out, slot) + [] == Listed(s.out, slot);
      }
    }
  }

  // ----- the order

  /** The topmost nodes a diff grafts in this slot. */
  function TopsAt(prior: Forest, next: Forest, slot: Option<string>): set<string>
  {
    set q | q in Tops(prior, next) && ParentOf(next, q) == Some(slot)
  }

  lemma {:induction false} ArrivingMembers(pending: seq<AddedNode>, rest: set<string>, slot: Option<string>, x: string)
    requires Ascending(AddedIds(pending))
    ensures x in Arriving(pending, rest, slot) <==>
              x in rest && exists i :: 0 <= i < |pending| && pending[i].node.id == x && pending[i].parent == slot
  {
    if pending != [] {
      var n := |pending| - 1;
      var front, last := pending[..n], pending[n];
      AscendingFront(pending);
      ArrivingMembers(front, rest, slot, x);
      assert last.node.id !in NamesOf(front);
      hide Ascending, NamesOf;
      if x in rest {
        if i :| 0 <= i < n && front[i].node.id == x && front[i].parent == slot {
          assert pending[i] == front[i];
        }
        if i :| 0 <= i < |pending| && pending[i].node.id == x && pending[i].parent == slot {
          if i < n { assert front[i] == pending[i]; }
        }
      }
    }
  }

  lemma {:induction false} AscendingFront(pending: seq<AddedNode>)
    requires pending != [] && Ascending(AddedIds(pending))
    ensures var n := |pending| - 1;
            && Ascending(AddedIds(pending[..n])) && pending[n].node.id !in NamesOf(pending[..n])
            && forall i :: 0 <= i < n ==> Less(pending[i].node.id, pending[n].node.id)
  {
    var n := |pending| - 1;
    var ids, front := AddedIds(pending), AddedIds(pending[..n]);
    hide Less;
    forall i, j | 0 <= i < j < n ensures Less(front[i], front[j]) { assert front[i] == ids[i] && front[j] == ids[j]; }
    forall i | 0 <= i < n ensures Less(pending[i].node.id, pending[n].node.id) { assert Less(ids[i], ids[n]); }
    if a :| a in pending[..n] && a.node.id == pending[n].node.id {
      var i :| 0 <= i < n && pending[..n][i] == a;
      assert pending[i] == a;
      LessIsStrict(a.node.id);
    }
  }

  lemma {:induction false} ArrivingAscends(pending: seq<AddedNode>, rest: set<string>, slot: Option<string>)
    requires Ascending(AddedIds(pending))
    ensures Ascending(Arriving(pending, rest, slot))
  {
    if pending != [] {
      var n := |pending| - 1;
      var front, last := pending[..n], pending[n];
      AscendingFront(pending);
      ArrivingAscends(front, rest, slot);
      var few := Arriving(front, rest, slot);
      hide Less, NamesOf, AddedIds, Arriving;
      forall i | 0 <= i < |few| ensures Less(few[i], last.node.id) {
        assert few[i] in few;
        ArrivingMembers(front, rest, slot, few[i]);
      }
    }
  }

  /** The additions of a diff arrive in each slot in id order. */
  lemma {:induction false} AdditionsArrive(prior: Forest, next: Forest, slot: Option<string>)
    requires Unique(prior) && Unique(next)
    ensures Arriving(Diff(prior, next).added, Tops(prior, next), slot) == SortedKeys(TopsAt(prior, next, slot))
  {
    var adds, tops := Diff(prior, next).added, Tops(prior, next);
    DiffIsAscending(prior, next);
    hide Ascending, Tops;
    ArrivingAscends(adds, tops, slot);
    forall x ensures x in Arriving(adds, tops, slot) <==> x in TopsAt(prior, next, slot) {
      ArrivingMembers(adds, tops, slot, x);
      if x in tops {
        TopsAreAdded(prior, next, x);
        AdditionHangs(prior, next, x);
      }
      hide Diff, ParentOf;
    }
    hide Diff, TopsAt, Arriving;
    AscendingIsCanonical(Arriving(adds, tops, slot), TopsAt(prior, next, slot));
  }

  /** Every addition of `x` names the parent it has in `next`. */
  lemma {:induction false} AdditionHangs(prior: Forest, next: Forest, x: string)
    requires Unique(prior) && Unique(next) && x in NamesOf(Diff(prior, next).added)
    ensures var adds := Diff(prior, next).added;
            && (exists i :: 0 <= i < |adds| && adds[i].node.id == x)
            && forall i :: 0 <= i < |adds| && adds[i].node.id == x ==> Some(adds[i].parent) == ParentOf(next, x)
  {
    var adds := Diff(prior, next).added;
    var a :| a in adds && a.node.id == x;
    var k :| 0 <= k < |adds| && adds[k] == a;
    forall i | 0 <= i < |adds| && adds[i].node.id == x ensures Some(adds[i].parent) == ParentOf(next, x) {
      assert adds[i] in adds;
      AddedIsEmittable(prior, next, adds[i]);
      IndexReads(next, None, x);
      hide Diff, IndexOf;
    }
  }

  /** Removing and changing leaves the kept nodes, each with its new scalars. */
  lemma {:induction false} TrimmedIsCut(held: Forest, prior: Forest, next: Forest)
    requires SameShape(held, prior) && Unique(next)
    ensures var gone, d := Displaced(prior, next), Diff(prior, next);
            Trimmed(held, d) == ChangeAll(Cut(held, gone), d.changed) && Ids(Cut(held, gone)) == Kept(prior, next)
    ensures Unique(held)
  {
    ShapeDecidesKept(held, prior, next);
    RemovedIsDisplaced(prior, next);
    RemoveAllIsCut(held, Diff(prior, next).removed);
    hide Diff, Displaced, Kept, RemoveAll, ChangeAll, Cut;
  }

  /** After removals and edits a slot lists its kept members, in the order they were held. */
  lemma {:induction false} TrimmedLists(held: Forest, prior: Forest, next: Forest, slot: Option<string>)
    requires SameShape(held, prior) && Unique(next) && (slot.Some? ==> slot.value in Kept(prior, next))
    ensures Listed(Trimmed(held, Diff(prior, next)), slot) == Only(Listed(held, slot), Kept(prior, next))
  {
    var d, gone, kept := Diff(prior, next), Displaced(prior, next), Kept(prior, next);
    TrimmedIsCut(held, prior, next);
    var ids := Listed(held, slot);
    hide Diff, Displaced, Kept, Trimmed, ChangeAll, RootIds, KidIds, SameShape, Cut;
    ChangeLists(Cut(held, gone), d.changed, slot);
    forall k | 0 <= k < |ids| ensures ids[k] in kept <==> ids[k] !in gone {
      ListedHangs(held, slot, k);
      SurvivesIff(held, gone, None, ids[k]);
      hide Listed;
    }
    match slot
    case None => CutRoots(held, gone, kept);
    case Some(x) => CutKids(held, gone, x, kept);
  }

  /** After a patch the roots, and the children of every kept node, are the kept ones in the order the client held
      them, then the grafted ones in id order; below a grafted node everything stands as in the new revision. */
  lemma {:induction false} PatchOrdersSiblings(held: Forest, prior: Forest, next: Forest)
    requires SameShape(held, prior) && Unique(next) && EmptyParentsRide(prior, next)
    ensures var r, kept := Apply(held, Diff(prior, next)), Kept(prior, next);
            && (forall slot: Option<string> :: (slot.Some? ==> slot.value in kept) ==>
                  Listed(r, slot) == Only(Listed(held, slot), kept) + SortedKeys(TopsAt(prior, next, slot)))
            && forall y :: y in Ids(next) && y !in kept ==> KidIds(r, y) == KidIds(next, y)
  {
    var d, kept := Diff(prior, next), Kept(prior, next);
    var base, r := Trimmed(held, d), Apply(held, d);
    TrimmedIsPartial(held, prior, next);
    RidersAreInTurn(prior, next, |d.added|);
    assert d.added[..|d.added|] == d.added;
    assert r == GraftLoop(base, d.added).0;
    assert Intact(base, kept, next);
    ApplyReads(held, prior, next);
    forall slot: Option<string> | slot.Some? ==> slot.value in kept
      ensures Listed(r, slot) == Only(Listed(held, slot), kept) + SortedKeys(TopsAt(prior, next, slot))
    {
      assert HasSlot(base, slot);
      hide *;
      LoopLists(base, base, prior, next, Tops(prior, next), d.added, slot);
      TrimmedLists(held, prior, next, slot);
      AdditionsArrive(prior, next, slot);
    }
    assert Intact(r, kept, next) by {
      assert HasSlot(base, None);
      hide *;
      LoopLists(base, base, prior, next, Tops(prior, next), d.added, None);
    }
    hide Apply, Diff, Kept, Trimmed, Tops, KidIds, Listed, SortedKeys, TopsAt, Only;
  }
}
