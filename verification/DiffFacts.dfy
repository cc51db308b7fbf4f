/** When a diff is empty, in what order it lists its entries, and two inputs on which patching is not exact. */
module DiffFacts {
  import opened Ordering
  import opened UiForest
  import opened TreeDiff
  import opened Prune
  import opened Patch
  import opened DiffReads
  import opened PatchTheorem

  // ----- order

  function AddedIds(adds: seq<AddedNode>): (r: seq<string>)
    ensures |r| == |adds|
    ensures forall i :: 0 <= i < |adds| ==> r[i] == adds[i].node.id
  {
    if adds == [] then [] else AddedIds(adds[..|adds| - 1]) + [adds[|adds| - 1].node.id]
  }

  function ChangedIds(changes: seq<ChangedNode>): (r: seq<string>)
    ensures |r| == |changes|
    ensures forall i :: 0 <= i < |changes| ==> r[i] == changes[i].id
  {
    if changes == [] then [] else ChangedIds(changes[..|changes| - 1]) + [changes[|changes| - 1].id]
  }

  /** `ids` is ascending and lists only members of `keys`. */
  ghost predicate Thinned(ids: seq<string>, keys: seq<string>)
  {
    Ascending(ids) && forall i :: 0 <= i < |ids| ==> ids[i] in keys
  }

  lemma {:induction false} ThinnedGrows(ids: seq<string>, keys: seq<string>)
    requires keys != [] && Ascending(keys) && Thinned(ids, keys[..|keys| - 1])
    ensures Thinned(ids, keys) && Thinned(ids + [keys[|keys| - 1]], keys)
  {
    var last := keys[|keys| - 1];
    forall i | 0 <= i < |ids| ensures Less(ids[i], last) && ids[i] in keys {
      var j :| 0 <= j < |keys| - 1 && keys[..|keys| - 1][j] == ids[i];
      assert Less(keys[j], last) && keys[j] == ids[i];
    }
  }

  lemma {:induction false} OneMoreEntry(d: TreeDiff, before: NodeIndex, after: NodeIndex, id: string)
    requires id in after && after[id].node.id == id
    ensures var e := CompareOne(d, before, after, id);
            && (AddedIds(e.added) == AddedIds(d.added) || AddedIds(e.added) == AddedIds(d.added) + [id])
            && (ChangedIds(e.changed) == ChangedIds(d.changed) || ChangedIds(e.changed) == ChangedIds(d.changed) + [id])
  {
    hide ChangedFields;
  }

  lemma {:induction false} WalkIsThinned(keys: seq<string>, before: NodeIndex, after: NodeIndex)
    requires Ascending(keys) && Named(after) && forall k :: k in keys ==> k in after
    ensures var d := CompareOver(keys, before, after);
            Thinned(AddedIds(d.added), keys) && Thinned(ChangedIds(d.changed), keys)
  {
    if keys != [] {
      var front, last := keys[..|keys| - 1], keys[|keys| - 1];
      assert keys == front + [last];
      WalkIsThinned(front, before, after);
      var d := CompareOver(front, before, after);
      assert CompareOver(keys, before, after) == CompareOne(d, before, after, last);
      assert last in after && after[last].node.id == last;
      hide CompareOver, CompareOne, Thinned, AddedIds, ChangedIds, Named;
      ThinnedGrows(AddedIds(d.added), keys);
      ThinnedGrows(ChangedIds(d.changed), keys);
      OneMoreEntry(d, before, after, last);
    }
  }

  /** All three lists come out in strictly ascending id order: no id is listed twice in one of them. */
  lemma {:induction false} DiffIsAscending(prior: Forest, next: Forest)
    requires Unique(next)
    ensures var d := Diff(prior, next);
            Ascending(AddedIds(d.added)) && Ascending(d.removed) && Ascending(ChangedIds(d.changed))
  {
    var before, after := IndexOf(prior, None), IndexOf(next, None);
    IndexIsNamed(next);
    SortedKeysListing(after.Keys);
    var keys := SortedKeys(after.Keys);
    WalkIsThinned(keys, before, after);
    var d := CompareOver(keys, before, after);
    var gone := GoneOver(SortedKeys(before.Keys), after);
    hide CompareOver, GoneOver, IndexOf, SortedKeys, Ascending;
    SortedKeysListing(set id | id in d.removed + gone);
  }

  // ----- exactly what a diff lists

  /** `fields` are the keys that `n` serialises and `o` does not serialise the same, as `n` has them. */
  ghost predicate Carries(o: Attrs, n: Attrs, fields: map<Field, Json>)
  {
    forall k: Field ::
      && (k in fields <==> Serialised(n, k).Some? && Serialised(o, k) != Serialised(n, k))
      && (k in fields ==> fields[k] == Serialised(n, k).value)
  }

  lemma {:induction false} CarriesIsDelta(o: Attrs, n: Attrs, fields: map<Field, Json>)
    ensures Carries(o, n, fields) <==> fields == ChangedFields(o, n)
  {
    forall k: Field
      ensures k in ChangedFields(o, n) <==> Serialised(n, k).Some? && Serialised(o, k) != Serialised(n, k)
      ensures k in ChangedFields(o, n) ==> ChangedFields(o, n)[k] == Serialised(n, k).value
    {
      DeltaAt(o, n, k);
    }
    hide ChangedFields, Serialised;
    if Carries(o, n, fields) { assert fields.Keys == ChangedFields(o, n).Keys; }
  }

  lemma {:induction false} EditMembers(keys: seq<string>, before: NodeIndex, after: NodeIndex, c: ChangedNode)
    requires forall k :: k in keys ==> k in after
    ensures c in CompareOver(keys, before, after).changed <==>
              c.id in keys && c.fields == EditOf(before, after, c.id) && c.fields != map[]
  {
    if keys != [] {
      var front, last := keys[..|keys| - 1], keys[|keys| - 1];
      assert keys == front + [last];
      EditMembers(front, before, after, c);
      hide ChangedFields;
    }
  }

  /** A field edit is listed exactly for a node that keeps its parent and serialises some key differently, with
      those keys and no others. */
  lemma {:induction false} ChangedIsExact(prior: Forest, next: Forest, c: ChangedNode)
    requires Unique(prior) && Unique(next)
    ensures c in Diff(prior, next).changed <==>
              && c.id in Ids(prior) && c.id in Ids(next) && ParentOf(prior, c.id) == ParentOf(next, c.id)
              && c.fields != map[]
              && Carries(Flat(prior, c.id).value.attrs, Flat(next, c.id).value.attrs, c.fields)
  {
    hide Carries, ChangedFields, Diff, Serialised;
    ChangedAt(prior, next, c);
    IndexReads(prior, None, c.id);
    IndexReads(next, None, c.id);
    hide IndexOf;
    if c.id in Ids(prior) && c.id in Ids(next) {
      CarriesIsDelta(Flat(prior, c.id).value.attrs, Flat(next, c.id).value.attrs, c.fields);
    }
  }

  lemma {:induction false} ChangedAt(prior: Forest, next: Forest, c: ChangedNode)
    ensures var before, after := IndexOf(prior, None), IndexOf(next, None);
            c in Diff(prior, next).changed <==>
              c.id in after && c.fields == EditOf(before, after, c.id) && c.fields != map[]
  {
    var before, after := IndexOf(prior, None), IndexOf(next, None);
    hide EditOf, IndexOf, CompareOver;
    SortedKeysListing(after.Keys);
    EditMembers(SortedKeys(after.Keys), before, after, c);
    hide SortedKeys;
  }

  /** An addition is listed exactly for a node that hangs elsewhere than before, and for a new node whose parent is
      old and stays in place, or that has none; it carries the new subtree whole. */
  lemma {:induction false} AddedIsExact(prior: Forest, next: Forest, e: AddedNode)
    requires Unique(prior) && Unique(next)
    ensures e in Diff(prior, next).added <==>
              && Genuine(next, e)
              && if e.node.id in Ids(prior) then ParentOf(prior, e.node.id) != ParentOf(next, e.node.id)
                 else e.parent.Some? ==> StaysIn(prior, next, e.parent.value)
  {
    var before, after, id := IndexOf(prior, None), IndexOf(next, None), e.node.id;
    AddedAt(prior, next, e);
    IndexReads(prior, None, id);
    IndexReads(next, None, id);
    if e.parent.Some? {
      IndexReads(prior, None, e.parent.value);
      IndexReads(next, None, e.parent.value);
    }
    hide Diff, IndexOf, Unique;
  }

  /** An old node that the new revision does not hang elsewhere. */
  predicate StaysIn(prior: Forest, next: Forest, x: string)
  {
    x in Ids(prior) && (x in Ids(next) ==> ParentOf(prior, x) == ParentOf(next, x))
  }

  // ----- the empty diff

  const NO_DIFF := TreeDiff([], [], [])

  /** `n` differs from `o` at most by keys it no longer serialises. */
  predicate OnlyLoses(o: Attrs, n: Attrs)
  {
    && o.role == n.role && o.name == n.name && o.enabled == n.enabled && o.focused == n.focused && o.bounds == n.bounds
    && (o.value == n.value || n.value.None?)
    && (o.checked == n.checked || n.checked.None?)
    && (o.visible == n.visible || n.visible)
    && (o.states == n.states || n.states == [])
  }

  /** Key `k` of `n` is omitted, or as it was. */
  predicate SameOrLost(o: Attrs, n: Attrs, k: Field)
  {
    Serialised(n, k).None? || Serialised(o, k) == Serialised(n, k)
  }

  lemma {:induction false} LosesByKey(o: Attrs, n: Attrs)
    ensures OnlyLoses(o, n) <==> forall k: Field :: SameOrLost(o, n, k)
  {
    if OnlyLoses(o, n) {
      forall k: Field ensures SameOrLost(o, n, k) {
        match k
        case FRole | FName | FValue | FChecked | FEnabled | FFocused | FVisible | FBounds | FStates =>
      }
    } else {
      var k := if o.role != n.role then FRole else if o.name != n.name then FName
               else if o.enabled != n.enabled then FEnabled else if o.focused != n.focused then FFocused
               else if o.bounds != n.bounds then FBounds
               else if !(o.value == n.value || n.value.None?) then FValue
               else if !(o.checked == n.checked || n.checked.None?) then FChecked
               else if !(o.visible == n.visible || n.visible) then FVisible else FStates;
      assert !SameOrLost(o, n, k);
    }
  }

  lemma {:induction false} NoFieldsChanged(o: Attrs, n: Attrs)
    ensures ChangedFields(o, n) == map[] <==> OnlyLoses(o, n)
  {
    LosesByKey(o, n);
    var d := ChangedFields(o, n);
    forall k: Field ensures k in d <==> !SameOrLost(o, n, k) {
      DeltaAt(o, n, k);
      hide ChangedFields, Serialised;
    }
    hide *;
    assert d == map[] <==> forall k :: k !in d;
  }

  lemma {:induction false} ChangedMembers(keys: seq<string>, before: NodeIndex, after: NodeIndex)
    requires forall k :: k in keys ==> k in after
    ensures CompareOver(keys, before, after).changed == [] <==>
              forall k :: k in keys ==> EditOf(before, after, k) == map[]
  {
    if keys != [] {
      var front, last := keys[..|keys| - 1], keys[|keys| - 1];
      assert keys == front + [last];
      ChangedMembers(front, before, after);
      hide ChangedFields;
      var d := CompareOver(front, before, after);
      assert CompareOver(keys, before, after) == CompareOne(d, before, after, last);
      assert EditOf(before, after, last) == map[] <==> CompareOne(d, before, after, last).changed == d.changed;
      if d.changed != [] { assert CompareOne(d, before, after, last).changed != []; }
    }
  }

  /** Nothing is added or removed exactly when both revisions have the same shape. */
  lemma {:induction false} ShapeIsSilent(prior: Forest, next: Forest)
    requires Unique(prior) && Unique(next)
    ensures Diff(prior, next).added == [] && Diff(prior, next).removed == [] <==> SameShape(prior, next)
  {
    var d := Diff(prior, next);
    if d.added != [] {
      AddedIsDisplaced(prior, next, d.added[0]);
    } else if d.removed != [] {
      RemovedAt(prior, next, d.removed[0]);
    } else if !SameShape(prior, next) {
      var x :| ParentOf(prior, x) != ParentOf(next, x);
      RemovedIsDisplaced(prior, next);
      assert Displaced(prior, next) == {};
      assert x !in Ids(prior);
      NewNodeIsAdded(prior, next, x);
    }
  }

  lemma {:induction false} AddedIsDisplaced(prior: Forest, next: Forest, e: AddedNode)
    requires Unique(prior) && Unique(next) && e in Diff(prior, next).added
    ensures e.node.id in Ids(next) && ParentOf(prior, e.node.id) != ParentOf(next, e.node.id)
  {
    AddedAt(prior, next, e);
    IndexReads(prior, None, e.node.id);
    IndexReads(next, None, e.node.id);
    hide Diff;
  }

  /** With nothing removed, some topmost new node is emitted. */
  lemma {:induction false} NewNodeIsAdded(prior: Forest, next: Forest, x: string)
    requires Unique(prior) && Unique(next) && Displaced(prior, next) == {} && x in Ids(next) && x !in Ids(prior)
    ensures Diff(prior, next).added != []
  {
    if Tops(prior, next) == {} {
      CutNothing(next, {});
      TopsCoverDisplaced(prior, next);
      CutNothing(prior, {});
      assert false;
    }
    var q :| q in Tops(prior, next);
    TopsAreAdded(prior, next, q);
  }

  lemma {:induction false} RowIsSilent(prior: Forest, next: Forest, x: string)
    requires SameShape(prior, next) && x in Ids(next)
    ensures x in Ids(prior) && x in IndexOf(next, None)
    ensures EditOf(IndexOf(prior, None), IndexOf(next, None), x) == map[] <==>
              OnlyLoses(Flat(prior, x).value.attrs, Flat(next, x).value.attrs)
  {
    assert ParentOf(prior, x) == ParentOf(next, x);
    IndexReads(prior, None, x);
    IndexReads(next, None, x);
    hide IndexOf;
    NoFieldsChanged(Flat(prior, x).value.attrs, Flat(next, x).value.attrs);
    hide ChangedFields, OnlyLoses;
  }

  lemma {:induction false} EditsAreSilent(prior: Forest, next: Forest)
    requires SameShape(prior, next)
    ensures Diff(prior, next).changed == [] <==>
              forall x :: x in Ids(next) && x in Ids(prior) ==>
                  OnlyLoses(Flat(prior, x).value.attrs, Flat(next, x).value.attrs)
  {
    var before, after := IndexOf(prior, None), IndexOf(next, None);
    var keys := SortedKeys(after.Keys);
    SortedKeysListing(after.Keys);
    ChangedMembers(keys, before, after);
    IndexIsNamed(next);
    assert Diff(prior, next).changed == CompareOver(keys, before, after).changed;
    forall x | x in Ids(next)
      ensures x in Ids(prior)
      ensures EditOf(before, after, x) == map[] <==> OnlyLoses(Flat(prior, x).value.attrs, Flat(next, x).value.attrs)
    {
      RowIsSilent(prior, next, x);
    }
    hide *;
  }

  /** A diff is empty exactly when the shapes agree and every node differs, if at all, only by keys that
      are no longer serialised: hiding such an edit is the one thing an empty diff can do. */
  lemma {:induction false} SilentDiff(prior: Forest, next: Forest)
    requires Unique(prior) && Unique(next)
    ensures Diff(prior, next) == NO_DIFF <==>
              && SameShape(prior, next)
              && forall x :: x in Ids(next) && x in Ids(prior) ==>
                  OnlyLoses(Flat(prior, x).value.attrs, Flat(next, x).value.attrs)
  {
    ShapeIsSilent(prior, next);
    if SameShape(prior, next) { EditsAreSilent(prior, next); }
    hide *;
  }

  // ----- two inputs on which patching is not exact

  /** A value that disappears stays in the patched copy. */
  lemma {:induction false} VanishedValueStays(a: Attrs)
    requires a.value.Some?
    ensures var prior, next := [Node("field", a, [])], [Node("field", a.(value := None), [])];
            Diff(prior, next) == NO_DIFF && Apply(prior, Diff(prior, next)) == prior != next
  {
    var prior, next := [Node("field", a, [])], [Node("field", a.(value := None), [])];
    assert prior[1..] == [] && next[1..] == [];
    forall x ensures ParentOf(prior, x) == ParentOf(next, x) {}
    SilentDiff(prior, next);
  }

  lemma {:induction false} IndexOfLeaf(id: string, a: Attrs, parent: Option<string>)
    ensures IndexOf([Node(id, a, [])], parent) == map[id := Located(Node(id, a, []), parent)]
  {
    assert [Node(id, a, [])][1..] == [];
  }

  lemma {:induction false} IndexOfPair(a: Attrs)
    ensures var x := Node("x", a, []);
            IndexOf([Node("", a, [x])], None) == map["" := Located(Node("", a, [x]), None), "x" := Located(x, Some(""))]
  {
    var x := Node("x", a, []);
    IndexOfLeaf("x", a, Some(""));
    assert [Node("", a, [x])][1..] == [];
  }

  lemma {:induction false} WalkOfPair(before: NodeIndex, after: NodeIndex)
    requires "" in before && "" in after && "x" !in before && "x" in after
    requires before[""].parent == after[""].parent && before[""].node.attrs == after[""].node.attrs
              && after["x"].parent == Some("")
    ensures CompareOver(["", "x"], before, after) == TreeDiff([AddedNode(after["x"].node, Some(""))], [], [])
  {
    assert ["", "x"][..1] == [""] && [""][..0] == [];
    NoFieldsChanged(before[""].node.attrs, after[""].node.attrs);
    hide ChangedFields;
    assert CompareOver([""], before, after) == NO_DIFF;
  }

  lemma {:induction false} DiffOfPair(a: Attrs)
    ensures var x := Node("x", a, []);
            Diff([Node("", a, [])], [Node("", a, [x])]) == TreeDiff([AddedNode(x, Some(""))], [], [])
  {
    var before, after := IndexOf([Node("", a, [])], None), IndexOf([Node("", a, [Node("x", a, [])])], None);
    IndexOfLeaf("", a, None);
    IndexOfPair(a);
    assert before.Keys == {""} && after.Keys == {"", "x"};
    WalkOfPair(before, after);
    hide IndexOf, CompareOver;
    AscendingIsCanonical(["", "x"], after.Keys);
    AscendingIsCanonical([""], before.Keys);
    assert GoneOver([""], after) == [] by { assert [""][..0] == []; }
    AscendingIsCanonical([], set id: string | id in [] + []);
    hide SortedKeys, GoneOver;
  }

  /** A node added under a parent with an empty id lands at top level. */
  lemma {:induction false} EmptyParentIsTopLevel(a: Attrs)
    ensures var prior, next := [Node("", a, [])], [Node("", a, [Node("x", a, [])])];
            Apply(prior, Diff(prior, next)) == prior + [Node("x", a, [])] != next
  {
    DiffOfPair(a);
    var prior, e := [Node("", a, [])], AddedNode(Node("x", a, []), Some(""));
    hide Diff;
    assert [e][..0] == [] && prior[1..] == [];
    assert "x" !in Ids(prior);
    assert GraftPass(prior, []) == Grafting(prior, [], false);
    assert GraftPass(prior, [e]) == Grafting(prior + [e.node], [], true);
    assert GraftLoop(prior, [e]) == GraftLoop(prior + [e.node], []);
    assert RemoveAll(prior, []) == prior && ChangeAll(prior, []) == prior;
    assert |prior + [e.node]| == 2;
  }
}
