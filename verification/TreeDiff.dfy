/** Revision diffs: what `diff_trees` emits and what `apply_diff` does with it. */
module TreeDiff {
  import opened Ordering
  import opened UiForest

  // ----- serialised scalar fields

  datatype Field = FRole | FName | FValue | FChecked | FEnabled | FFocused | FVisible | FBounds | FStates

  datatype Json = JString(s: string) | JBool(b: bool) | JBounds(bounds: Bounds) | JStrings(ss: seq<string>)

  const NODE_FIELDS: set<Field> :=
    {FRole, FName, FValue, FChecked, FEnabled, FFocused, FVisible, FBounds, FStates}

  /** A scalar key as it is serialised: `value` and `checked` are omitted when absent,
      `visible` when true, `states` when empty. */
  function Serialised(a: Attrs, k: Field): Option<Json>
  {
    match k
    case FRole => Some(JString(a.role))
    case FName => Some(JString(a.name))
    case FValue => if a.value.Some? then Some(JString(a.value.value)) else None
    case FChecked => if a.checked.Some? then Some(JBool(a.checked.value)) else None
    case FEnabled => Some(JBool(a.enabled))
    case FFocused => Some(JBool(a.focused))
    case FVisible => if a.visible then None else Some(JBool(false))
    case FBounds => Some(JBounds(a.bounds))
    case FStates => if a.states == [] then None else Some(JStrings(a.states))
  }

  function ScalarFields(a: Attrs): map<Field, Json>
  {
    map k | k in NODE_FIELDS && Serialised(a, k).Some? :: Serialised(a, k).value
  }

  /** The fields of `n` a diff carries: only keys `n` serialises are compared. */
  function ChangedFields(o: Attrs, n: Attrs): map<Field, Json>
  {
    var before, after := ScalarFields(o), ScalarFields(n);
    map k | k in after && (k !in before || before[k] != after[k]) :: after[k]
  }

  function AsString(j: Json): string { if j.JString? then j.s else "" }

  function AsBool(j: Json, otherwise: bool): bool { if j.JBool? then j.b else otherwise }

  function ApplyFields(a: Attrs, fields: map<Field, Json>): Attrs
  {
    Attrs(
      if FRole in fields then AsString(fields[FRole]) else a.role,
      if FName in fields then AsString(fields[FName]) else a.name,
      if FValue in fields then (if fields[FValue].JString? then Some(fields[FValue].s) else None) else a.value,
      if FChecked in fields then (if fields[FChecked].JBool? then Some(fields[FChecked].b) else None) else a.checked,
      if FEnabled in fields then AsBool(fields[FEnabled], true) else a.enabled,
      if FFocused in fields then AsBool(fields[FFocused], false) else a.focused,
      if FVisible in fields then AsBool(fields[FVisible], true) else a.visible,
      if FBounds in fields && fields[FBounds].JBounds? then fields[FBounds].bounds else a.bounds,
      if FStates in fields && fields[FStates].JStrings? then fields[FStates].ss else a.states)
  }

  /** Some scalar key is serialised in `o` and omitted in `n`. */
  ghost predicate KeyVanishes(o: Attrs, n: Attrs)
  {
    exists k :: k in ScalarFields(o) && k !in ScalarFields(n)
  }

  predicate Lost(o: Attrs, n: Attrs, k: Field) { Serialised(o, k).Some? && Serialised(n, k).None? }

  lemma {:induction false} KeyIsSerialised(a: Attrs, k: Field)
    ensures k in ScalarFields(a) <==> Serialised(a, k).Some?
  {
    assert k in NODE_FIELDS by {
      match k
      case FRole | FName | FValue | FChecked | FEnabled | FFocused | FVisible | FBounds | FStates =>
    }
  }

  lemma {:induction false} LostKeys(o: Attrs, n: Attrs)
    ensures Lost(o, n, FValue) <==> o.value.Some? && n.value.None?
    ensures Lost(o, n, FChecked) <==> o.checked.Some? && n.checked.None?
    ensures Lost(o, n, FVisible) <==> !o.visible && n.visible
    ensures Lost(o, n, FStates) <==> o.states != [] && n.states == []
    ensures forall k: Field :: Lost(o, n, k) ==> k == FValue || k == FChecked || k == FVisible || k == FStates
  {
  }

  /** Which keys can vanish: an absent value or check mark, a node shown again, emptied states. */
  lemma {:induction false} VanishingKeys(o: Attrs, n: Attrs)
    ensures KeyVanishes(o, n) <==>
              || (o.value.Some? && n.value.None?)
              || (o.checked.Some? && n.checked.None?)
              || (!o.visible && n.visible)
              || (o.states != [] && n.states == [])
  {
    forall k: Field ensures k in ScalarFields(o) && k !in ScalarFields(n) <==> Lost(o, n, k) {
      KeyIsSerialised(o, k);
      KeyIsSerialised(n, k);
    }
    hide ScalarFields, Lost;
    LostKeys(o, n);
  }

  lemma {:induction false} DeltaAt(o: Attrs, n: Attrs, k: Field)
    ensures k in ChangedFields(o, n) <==> Serialised(n, k).Some? && Serialised(o, k) != Serialised(n, k)
    ensures k in ChangedFields(o, n) ==> ChangedFields(o, n)[k] == Serialised(n, k).value
  {
    assert k in NODE_FIELDS by {
      match k
      case FRole | FName | FValue | FChecked | FEnabled | FFocused | FVisible | FBounds | FStates =>
    }
  }

  /** Patching one node's scalars restores the new ones exactly when no key vanishes. */
  lemma {:induction false} FieldPatchExact(o: Attrs, n: Attrs)
    ensures ApplyFields(o, ChangedFields(o, n)) == n <==> !KeyVanishes(o, n)
  {
    forall k: Field { DeltaAt(o, n, k); }
    VanishingKeys(o, n);
    var d := ChangedFields(o, n);
    hide ChangedFields, KeyVanishes, ScalarFields;
    var r := ApplyFields(o, d);
    assert r.role == n.role && r.name == n.name && r.enabled == n.enabled
        && r.focused == n.focused && r.bounds == n.bounds;
    assert r.value == n.value <==> !(o.value.Some? && n.value.None?);
    assert r.checked == n.checked <==> !(o.checked.Some? && n.checked.None?);
    assert r.visible == n.visible <==> !(!o.visible && n.visible);
    assert r.states == n.states <==> !(o.states != [] && n.states == []);
  }

  // ----- the id index

  datatype Located = Located(node: Node, parent: Option<string>)

  /** (node, parent) for every id in DFS order; a later occurrence overwrites an earlier one. */
  function IndexOf(f: Forest, parent: Option<string>): map<string, Located>
  {
    if f == [] then map[]
    else map[f[0].id := Located(f[0], parent)] + (IndexOf(f[0].children, Some(f[0].id)) + IndexOf(f[1..], parent))
  }

  function StackIndex(stack: seq<Located>): map<string, Located>
  {
    if stack == [] then map[]
    else
      var top := stack[|stack| - 1];
      IndexOf([top.node], top.parent) + StackIndex(stack[..|stack| - 1])
  }

  /** The nodes of `f`, last first, ready to be popped in order. */
  function Reversed(f: Forest, parent: Option<string>): (r: seq<Located>)
    ensures |r| == |f|
  {
    if f == [] then [] else Reversed(f[1..], parent) + [Located(f[0], parent)]
  }

  function Size(f: Forest): nat
  {
    if f == [] then 0 else 1 + Size(f[0].children) + Size(f[1..])
  }

  function StackSize(stack: seq<Located>): nat
  {
    if stack == [] then 0
    else Size([stack[|stack| - 1].node]) + StackSize(stack[..|stack| - 1])
  }

  lemma {:induction false} MapUnionAssociates<K, V>(a: map<K, V>, b: map<K, V>, c: map<K, V>)
    ensures (a + b) + c == a + (b + c)
  {
  }

  lemma {:induction false} PushReversed(stack: seq<Located>, f: Forest, parent: Option<string>)
    ensures StackIndex(stack + Reversed(f, parent)) == IndexOf(f, parent) + StackIndex(stack)
    ensures StackSize(stack + Reversed(f, parent)) == Size(f) + StackSize(stack)
  {
    var r := Reversed(f, parent);
    if f == [] {
      assert stack + r == stack;
      assert IndexOf(f, parent) == map[];
    } else {
      var below := stack + Reversed(f[1..], parent);
      assert stack + r == below + [Located(f[0], parent)];
      assert (stack + r)[..|stack + r| - 1] == below;
      PushReversed(stack, f[1..], parent);
      OneNode(f[0], parent);
      var own, kids := map[f[0].id := Located(f[0], parent)], IndexOf(f[0].children, Some(f[0].id));
      MapUnionAssociates(own + kids, IndexOf(f[1..], parent), StackIndex(stack));
      MapUnionAssociates(own, kids, IndexOf(f[1..], parent));
    }
  }

  lemma {:induction false} OneNode(n: Node, parent: Option<string>)
    ensures IndexOf([n], parent) == map[n.id := Located(n, parent)] + IndexOf(n.children, Some(n.id))
    ensures Size([n]) == 1 + Size(n.children)
  {
    assert [n][1..] == [];
    assert IndexOf([n][1..], parent) == map[];
    assert IndexOf(n.children, Some(n.id)) + map[] == IndexOf(n.children, Some(n.id));
  }

  /** One turn of the indexing loop: pop a node, push its children, record it. */
  lemma {:induction false} PopStep(out: map<string, Located>, stack: seq<Located>)
    requires stack != []
    ensures var top := stack[|stack| - 1];
            var next := stack[..|stack| - 1] + Reversed(top.node.children, Some(top.node.id));
            && out + StackIndex(stack) == out[top.node.id := top] + StackIndex(next)
            && StackSize(next) < StackSize(stack)
  {
    hide *;
    var top, rest := stack[|stack| - 1], stack[..|stack| - 1];
    var own, kids := map[top.node.id := top], IndexOf(top.node.children, Some(top.node.id));
    Unstack(stack);
    OneNode(top.node, top.parent);
    PushReversed(rest, top.node.children, Some(top.node.id));
    UpdateIsUnion(out, top.node.id, top);
    MapUnionAssociates(own, kids, StackIndex(rest));
    MapUnionAssociates(out, own, kids + StackIndex(rest));
  }

  lemma {:induction false} Unstack(stack: seq<Located>)
    requires stack != []
    ensures var top, rest := stack[|stack| - 1], stack[..|stack| - 1];
            && StackIndex(stack) == IndexOf([top.node], top.parent) + StackIndex(rest)
            && StackSize(stack) == Size([top.node]) + StackSize(rest)
  {
  }

  lemma {:induction false} UpdateIsUnion<K, V>(m: map<K, V>, k: K, v: V)
    ensures m[k := v] == m + map[k := v]
  {
  }

  /** Builds the index with an explicit stack. */
  method Index(tree: Forest) returns (out: map<string, Located>)
    ensures out == IndexOf(tree, None)
  {
    out := map[];
    var stack := Reversed(tree, None);
    PushReversed([], tree, None);
    assert [] + stack == stack;
    while stack != []
      invariant IndexOf(tree, None) == out + StackIndex(stack)
      decreases StackSize(stack)
    {
      PopStep(out, stack);
      var top := stack[|stack| - 1];
      stack := stack[..|stack| - 1] + Reversed(top.node.children, Some(top.node.id));
      out := out[top.node.id := top];
    }
  }

  // ----- diff_trees

  datatype AddedNode = AddedNode(node: Node, parent: Option<string>)

  datatype ChangedNode = ChangedNode(id: string, fields: map<Field, Json>)

  datatype TreeDiff = TreeDiff(added: seq<AddedNode>, removed: seq<string>, changed: seq<ChangedNode>)

  type NodeIndex = map<string, Located>

  /** `id` has a different parent in the two revisions (or sits in only one of them). */
  predicate Moved(before: NodeIndex, after: NodeIndex, id: string)
  {
    id in before && id in after && before[id].parent != after[id].parent
  }

  /** A new node whose parent is new or moved travels inside that ancestor's own entry. */
  predicate Embedded(before: NodeIndex, after: NodeIndex, parent: Option<string>)
  {
    parent.Some? && (parent.value !in before || Moved(before, after, parent.value))
  }

  /** What one id of the new revision contributes: an addition, a move (removal and addition),
      a field edit, or nothing. */
  function CompareOne(d: TreeDiff, before: NodeIndex, after: NodeIndex, id: string): TreeDiff
    requires id in after
  {
    var add := AddedNode(after[id].node, after[id].parent);
    if id !in before then
      if Embedded(before, after, after[id].parent) then d else d.(added := d.added + [add])
    else if before[id].parent != after[id].parent then
      d.(removed := d.removed + [id], added := d.added + [add])
    else
      var fields := ChangedFields(before[id].node.attrs, after[id].node.attrs);
      if fields == map[] then d else d.(changed := d.changed + [ChangedNode(id, fields)])
  }

  function CompareOver(keys: seq<string>, before: NodeIndex, after: NodeIndex): TreeDiff
    requires forall k :: k in keys ==> k in after
  {
    if keys == [] then TreeDiff([], [], [])
    else CompareOne(CompareOver(keys[..|keys| - 1], before, after), before, after, keys[|keys| - 1])
  }

  function GoneOver(keys: seq<string>, after: NodeIndex): seq<string>
  {
    if keys == [] then []
    else
      var last := keys[|keys| - 1];
      GoneOver(keys[..|keys| - 1], after) + (if last in after then [] else [last])
  }

  ghost function DiffOf(before: NodeIndex, after: NodeIndex): TreeDiff
  {
    SortedKeysListing(after.Keys);
    var d := CompareOver(SortedKeys(after.Keys), before, after);
    var gone := GoneOver(SortedKeys(before.Keys), after);
    d.(removed := SortedKeys(set id | id in d.removed + gone))
  }

  ghost function Diff(prior: Forest, next: Forest): TreeDiff
  {
    DiffOf(IndexOf(prior, None), IndexOf(next, None))
  }

  /** The walk over the new revision's ids, filling the three vectors in key order. */
  method CompareIds(keys: seq<string>, before: NodeIndex, after: NodeIndex)
    returns (added: seq<AddedNode>, moved: seq<string>, changed: seq<ChangedNode>)
    requires forall k :: k in keys ==> k in after
    ensures TreeDiff(added, moved, changed) == CompareOver(keys, before, after)
  {
    added, moved, changed := [], [], [];
    for i := 0 to |keys|
      invariant TreeDiff(added, moved, changed) == CompareOver(keys[..i], before, after)
    {
      var id := keys[i];
      assert keys[..i + 1][..i] == keys[..i];
      if id !in before {
        if !Embedded(before, after, after[id].parent) {
          added := added + [AddedNode(after[id].node, after[id].parent)];
        }
      } else if before[id].parent != after[id].parent {
        moved := moved + [id];
        added := added + [AddedNode(after[id].node, after[id].parent)];
      } else {
        var fields := ChangedFields(before[id].node.attrs, after[id].node.attrs);
        if fields != map[] {
          changed := changed + [ChangedNode(id, fields)];
        }
      }
    }
    assert keys[..|keys|] == keys;
  }

  /** The walk over the old revision's ids. */
  method CollectGone(keys: seq<string>, after: NodeIndex) returns (gone: seq<string>)
    ensures gone == GoneOver(keys, after)
  {
    gone := [];
    for i := 0 to |keys|
      invariant gone == GoneOver(keys[..i], after)
    {
      assert keys[..i + 1][..i] == keys[..i];
      if keys[i] !in after { gone := gone + [keys[i]]; }
    }
    assert keys[..|keys|] == keys;
  }

  /** `added` and `changed` are filled in ascending id order, so sorting them again changes
      nothing (DiffIsAscending); `removed` holds distinct ids and is sorted at the end. */
  method DiffTrees(prior: Forest, next: Forest) returns (d: TreeDiff)
    ensures d == Diff(prior, next)
  {
    var before := Index(prior);
    var after := Index(next);
    var keys := SortKeys(after.Keys);
    SortedKeysListing(after.Keys);
    var added, removed, changed := CompareIds(keys, before, after);
    var held := SortKeys(before.Keys);
    var gone := CollectGone(held, after);
    removed := SortKeys(set id | id in removed + gone);
    d := TreeDiff(added, removed, changed);
  }

  // ----- apply_diff

  function Position(nodes: Forest, id: string): Option<nat>
  {
    if nodes == [] then None
    else if nodes[0].id == id then Some(0)
    else match Position(nodes[1..], id) case None => None case Some(k) => Some(k + 1)
  }

  lemma {:induction false} PositionInRange(nodes: Forest, id: string)
    ensures Position(nodes, id).Some? ==>
              Position(nodes, id).value < |nodes| && nodes[Position(nodes, id).value].id == id
  {
    if nodes != [] && nodes[0].id != id { PositionInRange(nodes[1..], id); }
  }

  /** Removes the first sibling called `id`, or else searches the children in order; the flag
      says whether something was removed. */
  function RemoveId(nodes: Forest, id: string): (Forest, bool)
    decreases nodes, 1
  {
    PositionInRange(nodes, id);
    match Position(nodes, id)
    case Some(k) => (Without(nodes, k), true)
    case None => RemoveBelow(nodes, id)
  }

  function RemoveBelow(nodes: Forest, id: string): (Forest, bool)
    decreases nodes, 0
  {
    if nodes == [] then ([], false)
    else
      var (children, hit) := RemoveId(nodes[0].children, id);
      if hit then ([nodes[0].(children := children)] + nodes[1..], true)
      else
        var (rest, hitRest) := RemoveBelow(nodes[1..], id);
        ([nodes[0]] + rest, hitRest)
  }

  /** `edit` applied to the first node called `id` in DFS order, as `find_mut` reaches it. */
  function EditFirst(f: Forest, id: string, edit: Node -> Node): Forest
  {
    if f == [] then []
    else if f[0].id == id then [edit(f[0])] + f[1..]
    else if id in Ids(f[0].children) then [f[0].(children := EditFirst(f[0].children, id, edit))] + f[1..]
    else [f[0]] + EditFirst(f[1..], id, edit)
  }

  function SetFields(f: Forest, id: string, fields: map<Field, Json>): Forest
  {
    EditFirst(f, id, (n: Node) => n.(attrs := ApplyFields(n.attrs, fields)))
  }

  function PushChild(f: Forest, id: string, child: Node): Forest
  {
    EditFirst(f, id, (n: Node) => n.(children := n.children + [child]))
  }

  function RemoveAll(f: Forest, ids: seq<string>): Forest
  {
    if ids == [] then f else RemoveId(RemoveAll(f, ids[..|ids| - 1]), ids[|ids| - 1]).0
  }

  function ChangeAll(f: Forest, changes: seq<ChangedNode>): Forest
  {
    if changes == [] then f
    else
      var last := changes[|changes| - 1];
      SetFields(ChangeAll(f, changes[..|changes| - 1]), last.id, last.fields)
  }

  datatype Grafting = Grafting(out: Forest, kept: seq<AddedNode>, progress: bool)

  predicate CanPlace(out: Forest, add: AddedNode)
  {
    add.parent.None? || add.parent.value in Ids(out) || add.parent.value == ""
  }

  /** An empty parent id counts as top level. */
  function Place(out: Forest, add: AddedNode): Forest
  {
    if add.parent.Some? && add.parent.value != "" then PushChild(out, add.parent.value, add.node)
    else out + [add.node]
  }

  function GraftOne(s: Grafting, add: AddedNode): Grafting
  {
    if add.node.id in Ids(s.out) then s
    else if CanPlace(s.out, add) then Grafting(Place(s.out, add), s.kept, true)
    else s.(kept := s.kept + [add])
  }

  /** One `retain` sweep over the pending additions. */
  function GraftPass(out: Forest, pending: seq<AddedNode>): (s: Grafting)
    ensures |s.kept| + (if s.progress then 1 else 0) <= |pending|
  {
    if pending == [] then Grafting(out, [], false)
    else GraftOne(GraftPass(out, pending[..|pending| - 1]), pending[|pending| - 1])
  }

  /** Sweeps until nothing is pending or a sweep places nothing; also returns what is left over. */
  function GraftLoop(out: Forest, pending: seq<AddedNode>): (Forest, seq<AddedNode>)
    decreases |pending|
  {
    if pending == [] then (out, [])
    else
      var s := GraftPass(out, pending);
      if s.progress then GraftLoop(s.out, s.kept) else (s.out, s.kept)
  }

  function Apply(f: Forest, d: TreeDiff): Forest
  {
    GraftLoop(ChangeAll(RemoveAll(f, d.removed), d.changed), d.added).0
  }

  method ApplyDiff(held: Forest, d: TreeDiff) returns (out: Forest)
    ensures out == Apply(held, d)
  {
    out := held;
    for i := 0 to |d.removed|
      invariant out == RemoveAll(held, d.removed[..i])
    {
      assert d.removed[..i + 1][..i] == d.removed[..i];
      var (rest, _) := RemoveId(out, d.removed[i]);
      out := rest;
    }
    assert d.removed[..|d.removed|] == d.removed;
    ghost var trimmed := out;
    for i := 0 to |d.changed|
      invariant out == ChangeAll(trimmed, d.changed[..i])
    {
      assert d.changed[..i + 1][..i] == d.changed[..i];
      out := SetFields(out, d.changed[i].id, d.changed[i].fields);
    }
    assert d.changed[..|d.changed|] == d.changed;
    ghost var start := out;
    var pending := d.added;
    var progress := true;
    while pending != [] && progress
      invariant GraftLoop(start, d.added) == if progress then GraftLoop(out, pending) else (out, pending)
      decreases |pending|, progress
    {
      ghost var sweep := out;
      progress := false;
      var kept := [];
      for i := 0 to |pending|
        invariant Grafting(out, kept, progress) == GraftPass(sweep, pending[..i])
      {
        assert pending[..i + 1][..i] == pending[..i];
        var add := pending[i];
        if add.node.id !in Ids(out) {
          if CanPlace(out, add) {
            if add.parent.Some? && add.parent.value != "" {
              out := PushChild(out, add.parent.value, add.node);
            } else {
              out := out + [add.node];
            }
            progress := true;
          } else {
            kept := kept + [add];
          }
        }
      }
      assert pending[..|pending|] == pending;
      pending := kept;
    }
  }
}
