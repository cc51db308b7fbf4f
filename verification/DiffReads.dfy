/** What a diff between two revisions contains, entry by entry. */
module DiffReads {
  import opened Ordering
  import opened UiForest
  import opened TreeDiff
  import opened Patch

  /** Keys of an index name the nodes they map to. */
  predicate Named(m: NodeIndex)
  {
    forall id :: id in m ==> m[id].node.id == id
  }

  predicate Grafts(before: NodeIndex, after: NodeIndex, id: string)
    requires id in after
  {
    if id !in before then !Embedded(before, after, after[id].parent) else Moved(before, after, id)
  }

  lemma {:induction false} AddedMembers(keys: seq<string>, before: NodeIndex, after: NodeIndex, e: AddedNode)
    requires Named(after) && forall k :: k in keys ==> k in after
    ensures e in CompareOver(keys, before, after).added <==>
            && e.node.id in keys && Grafts(before, after, e.node.id)
            && e == AddedNode(after[e.node.id].node, after[e.node.id].parent)
  {
    if keys != [] {
      var front, last := keys[..|keys| - 1], keys[|keys| - 1];
      assert keys == front + [last];
      assert after[last].node.id == last;
      AddedMembers(front, before, after, e);
      hide ChangedFields;
    }
  }

  lemma {:induction false} MovedMembers(keys: seq<string>, before: NodeIndex, after: NodeIndex, x: string)
    requires forall k :: k in keys ==> k in after
    ensures x in CompareOver(keys, before, after).removed <==> x in keys && Moved(before, after, x)
  {
    if keys != [] {
      var front, last := keys[..|keys| - 1], keys[|keys| - 1];
      assert keys == front + [last];
      MovedMembers(front, before, after, x);
      hide ChangedFields;
    }
  }

  lemma {:induction false} GoneMembers(keys: seq<string>, after: NodeIndex, x: string)
    ensures x in GoneOver(keys, after) <==> x in keys && x !in after
  {
    if keys != [] {
      var front, last := keys[..|keys| - 1], keys[|keys| - 1];
      assert keys == front + [last];
      GoneMembers(front, after, x);
    }
  }

  /** The field edit a diff carries for `id`; empty when it carries none. */
  function EditOf(before: NodeIndex, after: NodeIndex, id: string): map<Field, Json>
    requires id in after
  {
    if id in before && !Moved(before, after, id)
    then ChangedFields(before[id].node.attrs, after[id].node.attrs) else map[]
  }

  lemma {:induction false} NoFieldsNoChange(a: Attrs)
    ensures ApplyFields(a, map[]) == a
  {
  }

  function Edited(r: Option<Row>, fields: map<Field, Json>): Option<Row>
  {
    if r.None? then None else Some(Row(ApplyFields(r.value.attrs, fields), r.value.parent))
  }

  predicate Distinct(keys: seq<string>)
  {
    forall i, j :: 0 <= i < j < |keys| ==> keys[i] != keys[j]
  }

  /** Running all field edits changes each surviving row once, by its own edit. */
  lemma {:induction false} ChangeAllReads(f: Forest, keys: seq<string>, before: NodeIndex, after: NodeIndex, x: string)
    requires Unique(f) && Distinct(keys) && forall k :: k in keys ==> k in after
    ensures var r := ChangeAll(f, CompareOver(keys, before, after).changed);
            && Unique(r) && Ids(r) == Ids(f)
            && Flat(r, x) == if x in keys then Edited(Flat(f, x), EditOf(before, after, x)) else Flat(f, x)
  {
    if keys != [] {
      var front, last := keys[..|keys| - 1], keys[|keys| - 1];
      assert keys == front + [last];
      ChangeAllReads(f, front, before, after, x);
      LastEdit(f, keys, before, after, x);
    }
  }

  lemma {:induction false} LastEdit(f: Forest, keys: seq<string>, before: NodeIndex, after: NodeIndex, x: string)
    requires Unique(f) && keys != [] && Distinct(keys) && forall k :: k in keys ==> k in after
    requires var r := ChangeAll(f, CompareOver(keys[..|keys| - 1], before, after).changed);
             && Unique(r) && Ids(r) == Ids(f)
             && Flat(r, x) ==
                  if x in keys[..|keys| - 1] then Edited(Flat(f, x), EditOf(before, after, x)) else Flat(f, x)
    ensures var r := ChangeAll(f, CompareOver(keys, before, after).changed);
            && Unique(r) && Ids(r) == Ids(f)
            && Flat(r, x) == if x in keys then Edited(Flat(f, x), EditOf(before, after, x)) else Flat(f, x)
  {
    var front, last := keys[..|keys| - 1], keys[|keys| - 1];
    var d, fields := CompareOver(front, before, after), EditOf(before, after, last);
    assert keys == front + [last];
    assert last !in front;
    ChangedGrows(keys, before, after);
    if Flat(f, last).Some? { NoFieldsNoChange(Flat(f, last).value.attrs); }
    assert Edited(Flat(f, last), map[]) == Flat(f, last);
    hide *;
    if fields != map[] { EditOneMore(f, d.changed, last, fields, x); }
  }

  lemma {:induction false} ChangedGrows(keys: seq<string>, before: NodeIndex, after: NodeIndex)
    requires keys != [] && forall k :: k in keys ==> k in after
    ensures var front, last := keys[..|keys| - 1], keys[|keys| - 1];
            CompareOver(keys, before, after).changed ==
              CompareOver(front, before, after).changed +
                if EditOf(before, after, last) == map[] then [] else [ChangedNode(last, EditOf(before, after, last))]
  {
    hide ChangedFields;
  }

  lemma {:induction false} EditOneMore(f: Forest, changes: seq<ChangedNode>, id: string, fields: map<Field, Json>,
                                       x: string)
    requires Unique(ChangeAll(f, changes))
    ensures var r, t := ChangeAll(f, changes), ChangeAll(f, changes + [ChangedNode(id, fields)]);
            && Unique(t) && Ids(t) == Ids(r)
            && Flat(t, x) == if x == id then Edited(Flat(r, x), fields) else Flat(r, x)
  {
    var all := changes + [ChangedNode(id, fields)];
    assert all[..|all| - 1] == changes;
    SetReads(ChangeAll(f, changes), id, fields, (n: Node) => n.(attrs := ApplyFields(n.attrs, fields)), None, x);
    hide ApplyFields;
  }
}
