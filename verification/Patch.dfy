/** What the edits of a patch do to rows, and which nodes are kept, displaced or topmost among the displaced. */
module Patch {
  import opened Ordering
  import opened UiForest
  import opened TreeDiff
  import opened Prune

  // ----- edits through `find_mut`

  lemma {:induction false} PushAtHead(f: Forest, child: Node, p: Option<string>, x: string)
    requires f != [] && Unique(f) && Unique([child]) && Ids([child]) !! Ids(f)
    ensures var r := [f[0].(children := f[0].children + [child])] + f[1..];
            && Unique(r) && Ids(r) == Ids(f) + Ids([child])
            && RowAt(r, p, x) == if x in Ids(f) then RowAt(f, p, x) else RowAt([child], Some(f[0].id), x)
  {
    Concat(f[0].children, [child]);
    ConcatRow(f[0].children, [child], Some(f[0].id), x);
    var children := f[0].children + [child];
    var r := [f[0].(children := children)] + f[1..];
    assert r[0].children == children && r[1..] == f[1..];
    assert f[0].id !in Ids([child]);
  }

  ghost predicate PushesChild(edit: Node -> Node, child: Node)
  {
    forall n :: edit(n) == n.(children := n.children + [child])
  }

  lemma {:induction false} PushIds(f: Forest, id: string, child: Node, edit: Node -> Node)
    requires Unique(f) && id in Ids(f) && Unique([child]) && Ids([child]) !! Ids(f) && PushesChild(edit, child)
    ensures Unique(EditFirst(f, id, edit)) && Ids(EditFirst(f, id, edit)) == Ids(f) + Ids([child])
  {
    if f[0].id == id {
      PushAtHead(f, child, None, id);
    } else if id in Ids(f[0].children) {
      PushIds(f[0].children, id, child, edit);
    } else {
      PushIds(f[1..], id, child, edit);
    }
  }

  lemma {:induction false} RowCons(n: Node, f: Forest, p: Option<string>, x: string)
    ensures Ids([n] + f) == {n.id} + Ids(n.children) + Ids(f)
    ensures RowAt([n] + f, p, x) == if x == n.id then Some(Row(n.attrs, p))
                                    else if x in Ids(n.children) then RowAt(n.children, Some(n.id), x)
                                    else RowAt(f, p, x)
  {
    assert ([n] + f)[1..] == f;
  }

  lemma {:induction false} PushReads(f: Forest, id: string, child: Node, edit: Node -> Node, p: Option<string>,
                                     x: string)
    requires Unique(f) && id in Ids(f) && Unique([child]) && Ids([child]) !! Ids(f) && PushesChild(edit, child)
    ensures RowAt(EditFirst(f, id, edit), p, x) == if x in Ids(f) then RowAt(f, p, x) else RowAt([child], Some(id), x)
  {
    var head, tail, r := f[0], f[1..], EditFirst(f, id, edit);
    assert f == [head] + tail;
    if head.id == id {
      PushAtHead(f, child, p, x);
      hide *;
    } else if id in Ids(head.children) {
      var children := EditFirst(head.children, id, edit);
      assert r == [head.(children := children)] + tail;
      PushIds(head.children, id, child, edit);
      PushReads(head.children, id, child, edit, Some(head.id), x);
      hide *;
      RowCons(head, tail, p, x);
      RowCons(head.(children := children), tail, p, x);
    } else {
      assert r == [head] + EditFirst(tail, id, edit);
      PushReads(tail, id, child, edit, p, x);
      hide *;
      RowCons(head, tail, p, x);
      RowCons(head, EditFirst(tail, id, edit), p, x);
    }
  }

  lemma {:induction false} SetReads(f: Forest, id: string, fields: map<Field, Json>, edit: Node -> Node,
                                    p: Option<string>, x: string)
    requires Unique(f)
    requires forall n :: edit(n) == n.(attrs := ApplyFields(n.attrs, fields))
    ensures var r := EditFirst(f, id, edit);
            && Unique(r) && Ids(r) == Ids(f)
            && RowAt(r, p, x) == if x == id && x in Ids(f)
                                 then Some(Row(ApplyFields(RowAt(f, p, x).value.attrs, fields),
                                     RowAt(f, p, x).value.parent))
                                 else RowAt(f, p, x)
  {
    hide ApplyFields;
    if f != [] {
      var head, tail, r := f[0], f[1..], EditFirst(f, id, edit);
      assert f == [head] + tail;
      RowCons(head, tail, p, x);
      if head.id == id {
        RowCons(edit(head), tail, p, x);
      } else if id in Ids(head.children) {
        SetReads(head.children, id, fields, edit, Some(head.id), x);
        var children := EditFirst(head.children, id, edit);
        assert r == [head.(children := children)] + tail;
        hide EditFirst;
        RowCons(head.(children := children), tail, p, x);
        hide RowAt, Ids;
      } else {
        SetReads(tail, id, fields, edit, p, x);
        assert r == [head] + EditFirst(tail, id, edit);
        hide EditFirst;
        RowCons(head, EditFirst(tail, id, edit), p, x);
        hide RowAt, Ids;
      }
    }
  }

  // ----- which nodes stay put

  /** Where `x` hangs: `None` if it is absent, `Some(None)` at top level. */
  function ParentOf(f: Forest, x: string): Option<Option<string>>
  {
    if Flat(f, x).Some? then Some(Flat(f, x).value.parent) else None
  }

  /** Nodes of `f` that `g` lacks or hangs elsewhere. */
  function Displaced(f: Forest, g: Forest): set<string>
  {
    set x | x in Ids(f) && ParentOf(f, x) != ParentOf(g, x)
  }

  /** Nodes outside every removed or re-grafted subtree. */
  function Kept(f: Forest, g: Forest): set<string>
  {
    Ids(Cut(f, Displaced(f, g)))
  }

  lemma {:induction false} KeptOneWay(f: Forest, g: Forest)
    requires Unique(f) && Unique(g)
    ensures Kept(f, g) <= Kept(g, f)
  {
    var k := Kept(g, f);
    forall x | x in Ids(f) && x !in Displaced(f, g) && HangsIn(f, None, x, k) ensures x in k {
      SurvivesIff(g, Displaced(g, f), None, x);
    }
    SurvivorsWithin(f, Displaced(f, g), None, k);
  }

  lemma {:induction false} KeptIsSymmetric(f: Forest, g: Forest)
    requires Unique(f) && Unique(g)
    ensures Kept(f, g) == Kept(g, f)
  {
    KeptOneWay(f, g);
    KeptOneWay(g, f);
  }

  lemma {:induction false} CutLessKeepsMore(f: Forest, a: set<string>, b: set<string>)
    requires Unique(f) && a <= b
    ensures Ids(Cut(f, b)) <= Ids(Cut(f, a))
  {
    var k := Ids(Cut(f, a));
    forall x | x in Ids(f) && x !in b && HangsIn(f, None, x, k) ensures x in k {
      SurvivesIff(f, a, None, x);
    }
    SurvivorsWithin(f, b, None, k);
  }

  /** The topmost nodes of `next` that a diff from `prior` must graft. */
  function Tops(prior: Forest, next: Forest): set<string>
  {
    set x | x in Displaced(next, prior) && x in Ids(next) && HangsIn(next, None, x, Kept(prior, next))
  }

  /** Cutting only the topmost displaced nodes leaves exactly the kept ones. */
  lemma {:induction false} TopsCoverDisplaced(prior: Forest, next: Forest)
    requires Unique(prior) && Unique(next)
    ensures Ids(Cut(next, Tops(prior, next))) == Kept(prior, next)
  {
    var tops, displaced, kept := Tops(prior, next), Displaced(next, prior), Kept(prior, next);
    KeptIsSymmetric(prior, next);
    CutLessKeepsMore(next, tops, displaced);
    forall x | x in Ids(next) && x !in tops && HangsIn(next, None, x, kept) ensures x in kept {
      SurvivesIff(next, displaced, None, x);
    }
    SurvivorsWithin(next, tops, None, kept);
  }

  /** The subtree of a topmost displaced node holds no kept node and no other topmost one. */
  lemma {:induction false} TopSubtree(prior: Forest, next: Forest, q: string)
    requires Unique(prior) && Unique(next) && q in Tops(prior, next) && q in IndexOf(next, None)
    ensures var sub := Ids([IndexOf(next, None)[q].node]);
            q in sub && sub !! Kept(prior, next) && sub !! Tops(prior, next) - {q}
  {
    var l, tops := IndexOf(next, None)[q], Tops(prior, next);
    var sub := Ids([l.node]);
    IndexReads(next, None, q);
    Singleton(l.node);
    CutNothing(next, {});
    hide IndexOf, Cut, Unique, Displaced, Kept;
    CutOneMore(next, None, {}, q);
    assert {} + {q} == {q};
    TopsCoverDisplaced(prior, next);
    assert q in tops;
    CutLessKeepsMore(next, {q}, tops);
    assert sub !! Kept(prior, next);
    forall z | z in sub && z in tops ensures z == q { TopsDoNotNest(prior, next, q, z); }
    hide *;
  }

  /** A topmost displaced node is not below another. */
  lemma {:induction false} TopsDoNotNest(prior: Forest, next: Forest, q: string, z: string)
    requires Unique(prior) && Unique(next) && q in Tops(prior, next) && z in Tops(prior, next)
              && q in IndexOf(next, None)
    requires z in Ids([IndexOf(next, None)[q].node]) && Ids([IndexOf(next, None)[q].node]) !! Kept(prior, next)
    ensures z == q
  {
    var l := IndexOf(next, None)[q];
    IndexReads(next, None, q);
    SubtreeReads(next, None, q, z);
    Singleton(l.node);
    hide IndexOf, Unique, Displaced, Kept;
    assert HangsIn(next, None, z, Kept(prior, next));
  }
}
