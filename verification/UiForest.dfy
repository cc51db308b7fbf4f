/** UI nodes, the forests a host publishes, and their flat (id -> row) reading. */
module UiForest {
  import opened Ordering

  datatype Bounds = Bounds(x: real, y: real, w: real, h: real)

  /** Everything a node carries besides its id and its children. */
  datatype Attrs = Attrs(
    role: string,
    name: string,
    value: Option<string>,
    checked: Option<bool>,
    enabled: bool,
    focused: bool,
    visible: bool,
    bounds: Bounds,
    states: seq<string>)

  datatype Node = Node(id: string, attrs: Attrs, children: seq<Node>)

  type Forest = seq<Node>

  /** What the id of a node determines: its scalar attributes and where it hangs. */
  datatype Row = Row(attrs: Attrs, parent: Option<string>)

  /** The content fingerprint of a node under its parent. */
  type Fingerprint = (string, Row) -> nat

  function Ids(f: Forest): set<string>
  {
    if f == [] then {} else {f[0].id} + Ids(f[0].children) + Ids(f[1..])
  }

  /** Host contract: no id occurs twice. */
  predicate Unique(f: Forest)
  {
    f == [] ||
    (&& f[0].id !in Ids(f[0].children)
     && f[0].id !in Ids(f[1..])
     && Ids(f[0].children) !! Ids(f[1..])
     && Unique(f[0].children)
     && Unique(f[1..]))
  }

  /** The row of the first node called `id`, in the order the client searches; `parent` is
      where `f` itself hangs. A row's parent is that slot or a node of `f`. */
  function RowAt(f: Forest, parent: Option<string>, id: string): (r: Option<Row>)
    ensures r.Some? <==> id in Ids(f)
    ensures r.Some? && r.value.parent != parent ==> r.value.parent.Some? && r.value.parent.value in Ids(f)
  {
    if f == [] then None
    else if f[0].id == id then Some(Row(f[0].attrs, parent))
    else
      var below := RowAt(f[0].children, Some(f[0].id), id);
      if below.Some? then below else RowAt(f[1..], parent, id)
  }

  /** The flat reading of a whole tree. */
  function Flat(f: Forest, id: string): (r: Option<Row>)
    ensures r.Some? <==> id in Ids(f)
  {
    RowAt(f, None, id)
  }

  /** Equality up to the order of siblings, at every level. */
  ghost predicate SameUpToOrder(f: Forest, g: Forest)
    decreases f
  {
    |f| == |g| &&
    (f == [] ||
     exists k :: 0 <= k < |g| && Matches(f, g, k))
  }

  ghost predicate Matches(f: Forest, g: Forest, k: nat)
    requires f != [] && k < |g|
    decreases f, 0
  {
    && f[0].id == g[k].id
    && f[0].attrs == g[k].attrs
    && SameUpToOrder(f[0].children, g[k].children)
    && SameUpToOrder(f[1..], Without(g, k))
  }

  /** A parent slot that cannot be confused with a node of `f`. */
  predicate Outside(f: Forest, parent: Option<string>)
  {
    parent.Some? ==> parent.value !in Ids(f)
  }

  function Without(g: Forest, k: nat): Forest
    requires k < |g|
  {
    g[..k] + g[k + 1..]
  }

  // ----- concatenation

  lemma {:induction false} Concat(f: Forest, g: Forest)
    ensures Ids(f + g) == Ids(f) + Ids(g)
    ensures Unique(f + g) <==> Unique(f) && Unique(g) && Ids(f) !! Ids(g)
  {
    if f == [] {
      assert f + g == g;
    } else {
      assert (f + g)[0] == f[0] && (f + g)[1..] == f[1..] + g;
      Concat(f[1..], g);
    }
  }

  lemma {:induction false} ConcatRow(f: Forest, g: Forest, p: Option<string>, x: string)
    ensures RowAt(f + g, p, x) == if x in Ids(f) then RowAt(f, p, x) else RowAt(g, p, x)
  {
    if f == [] {
      assert f + g == g;
    } else {
      assert (f + g)[0] == f[0] && (f + g)[1..] == f[1..] + g;
      ConcatRow(f[1..], g, p, x);
    }
  }

  lemma {:induction false} Singleton(n: Node)
    ensures Ids([n]) == {n.id} + Ids(n.children)
    ensures Unique([n]) <==> n.id !in Ids(n.children) && Unique(n.children)
  {
    assert [n][1..] == [];
  }

  /** Taking out one top-level node, wherever it stands. */
  lemma {:induction false} Extract(g: Forest, k: nat)
    requires k < |g| && Unique(g)
    ensures Ids(g) == Ids([g[k]]) + Ids(Without(g, k))
    ensures Ids([g[k]]) !! Ids(Without(g, k))
    ensures Unique([g[k]]) && Unique(Without(g, k))
  {
    var a, b, c := g[..k], [g[k]], g[k + 1..];
    assert g == a + (b + c) && Without(g, k) == a + c;
    hide *;
    Concat(a, b + c);
    Concat(b, c);
    Concat(a, c);
  }

  lemma {:induction false} ExtractRow(g: Forest, k: nat, p: Option<string>, x: string)
    requires k < |g| && Unique(g)
    ensures RowAt(g, p, x) == if x in Ids([g[k]]) then RowAt([g[k]], p, x) else RowAt(Without(g, k), p, x)
  {
    var a, b, c := g[..k], [g[k]], g[k + 1..];
    assert g == a + (b + c) && Without(g, k) == a + c;
    hide *;
    ConcatRow(a, b + c, p, x);
    ConcatRow(b, c, p, x);
    ConcatRow(a, c, p, x);
    Concat(a, b + c);
    Concat(b, c);
  }

  lemma {:induction false} TopLevel(f: Forest, p: Option<string>, x: string) returns (k: nat)
    requires Unique(f) && Outside(f, p) && x in Ids(f) && RowAt(f, p, x).value.parent == p
    ensures k < |f| && f[k].id == x
  {
    if f[0].id == x {
      k := 0;
    } else {
      k := TopLevel(f[1..], p, x);
      k := k + 1;
    }
  }

  // ----- SameUpToOrder is equality of the flat readings

  lemma {:induction false} SameImpliesRows(f: Forest, g: Forest, p: Option<string>, x: string)
    requires SameUpToOrder(f, g) && Unique(g)
    ensures Ids(f) == Ids(g) && Unique(f) && RowAt(f, p, x) == RowAt(g, p, x)
    decreases f
  {
    if f != [] {
      var k :| 0 <= k < |g| && Matches(f, g, k);
      Extract(g, k);
      ExtractRow(g, k, p, x);
      Singleton(g[k]);
      SameImpliesRows(f[0].children, g[k].children, Some(f[0].id), x);
      SameImpliesRows(f[1..], Without(g, k), p, x);
    }
  }

  /** A node whose parent lies in the subtree of `g[k]` lies strictly below `g[k]`. */
  lemma {:induction false} ChildIsBelow(g: Forest, p: Option<string>, k: nat, x: string)
    requires Unique(g) && Outside(g, p) && k < |g| && x in Ids(g)
    requires RowAt(g, p, x).value.parent.Some? && RowAt(g, p, x).value.parent.value in Ids([g[k]])
    ensures x in Ids(g[k].children)
  {
    Extract(g, k);
    ExtractRow(g, k, p, x);
    Singleton(g[k]);
  }

  lemma {:induction false} SubtreeIsBelow(c: Forest, q: string, g: Forest, p: Option<string>, k: nat)
    requires Unique(c) && Unique(g) && Outside(g, p) && k < |g| && q in Ids([g[k]])
    requires forall x :: x in Ids(c) ==> RowAt(g, p, x) == RowAt(c, Some(q), x)
    ensures Ids(c) <= Ids(g[k].children)
  {
    if c != [] {
      assert c[0].id in Ids(c);
      ChildIsBelow(g, p, k, c[0].id);
      Singleton(g[k]);
      SubtreeIsBelow(c[0].children, c[0].id, g, p, k);
      SubtreeIsBelow(c[1..], q, g, p, k);
    }
  }

  /** Equal readings, read at the head of `f` and at its counterpart in `g`. */
  lemma {:induction false} SplitReadings(f: Forest, g: Forest, p: Option<string>, k: nat)
    requires Unique(f) && Unique(g) && f != [] && k < |g| && g[k].id == f[0].id
    requires Outside(f, p) && Outside(g, p)
    requires forall x :: RowAt(f, p, x) == RowAt(g, p, x)
    ensures f[0].attrs == g[k].attrs
    ensures forall x :: RowAt(f[0].children, Some(f[0].id), x) == RowAt(g[k].children, Some(f[0].id), x)
    ensures forall x :: RowAt(f[1..], p, x) == RowAt(Without(g, k), p, x)
  {
    assert f[0] == [f[0]][0] && f == [f[0]] + f[1..];
    var h := f[0].id;
    Singleton(g[k]);
    Extract(g, k);
    ExtractRow(g, k, p, h);
    forall x | x in Ids(f[0].children) ensures RowAt(g, p, x) == RowAt(f[0].children, Some(h), x) {}
    SubtreeIsBelow(f[0].children, h, g, p, k);
    forall x | x in Ids(g[k].children) ensures RowAt(f, p, x) == RowAt(g[k].children, Some(h), x) {
      ExtractRow(g, k, p, x);
    }
    Singleton(f[0]);
    SubtreeIsBelow(g[k].children, h, f, p, 0);
    forall x ensures RowAt(f[0].children, Some(h), x) == RowAt(g[k].children, Some(h), x)
                     && RowAt(f[1..], p, x) == RowAt(Without(g, k), p, x)
    {
      ExtractRow(g, k, p, x);
    }
  }

  lemma {:induction false} RowsImplySame(f: Forest, g: Forest, p: Option<string>)
    requires Unique(f) && Unique(g) && Outside(f, p) && Outside(g, p)
    requires forall x :: RowAt(f, p, x) == RowAt(g, p, x)
    ensures SameUpToOrder(f, g)
    decreases f
  {
    if f == [] {
      assert g == [] || RowAt(g, p, g[0].id).Some?;
      assert forall x :: RowAt(f, p, x) == None;
    } else {
      var h := f[0].id;
      assert RowAt(g, p, h) == RowAt(f, p, h);
      var k := TopLevel(g, p, h);
      SplitReadings(f, g, p, k);
      Extract(g, k);
      Singleton(g[k]);
      RowsImplySame(f[0].children, g[k].children, Some(h));
      RowsImplySame(f[1..], Without(g, k), p);
      assert Matches(f, g, k);
    }
  }

  /** With unique ids, equality up to sibling order is equality of the flat readings. */
  lemma {:induction false} SameIffFlat(f: Forest, g: Forest)
    requires Unique(f) && Unique(g)
    ensures SameUpToOrder(f, g) <==> forall x :: Flat(f, x) == Flat(g, x)
  {
    if SameUpToOrder(f, g) {
      forall x ensures Flat(f, x) == Flat(g, x) { SameImpliesRows(f, g, None, x); }
    }
    if forall x :: Flat(f, x) == Flat(g, x) {
      forall x ensures RowAt(f, None, x) == RowAt(g, None, x) { assert Flat(f, x) == Flat(g, x); }
      RowsImplySame(f, g, None);
    }
  }
}
