/** Cutting subtrees out of a forest: the meaning of a diff's removals, and of what a graft puts back. */
module Prune {
  import opened Ordering
  import opened UiForest
  import opened TreeDiff

  /** `f` without every node named in `cut`, and without what hangs below one. */
  function Cut(f: Forest, cut: set<string>): Forest
  {
    if f == [] then []
    else if f[0].id in cut then Cut(f[1..], cut)
    else [f[0].(children := Cut(f[0].children, cut))] + Cut(f[1..], cut)
  }

  lemma {:induction false} CutKeepsRows(f: Forest, cut: set<string>, p: Option<string>, x: string)
    requires Unique(f)
    ensures Unique(Cut(f, cut)) && Ids(Cut(f, cut)) <= Ids(f) - cut
    ensures x in Ids(Cut(f, cut)) ==> RowAt(Cut(f, cut), p, x) == RowAt(f, p, x)
  {
    if f != [] {
      CutKeepsRows(f[1..], cut, p, x);
      CutKeepsRows(f[0].children, cut, Some(f[0].id), x);
    }
  }

  /** `x` sits at the top of `f`, or its parent belongs to `k`. */
  predicate HangsIn(f: Forest, p: Option<string>, x: string, k: set<string>)
    requires x in Ids(f)
  {
    var parent := RowAt(f, p, x).value.parent;
    parent == p || parent.value in k
  }

  lemma {:induction false} CutIds(f: Forest, cut: set<string>)
    requires f != []
    ensures Ids(Cut(f, cut)) ==
              (if f[0].id in cut then {} else {f[0].id} + Ids(Cut(f[0].children, cut))) + Ids(Cut(f[1..], cut))
  {
    if f[0].id !in cut { assert Cut(f, cut)[1..] == Cut(f[1..], cut); }
  }

  /** A node survives a cut exactly when it is not named and its parent survives. */
  lemma {:induction false} SurvivesIff(f: Forest, cut: set<string>, p: Option<string>, x: string)
    requires Unique(f) && Outside(f, p) && x in Ids(f)
    ensures x in Ids(Cut(f, cut)) <==> x !in cut && HangsIn(f, p, x, Ids(Cut(f, cut)))
  {
    var id, c, t := f[0].id, f[0].children, f[1..];
    CutKeepsRows(t, cut, p, x);
    CutKeepsRows(c, cut, Some(id), x);
    CutIds(f, cut);
    hide Cut;
    if x in Ids(c) {
      SurvivesIff(c, cut, Some(id), x);
      assert x !in Ids(t) && RowAt(f, p, x) == RowAt(c, Some(id), x);
      var parent := RowAt(c, Some(id), x).value.parent;
      assert parent.Some? && parent.value !in Ids(t) && parent != p;
      assert parent == Some(id) || parent.value in Ids(c);
      hide RowAt;
    } else if x in Ids(t) {
      SurvivesIff(t, cut, p, x);
      assert RowAt(f, p, x) == RowAt(t, p, x);
      var parent := RowAt(t, p, x).value.parent;
      assert parent == p || (parent.Some? && parent.value in Ids(t));
      hide RowAt;
    }
  }

  /** Survivors lie in any set that contains every unnamed node whose parent it contains. */
  lemma {:induction false} SurvivorsWithin(f: Forest, cut: set<string>, p: Option<string>, k: set<string>)
    requires Unique(f)
    requires forall x :: x in Ids(f) && x !in cut && HangsIn(f, p, x, k) ==> x in k
    ensures Ids(Cut(f, cut)) <= k
  {
    if f != [] {
      SurvivorsWithin(f[1..], cut, p, k);
      if f[0].id !in cut {
        assert HangsIn(f, p, f[0].id, k);
        SurvivorsWithin(f[0].children, cut, Some(f[0].id), k);
      }
    }
  }

  lemma {:induction false} CutNothing(f: Forest, cut: set<string>)
    requires Ids(f) !! cut
    ensures Cut(f, cut) == f
  {
    if f != [] {
      CutNothing(f[0].children, cut);
      CutNothing(f[1..], cut);
    }
  }

  lemma {:induction false} CutTwice(f: Forest, a: set<string>, b: set<string>)
    ensures Cut(Cut(f, a), b) == Cut(f, a + b)
  {
    if f != [] {
      CutTwice(f[1..], a, b);
      if f[0].id !in a {
        CutTwice(f[0].children, a, b);
        var head := f[0].(children := Cut(f[0].children, a));
        assert Cut(f, a) == [head] + Cut(f[1..], a);
      }
    }
  }

  lemma {:induction false} CutForeign(f: Forest, cut: set<string>, x: string)
    requires x !in Ids(f)
    ensures Cut(f, cut + {x}) == Cut(f, cut)
  {
    if f != [] {
      CutForeign(f[0].children, cut, x);
      CutForeign(f[1..], cut, x);
    }
  }

  // ----- removals

  lemma {:induction false} RemoveAtTop(f: Forest, id: string)
    requires Unique(f)
    ensures Position(f, id).Some? ==>
              Position(f, id).value < |f| && id in Ids(f) && Without(f, Position(f, id).value) == Cut(f, {id})
    ensures Position(f, id).None? ==> forall k :: 0 <= k < |f| ==> f[k].id != id
    decreases f
  {
    if f != [] {
      if f[0].id == id {
        CutNothing(f[1..], {id});
        assert Without(f, 0) == f[1..];
      } else {
        RemoveAtTop(f[1..], id);
        match Position(f[1..], id)
        case None =>
          forall k | 0 <= k < |f| ensures f[k].id != id { if k > 0 { assert f[k] == f[1..][k - 1]; } }
        case Some(k) =>
          CutNothing(f[0].children, {id});
          assert Without(f, k + 1) == [f[0]] + Without(f[1..], k);
      }
    }
  }

  lemma {:induction false} RemoveIsCut(f: Forest, id: string)
    requires Unique(f)
    ensures RemoveId(f, id) == (Cut(f, {id}), id in Ids(f))
    decreases f, 1
  {
    RemoveAtTop(f, id);
    if Position(f, id).None? { RemoveBelowIsCut(f, id); }
  }

  lemma {:induction false} RemoveBelowIsCut(f: Forest, id: string)
    requires Unique(f) && forall k :: 0 <= k < |f| ==> f[k].id != id
    ensures RemoveBelow(f, id) == (Cut(f, {id}), id in Ids(f))
    decreases f, 0
  {
    if f != [] {
      assert f[0].id != id;
      RemoveIsCut(f[0].children, id);
      if id in Ids(f[0].children) {
        CutNothing(f[1..], {id});
      } else {
        CutNothing(f[0].children, {id});
        RemoveBelowIsCut(f[1..], id);
      }
    }
  }

  /** The order of removals does not matter, nor that one may already be gone. */
  lemma {:induction false} RemoveAllIsCut(f: Forest, ids: seq<string>)
    requires Unique(f)
    ensures RemoveAll(f, ids) == Cut(f, set x | x in ids)
  {
    if ids == [] {
      CutNothing(f, {});
      assert (set x | x in ids) == {};
    } else {
      var front, last := ids[..|ids| - 1], ids[|ids| - 1];
      RemoveAllIsCut(f, front);
      CutKeepsRows(f, (set x | x in front), None, last);
      RemoveIsCut(Cut(f, (set x | x in front)), last);
      CutTwice(f, (set x | x in front), {last});
      assert ids == front + [last];
      assert (set x | x in front) + {last} == set x | x in ids;
    }
  }

  // ----- the subtree of one node

  lemma {:induction false} IndexReads(f: Forest, p: Option<string>, x: string)
    requires Unique(f)
    ensures x in IndexOf(f, p) <==> x in Ids(f)
    ensures x in Ids(f) ==>
              var l := IndexOf(f, p)[x];
              l.node.id == x && RowAt(f, p, x) == Some(Row(l.node.attrs, l.parent))
  {
    if f != [] {
      IndexReads(f[0].children, Some(f[0].id), x);
      IndexReads(f[1..], p, x);
    }
  }

  lemma {:induction false} IndexSplit(f: Forest, p: Option<string>, q: string)
    requires Unique(f) && q in Ids(f)
    ensures q in IndexOf(f, p)
    ensures q in Ids(f[1..]) ==> q in IndexOf(f[1..], p) && IndexOf(f, p)[q] == IndexOf(f[1..], p)[q]
    ensures q in Ids(f[0].children) ==>
              && q in IndexOf(f[0].children, Some(f[0].id))
              && IndexOf(f, p)[q] == IndexOf(f[0].children, Some(f[0].id))[q]
    ensures q == f[0].id ==> IndexOf(f, p)[q] == Located(f[0], p)
  {
    IndexReads(f, p, q);
    IndexReads(f[0].children, Some(f[0].id), q);
    IndexReads(f[1..], p, q);
  }

  /** The entry of `q` in the index embeds exactly the nodes below `q`, with their rows. */
  lemma {:induction false} SubtreeReads(f: Forest, p: Option<string>, q: string, y: string)
    requires Unique(f) && q in Ids(f) && q in IndexOf(f, p)
    ensures var l := IndexOf(f, p)[q];
            && Unique([l.node]) && Ids([l.node]) <= Ids(f)
            && (y in Ids([l.node]) ==> RowAt(f, p, y) == RowAt([l.node], l.parent, y))
  {
    IndexSplit(f, p, q);
    if q in Ids(f[1..]) {
      SubtreeReads(f[1..], p, q, y);
    } else if q in Ids(f[0].children) {
      SubtreeReads(f[0].children, Some(f[0].id), q, y);
    } else {
      Singleton(f[0]);
    }
  }

  lemma {:induction false} SetSplit(others: set<string>, all: set<string>, left: set<string>, sub: set<string>)
    requires all == left + sub && left !! sub && others !! sub
    ensures others + all == others + left + sub && others + left !! sub
  {
  }

  /** `q` takes `sub` with it when it is cut from `f`. */
  ghost predicate Takes(f: Forest, cut: set<string>, q: string, sub: set<string>)
  {
    Ids(Cut(f, cut)) == Ids(Cut(f, cut + {q})) + sub && Ids(Cut(f, cut + {q})) !! sub
  }

  lemma {:induction false} TakesFromTail(f: Forest, cut: set<string>, q: string, sub: set<string>)
    requires f != [] && Unique(f) && q in Ids(f[1..]) && sub <= Ids(f[1..]) && Takes(f[1..], cut, q, sub)
    ensures Takes(f, cut, q, sub)
  {
    CutKeepsRows(f[0].children, cut, None, q);
    CutForeign(f[0].children, cut, q);
    CutIds(f, cut);
    CutIds(f, cut + {q});
    var head := if f[0].id in cut then {} else {f[0].id} + Ids(Cut(f[0].children, cut));
    assert head !! Ids(f[1..]) && f[0].id != q;
    assert Ids(Cut(f, cut + {q})) == head + Ids(Cut(f[1..], cut + {q}));
    SetSplit(head, Ids(Cut(f[1..], cut)), Ids(Cut(f[1..], cut + {q})), sub);
    hide Cut, Ids, Unique;
  }

  lemma {:induction false} TakesFromBelow(f: Forest, cut: set<string>, q: string, sub: set<string>)
    requires f != [] && Unique(f) && f[0].id !in cut && q in Ids(f[0].children) && sub <= Ids(f[0].children)
    requires Takes(f[0].children, cut, q, sub)
    ensures Takes(f, cut, q, sub)
  {
    CutKeepsRows(f[1..], cut, None, q);
    CutForeign(f[1..], cut, q);
    CutIds(f, cut);
    CutIds(f, cut + {q});
    var others, below, left := {f[0].id} + Ids(Cut(f[1..], cut)), Ids(Cut(f[0].children, cut)),
        Ids(Cut(f[0].children, cut + {q}));
    assert others !! Ids(f[0].children) && f[0].id != q;
    SetSplit(others, below, left, sub);
    hide Cut, Ids, Unique;
    assert Ids(Cut(f, cut)) == others + below && Ids(Cut(f, cut + {q})) == others + left;
  }

  /** Cutting one more node takes away exactly its subtree. */
  lemma {:induction false} CutOneMore(f: Forest, p: Option<string>, cut: set<string>, q: string)
    requires Unique(f) && q in Ids(Cut(f, cut)) && q in IndexOf(f, p) && Ids([IndexOf(f, p)[q].node]) !! cut
    ensures var sub := Ids([IndexOf(f, p)[q].node]);
            && Ids(Cut(f, cut)) == Ids(Cut(f, cut + {q})) + sub
            && Ids(Cut(f, cut + {q})) !! sub
  {
    CutKeepsRows(f[1..], cut, p, q);
    CutKeepsRows(f[0].children, cut, p, q);
    CutIds(f, cut);
    IndexSplit(f, p, q);
    var sub := Ids([IndexOf(f, p)[q].node]);
    hide IndexOf, RowAt, Cut;
    if q in Ids(f[1..]) {
      SubtreeReads(f[1..], p, q, q);
      CutOneMore(f[1..], p, cut, q);
      TakesFromTail(f, cut, q, sub);
    } else if q in Ids(f[0].children) {
      SubtreeReads(f[0].children, Some(f[0].id), q, q);
      CutOneMore(f[0].children, Some(f[0].id), cut, q);
      TakesFromBelow(f, cut, q, sub);
    } else {
      CutHead(f, cut);
    }
  }

  lemma {:induction false} CutHead(f: Forest, cut: set<string>)
    requires Unique(f) && f != [] && Ids([f[0]]) !! cut
    ensures Ids(Cut(f, cut)) == Ids(Cut(f, cut + {f[0].id})) + Ids([f[0]])
    ensures Ids(Cut(f, cut + {f[0].id})) !! Ids([f[0]])
  {
    Singleton(f[0]);
    CutForeign(f[1..], cut, f[0].id);
    CutNothing(f[0].children, cut);
    CutKeepsRows(f[1..], cut, None, f[0].id);
  }
}
