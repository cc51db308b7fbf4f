/** The order in which the repository's ordered maps and sorts visit string keys. */
module Ordering {

  datatype Option<+T> = None | Some(value: T)

  datatype Result<+T> = Ok(value: T) | Err(error: string)

  /** Lexicographic order by code point, which is the byte order of the UTF-8 encodings. */
  predicate Less(a: string, b: string)
  {
    |b| > 0 && (|a| == 0 || a[0] < b[0] || (a[0] == b[0] && Less(a[1..], b[1..])))
  }

  predicate Ascending(s: seq<string>)
  {
    forall i, j :: 0 <= i < j < |s| ==> Less(s[i], s[j])
  }

  lemma {:induction false} LessIsStrict(a: string)
    ensures !Less(a, a)
  {
    if |a| > 0 { LessIsStrict(a[1..]); }
  }

  lemma {:induction false} LessIsTransitive(a: string, b: string, c: string)
    requires Less(a, b) && Less(b, c)
    ensures Less(a, c)
  {
    if |a| > 0 && a[0] == b[0] && b[0] == c[0] { LessIsTransitive(a[1..], b[1..], c[1..]); }
  }

  lemma {:induction false} LessIsTotal(a: string, b: string)
    ensures a == b || Less(a, b) || Less(b, a)
  {
    if |a| > 0 && |b| > 0 && a[0] == b[0] {
      LessIsTotal(a[1..], b[1..]);
      if a[1..] == b[1..] {
        assert a == [a[0]] + a[1..] && b == [b[0]] + b[1..];
      }
    }
  }

  ghost predicate IsLeast(m: string, s: set<string>)
  {
    m in s && forall x :: x in s && x != m ==> Less(m, x)
  }

  lemma {:induction false} LeastExists(s: set<string>)
    requires s != {}
    ensures exists m :: IsLeast(m, s)
    decreases |s|
  {
    var x :| x in s;
    var rest := s - {x};
    if rest == {} {
      assert s == {x};
      assert IsLeast(x, s);
    } else {
      LeastExists(rest);
      var m :| IsLeast(m, rest);
      LessIsTotal(x, m);
      if Less(m, x) {
        assert IsLeast(m, s);
      } else {
        forall y | y in s && y != x ensures Less(x, y) {
          if y != m { LessIsTransitive(x, m, y); }
        }
        assert IsLeast(x, s);
      }
    }
  }

  lemma {:induction false} LeastIsUnique(a: string, b: string, s: set<string>)
    requires IsLeast(a, s) && IsLeast(b, s)
    ensures a == b
  {
    if a != b {
      LessIsTransitive(a, b, a);
      LessIsStrict(a);
    }
  }

  /** The keys of an ordered map over `s`, in iteration order. */
  ghost function SortedKeys(s: set<string>): (r: seq<string>)
    decreases |s|
  {
    if s == {} then []
    else
      LeastExists(s);
      var m :| IsLeast(m, s);
      [m] + SortedKeys(s - {m})
  }

  lemma {:induction false} SortedKeysListing(s: set<string>)
    ensures |SortedKeys(s)| == |s|
    ensures forall x :: x in SortedKeys(s) <==> x in s
    ensures Ascending(SortedKeys(s))
    decreases |s|
  {
    if s != {} {
      LeastExists(s);
      var m :| IsLeast(m, s);
      SortedTail(s, m);
      var rest := SortedKeys(s - {m});
      SortedKeysListing(s - {m});
      forall i, j | 0 <= i < j < |[m] + rest| ensures Less(([m] + rest)[i], ([m] + rest)[j]) {
        assert rest[j - 1] in rest;
      }
    }
  }

  /** An ascending listing of a set is the only one. */
  lemma {:induction false} AscendingIsCanonical(r: seq<string>, s: set<string>)
    requires Ascending(r) && forall x :: x in r <==> x in s
    ensures r == SortedKeys(s)
    decreases |s|
  {
    assert r == [] || r[0] in r;
    if s != {} {
      var m := r[0];
      forall x | x in s && x != m ensures Less(m, x) {
        assert x in r;
        var j :| 0 <= j < |r| && r[j] == x;
      }
      SortedTail(s, m);
      forall x ensures x in r[1..] <==> x in s - {m} {
        TailMembers(r, x);
      }
      AscendingIsCanonical(r[1..], s - {m});
      assert r == [m] + r[1..];
    }
  }

  lemma {:induction false} TailMembers(r: seq<string>, x: string)
    requires r != [] && Ascending(r)
    ensures x in r[1..] <==> x in r && x != r[0]
  {
    LessIsStrict(r[0]);
    if x in r[1..] {
      var j :| 0 <= j < |r[1..]| && r[1..][j] == x;
      assert Less(r[0], r[j + 1]);
    }
    if x in r && x != r[0] {
      var j :| 0 <= j < |r| && r[j] == x;
      assert r[1..][j - 1] == x;
    }
  }

  lemma {:induction false} SortedTail(s: set<string>, m: string)
    requires s != {} && IsLeast(m, s)
    ensures SortedKeys(s) == [m] + SortedKeys(s - {m})
  {
    LeastExists(s);
    var n :| IsLeast(n, s) && SortedKeys(s) == [n] + SortedKeys(s - {n});
    LeastIsUnique(m, n, s);
  }

  method LeastOf(s: set<string>) returns (least: string)
    requires s != {}
    ensures IsLeast(least, s)
  {
    least :| least in s;
    var unseen := s - {least};
    while unseen != {}
      invariant least in s - unseen && unseen <= s
      invariant IsLeast(least, s - unseen)
      decreases |unseen|
    {
      var x :| x in unseen;
      LessIsTotal(x, least);
      if Less(x, least) {
        forall y | y in s - unseen && y != x ensures Less(x, y) {
          if y != least { LessIsTransitive(x, least, y); }
        }
        least := x;
      }
      unseen := unseen - {x};
    }
    assert s - unseen == s;
  }

  /** Iterates an ordered map's keys: repeatedly takes the least remaining one. */
  method SortKeys(s: set<string>) returns (r: seq<string>)
    ensures r == SortedKeys(s)
  {
    r := [];
    var rest := s;
    while rest != {}
      invariant rest <= s
      invariant SortedKeys(s) == r + SortedKeys(rest)
      decreases |rest|
    {
      var least := LeastOf(rest);
      SortedTail(rest, least);
      r, rest := r + [least], rest - {least};
    }
  }

  lemma {:induction false} Appends<T>(a: seq<T>, b: seq<T>, c: seq<T>)
    ensures (a + b) + c == a + (b + c)
  {
  }
}
