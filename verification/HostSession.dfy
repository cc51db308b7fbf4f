/** A connection to a live host: calls answered by it, with other actors changing it in between. */
module HostSession {
  import opened Ordering
  import opened UiForest
  import opened PatchTheorem
  import opened SnapshotCache
  import opened ViewSync
  import opened Protocol
  import opened ActionSpace

  /** What the client asks, and what it is answered. */
  datatype Request = Look | Catalog | Dispatch(id: string, op: Op)

  datatype Reply =
    | Seen(nodes: Forest)
    | Listed(bindings: seq<KeybindingInfo>)
    | Accepted
    | Refused(error: string)
    | Failed(error: string)

  /** One copy of a dispatch request that reached the host's side: chosen as `id` on the tree `seen`, checked
      by the gate against the snapshot `checked`, with the host at the tree `before`; whether it was let through
      and ran, whether it is the one whose success the client was told, and whether every host so far had kept
      its contract. */
  datatype Copy = Copy(id: string, op: Op, seen: Forest, checked: Forest, before: Forest, ran: bool,
                       accepted: bool, fair: bool)

  /** What the staleness gate of an operation compares. */
  function GateOf(op: Op): Option<(string, nat)>
  {
    match op
    case Click(x, Some(g)) => Some((x, g))
    case Type(x, _, Some(g)) => Some((x, g))
    case SetValue(x, _, Some(g)) => Some((x, g))
    case Key(x, _, Some(g)) => Some((x, g))
    case _ => None
  }

  predicate OnNode(op: Op) { op.Click? || op.Type? || op.SetValue? || op.Key? }

  /** A node operation is gated by the fingerprint its target has in `nodes`. */
  predicate GatedBy(fp: Fingerprint, op: Op, nodes: Forest)
  {
    OnNode(op) ==>
      GateOf(op).Some? &&
      var (x, g) := GateOf(op).value;
      x in Ids(nodes) && g == fp(x, Flat(nodes, x).value)
  }

  /** The gate lets an operation through. */
  predicate Passes(fp: Fingerprint, op: Op, nodes: Forest)
  {
    match GateOf(op)
    case None => true
    case Some((x, expected)) => x in Ids(nodes) && fp(x, Flat(nodes, x).value) == expected
  }

  /** A copy runs exactly if the gate lets it through; under hosts that keep their contract the gate looks at
      the tree it runs on, and it compares with what was seen when the operation was chosen. */
  predicate Proper(fp: Fingerprint, c: Copy)
  {
    && (c.ran <==> Passes(fp, c.op, c.checked))
    && (c.accepted ==> c.ran)
    && (OnNode(c.op) ==> GateOf(c.op).Some?)
    && (c.fair ==> c.checked == c.before && GatedBy(fp, c.op, c.seen))
  }

  /** Under hosts that keep their contract a node operation only runs on a target that is still there and
      looks as it did when it was chosen. */
  lemma {:induction false} RanAsSeen(fp: Fingerprint, c: Copy) returns (x: string)
    requires Proper(fp, c) && c.ran && c.fair && OnNode(c.op)
    ensures x in Ids(c.before) && x in Ids(c.seen)
    ensures fp(x, Flat(c.before, x).value) == fp(x, Flat(c.seen, x).value)
  {
    x := GateOf(c.op).value.0;
  }

  // ----- what a call did

  /** The copies that ran. */
  function RanIn(cs: seq<Copy>): seq<Copy>
  {
    if cs == [] then []
    else RanIn(cs[..|cs| - 1]) + if cs[|cs| - 1].ran then [cs[|cs| - 1]] else []
  }

  /** The operations that ran and were reported as successes. */
  function AcceptedIn(cs: seq<Copy>): seq<string>
  {
    if cs == [] then []
    else AcceptedIn(cs[..|cs| - 1]) + if cs[|cs| - 1].accepted then [cs[|cs| - 1].id] else []
  }

  /** All that ran, call after call. */
  function AllRan(copies: seq<seq<Copy>>): seq<Copy>
  {
    if copies == [] then [] else AllRan(copies[..|copies| - 1]) + RanIn(copies[|copies| - 1])
  }

  /** What the copies of one request make of its reply: the answers to all but the last are lost, so only the
      last can be the one reported as a success, or the one refused. */
  ghost predicate Carried(fp: Fingerprint, a: Request, r: Reply, cs: seq<Copy>)
  {
    match a
    case Dispatch(id, op) =>
      && (forall i :: 0 <= i < |cs| ==> cs[i].id == id && cs[i].op == op && Proper(fp, cs[i]))
      && (forall i :: 0 <= i < |cs| - 1 ==> !cs[i].accepted)
      && (r.Accepted? <==> cs != [] && cs[|cs| - 1].accepted)
      && (r.Refused? ==> cs != [] && !cs[|cs| - 1].ran)
    case _ => cs == []
  }

  /** No copy is let through but the one whose success the client was told. */
  predicate Once(fp: Fingerprint, r: Reply, cs: seq<Copy>)
  {
    forall i :: 0 <= i < |cs| && Passes(fp, cs[i].op, cs[i].checked) ==> i == |cs| - 1 && r.Accepted?
  }

  /** The last copy, and what it adds. */
  lemma {:induction false} RanLast(cs: seq<Copy>)
    requires cs != []
    ensures var front, last := cs[..|cs| - 1], cs[|cs| - 1];
            && |RanIn(cs)| == |RanIn(front)| + (if last.ran then 1 else 0)
            && AcceptedIn(RanIn(cs)) ==
                 AcceptedIn(RanIn(front)) + (if last.ran && last.accepted then [last.id] else [])
  {
    var front, last := cs[..|cs| - 1], cs[|cs| - 1];
    assert RanIn(front) + [] == RanIn(front);
    AcceptedGrows(RanIn(front), last);
    hide AcceptedIn;
    assert AcceptedIn(RanIn(front)) + [] == AcceptedIn(RanIn(front));
  }

  lemma {:induction false} AcceptedGrows(cs: seq<Copy>, c: Copy)
    ensures AcceptedIn(cs + [c]) == AcceptedIn(cs) + if c.accepted then [c.id] else []
  {
    assert (cs + [c])[..|cs|] == cs;
  }

  lemma {:induction false} AcceptedConcat(a: seq<Copy>, b: seq<Copy>)
    ensures AcceptedIn(a + b) == AcceptedIn(a) + AcceptedIn(b)
    decreases |b|
  {
    if b == [] {
      assert a + b == a;
    } else {
      var n := |b| - 1;
      AcceptedConcat(a, b[..n]);
      assert a + b == (a + b[..n]) + [b[n]];
      AcceptedGrows(a + b[..n], b[n]);
    }
  }

  lemma {:induction false} NoneRanIff(cs: seq<Copy>)
    ensures RanIn(cs) == [] <==> forall i :: 0 <= i < |cs| ==> !cs[i].ran
  {
    if cs != [] {
      var n := |cs| - 1;
      NoneRanIff(cs[..n]);
      assert forall i :: 0 <= i < n ==> cs[i] == cs[..n][i];
    }
  }

  lemma {:induction false} NoneAccepted(cs: seq<Copy>)
    requires forall i :: 0 <= i < |cs| ==> !cs[i].accepted
    ensures AcceptedIn(RanIn(cs)) == []
  {
    if cs != [] {
      var n := |cs| - 1;
      NoneAccepted(cs[..n]);
      RanLast(cs);
    }
  }

  /** A refused operation has not run exactly if none of its earlier copies was let through; with a single
      copy that is so. */
  lemma {:induction false} RefusalIsExact(fp: Fingerprint, id: string, op: Op, r: Reply, cs: seq<Copy>)
    requires Carried(fp, Request.Dispatch(id, op), r, cs) && r.Refused?
    ensures RanIn(cs) == [] <==> forall i :: 0 <= i < |cs| - 1 ==> !Passes(fp, op, cs[i].checked)
    ensures |cs| == 1 ==> RanIn(cs) == []
  {
    NoneRanIff(cs);
    hide Passes, GatedBy, RanIn;
  }

  /** What one call ran and reported. */
  lemma {:induction false} CallRuns(fp: Fingerprint, a: Request, r: Reply, cs: seq<Copy>)
    requires Carried(fp, a, r, cs)
    ensures AcceptedIn(RanIn(cs)) == if a.Dispatch? && r.Accepted? then [a.id] else []
    ensures cs != [] ==> |RanIn(cs)| == |RanIn(cs[..|cs| - 1])| + (if cs[|cs| - 1].ran then 1 else 0)
  {
    hide Passes, GatedBy;
    if cs != [] {
      NoneAccepted(cs[..|cs| - 1]);
      RanLast(cs);
      hide RanIn, AcceptedIn;
    }
  }

  lemma {:induction false} RanIsLetThrough(fp: Fingerprint, a: Request, r: Reply, cs: seq<Copy>)
    requires Carried(fp, a, r, cs)
    ensures forall i :: 0 <= i < |cs| ==> (cs[i].ran <==> Passes(fp, cs[i].op, cs[i].checked))
    ensures cs != [] ==> a.Dispatch? && (r.Accepted? ==> cs[|cs| - 1].ran)
  {
    hide Passes, GatedBy;
  }

  /** No copy ran, but the last of a call reported as a success. */
  predicate OnlyLast(cs: seq<Copy>, reported: bool)
  {
    forall i :: 0 <= i < |cs| && cs[i].ran ==> i == |cs| - 1 && reported
  }

  lemma {:induction false} OnlyLastIffNoneBefore(cs: seq<Copy>, reported: bool)
    requires cs != []
    ensures OnlyLast(cs, reported) <==> RanIn(cs[..|cs| - 1]) == [] && (cs[|cs| - 1].ran ==> reported)
  {
    var front := cs[..|cs| - 1];
    NoneRanIff(front);
    hide RanIn;
    if OnlyLast(cs, reported) {
      forall i | 0 <= i < |front| ensures !front[i].ran { assert front[i] == cs[i]; }
    }
    if RanIn(front) == [] {
      forall i | 0 <= i < |front| ensures !cs[i].ran { assert front[i] == cs[i]; }
    }
  }

  lemma {:induction false} OnceIsOnlyLast(fp: Fingerprint, a: Request, r: Reply, cs: seq<Copy>)
    requires Carried(fp, a, r, cs)
    ensures Once(fp, r, cs) <==> OnlyLast(cs, r.Accepted?)
  {
    RanIsLetThrough(fp, a, r, cs);
    hide Carried, Passes;
  }

  /** What one call ran is just what it reported exactly if nothing else was let through. */
  lemma {:induction false} OnceIff(fp: Fingerprint, a: Request, r: Reply, cs: seq<Copy>)
    requires Carried(fp, a, r, cs)
    ensures |RanIn(cs)| >= |AcceptedIn(RanIn(cs))|
    ensures |RanIn(cs)| == |AcceptedIn(RanIn(cs))| <==> Once(fp, r, cs)
  {
    CallRuns(fp, a, r, cs);
    RanIsLetThrough(fp, a, r, cs);
    OnceIsOnlyLast(fp, a, r, cs);
    if cs != [] { OnlyLastIffNoneBefore(cs, r.Accepted?); }
    hide *;
    if cs == [] { NothingRan(r); }
  }

  lemma {:induction false} NothingRan(r: Reply)
    ensures RanIn([]) == [] && AcceptedIn([]) == [] && OnlyLast([], r.Accepted?)
  {
  }

  /** The dispatches that were answered with a success. */
  function AcceptedOf(asked: seq<Request>, replies: seq<Reply>): seq<string>
    requires |asked| == |replies|
  {
    if asked == [] then []
    else
      var n := |asked| - 1;
      AcceptedOf(asked[..n], replies[..n]) + if asked[n].Dispatch? && replies[n].Accepted? then [asked[n].id] else []
  }

  lemma {:induction false} AnswersGrow(asked: seq<Request>, replies: seq<Reply>, a: Request, r: Reply)
    requires |asked| == |replies|
    ensures AcceptedOf(asked + [a], replies + [r]) ==
              AcceptedOf(asked, replies) + if a.Dispatch? && r.Accepted? then [a.id] else []
  {
    assert (asked + [a])[..|asked|] == asked && (replies + [r])[..|asked|] == replies;
  }

  lemma {:induction false} AnswersConcat(asked: seq<Request>, replies: seq<Reply>, more: seq<Request>, rs: seq<Reply>)
    requires |asked| == |replies| && |more| == |rs|
    ensures AcceptedOf(asked + more, replies + rs) == AcceptedOf(asked, replies) + AcceptedOf(more, rs)
    decreases |more|
  {
    if more == [] {
      assert asked + more == asked && replies + rs == replies;
    } else {
      var n := |more| - 1;
      AnswersConcat(asked, replies, more[..n], rs[..n]);
      assert asked + more == (asked + more[..n]) + [more[n]] && replies + rs == (replies + rs[..n]) + [rs[n]];
      AnswersGrow(asked + more[..n], replies + rs[..n], more[n], rs[n]);
    }
  }

  /** The books: the copies of each request account for its reply. */
  ghost predicate Kept(fp: Fingerprint, asked: seq<Request>, replies: seq<Reply>, copies: seq<seq<Copy>>)
  {
    && |asked| == |replies| == |copies|
    && forall k :: 0 <= k < |asked| ==> Carried(fp, asked[k], replies[k], copies[k])
  }

  /** No call ran anything but what the client was told. */
  predicate EachOnce(fp: Fingerprint, replies: seq<Reply>, copies: seq<seq<Copy>>)
    requires |replies| == |copies|
  {
    forall k :: 0 <= k < |copies| ==> Once(fp, replies[k], copies[k])
  }

  lemma {:induction false} KeptGrows(fp: Fingerprint, asked: seq<Request>, replies: seq<Reply>,
                                     copies: seq<seq<Copy>>, a: Request, r: Reply, cs: seq<Copy>)
    requires Kept(fp, asked, replies, copies) && Carried(fp, a, r, cs)
    ensures Kept(fp, asked + [a], replies + [r], copies + [cs])
  {
    hide Carried;
  }

  /** What the host ran and reported is what the client was told. */
  lemma {:induction false} BooksAgree(fp: Fingerprint, asked: seq<Request>, replies: seq<Reply>,
                                      copies: seq<seq<Copy>>)
    requires Kept(fp, asked, replies, copies)
    ensures AcceptedIn(AllRan(copies)) == AcceptedOf(asked, replies)
  {
    if copies != [] {
      var n := |copies| - 1;
      BooksAgree(fp, asked[..n], replies[..n], copies[..n]);
      CallRuns(fp, asked[n], replies[n], copies[n]);
      hide Carried, RanIn, AcceptedIn;
      AcceptedConcat(AllRan(copies[..n]), RanIn(copies[n]));
    }
  }

  /** The host ran nothing else exactly if no call let through a copy but the one reported. */
  lemma {:induction false} NothingElseRan(fp: Fingerprint, asked: seq<Request>, replies: seq<Reply>,
                                          copies: seq<seq<Copy>>)
    requires Kept(fp, asked, replies, copies)
    ensures |AllRan(copies)| >= |AcceptedOf(asked, replies)|
    ensures |AllRan(copies)| == |AcceptedOf(asked, replies)| <==> EachOnce(fp, replies, copies)
  {
    if copies != [] {
      var n := |copies| - 1;
      NothingElseRan(fp, asked[..n], replies[..n], copies[..n]);
      CallRuns(fp, asked[n], replies[n], copies[n]);
      OnceIff(fp, asked[n], replies[n], copies[n]);
      hide Carried, Once, RanIn, AcceptedIn;
      EachOnceGrows(fp, replies, copies);
      hide EachOnce;
    }
  }

  lemma {:induction false} EachOnceGrows(fp: Fingerprint, replies: seq<Reply>, copies: seq<seq<Copy>>)
    requires |replies| == |copies| > 0
    ensures var n := |copies| - 1;
            EachOnce(fp, replies, copies) <==>
              EachOnce(fp, replies[..n], copies[..n]) && Once(fp, replies[n], copies[n])
  {
    var n := |copies| - 1;
    hide Once;
    assert forall k :: 0 <= k < n ==> copies[..n][k] == copies[k] && replies[..n][k] == replies[k];
  }

  lemma {:induction false} AllRanConcat(a: seq<seq<Copy>>, b: seq<seq<Copy>>)
    ensures AllRan(a + b) == AllRan(a) + AllRan(b)
    decreases |b|
  {
    if b == [] {
      assert a + b == a;
    } else {
      var n := |b| - 1;
      AllRanConcat(a, b[..n]);
      assert (a + b)[..|a + b| - 1] == a + b[..n];
      assert AllRan(a + b) == AllRan(a + b[..n]) + RanIn(b[n]);
      hide RanIn, AllRan;
      Appends(AllRan(a), AllRan(b[..n]), RanIn(b[n]));
    }
  }

  const STALE_TARGET := "stale_target"
  const TARGET_GONE := "target_gone"
  const LOST := "request lost"

  lemma {:induction false} ObserveStaysInStep(fp: Fingerprint, w: ViewSync.World)
    requires Tracks(w) && (w.view.rev.Some? ==> Stamp(w.host).Some?)
    ensures var v := Take(fp, w, Step.Observe);
            && Tracks(v) && v.host == w.host && v.log == w.log
            && SameShape(v.view.nodes, w.host.nodes) && Unique(v.view.nodes)
            && v.view.rev == Or(Stamp(w.host), w.view.rev) && (v.view.rev.Some? ==> Stamp(v.host).Some?)
  {
    StepKeepsTracking(fp, w, Step.Observe);
    ObserveCatchesUp(fp, w);
    hide Tracks, Respond, Absorb;
  }

  class Session {
    const fp: Fingerprint
    const cache: TreeCache
    const view: Runner
    var host: Host
    var calls: nat
    ghost var log: Log
    ghost var fair: bool
    ghost var asked: seq<Request>
    ghost var replies: seq<Reply>
    ghost var copies: seq<seq<Copy>>

    ghost function World(): ViewSync.World
      reads `host, `log, cache, view
    {
      ViewSync.World(host, log, cache.State(), view.State())
    }

    /** While every host has kept its contract, the view tracks it. */
    ghost predicate InStep()
      reads `host, `log, `fair, cache, view
    {
      fair ==> Tracks(World()) && Unique(view.nodes) && (view.rev.Some? ==> Stamp(host).Some?)
    }

    /** The books are kept, and the view is in step with the host. */
    ghost predicate Valid()
      reads this, cache, view
    {
      InStep() && calls == |asked| && Kept(fp, asked, replies, copies)
    }

    constructor (fp: Fingerprint, host: Host)
      ensures Valid() && fresh(cache) && fresh(view) && this.fp == fp && fair == Honest(map[], host)
      ensures asked == [] && replies == [] && copies == [] && view.State() == View([], None)
    {
      this.fp, this.host, calls := fp, host, 0;
      cache := new TreeCache();
      view := new Runner();
      log := if Stamp(host).Some? then map[Stamp(host).value := host.nodes] else map[];
      fair, asked, replies, copies := Honest(map[], host), [], [], [];
      new;
      if fair { StartTracks(host); }
      assert World() == ViewSync.Become(ViewSync.World(host, map[], EMPTY_CACHE, View([], None)), host);
    }

    /** The host becomes any other. It keeps its contract if its ids are unique and not empty, if it gives no
        revision number a second tree, and if it goes on reporting revisions to a client that holds one. */
    method Move(h: Host)
      requires Valid()
      modifies this`host, this`log, this`fair
      ensures Valid() && host == h
      ensures fair == (old(fair) && Honest(old(log), h) && (view.rev.Some? ==> Stamp(h).Some?))
    {
      fair := fair && Honest(log, h) && (view.rev.Some? ==> Stamp(h).Some?);
      if fair { BecomeKeepsTracking(World(), h); }
      ghost var w := World();
      host := h;
      log := if Stamp(h).Some? then log[Stamp(h).value := h.nodes] else log;
      assert World() == ViewSync.Become(w, h);
      hide Tracks, Unique, Kept, Honest;
    }

    method Refresh() returns (tree: Tree)
      requires Valid()
      modifies cache
      ensures Valid() && (fair ==> tree.nodes == host.nodes)
    {
      ghost var w := World();
      if fair {
        SnapshotIsFresh(w.cache, w.log, w.host);
        StepKeepsTracking(fp, w, OtherCall);
      }
      tree := cache.Snapshot(host);
      hide Tracks, Unique, Kept, SnapshotStep, Coherent;
    }

    /** Whatever the application, its other clients and repeated reads do until the next call arrives. */
    method Drift()
      requires Valid()
      modifies this`host, this`log, this`fair, cache
      ensures Valid() && (fair ==> old(fair))
    {
      var n: nat := *;
      while n > 0
        invariant Valid() && (fair ==> old(fair))
        decreases n
      {
        n := n - 1;
        var h: Host, moved: bool, other: bool, reconnected: bool := *, *, *, *;
        if moved { Move(h); }
        if other { var _ := Refresh(); }
        if reconnected {
          if fair { StepKeepsTracking(fp, World(), Reconnect); }
          cache.ring, cache.rebuilds := [], 0;
        }
        hide Tracks, Unique, Kept, Honest;
      }
    }

    /** Enters one call in the books. */
    ghost method Note(a: Request, r: Reply, cs: seq<Copy>)
      requires InStep() && calls == |asked| + 1 && Kept(fp, asked, replies, copies) && Carried(fp, a, r, cs)
      modifies this`asked, this`replies, this`copies
      ensures Valid() && asked == old(asked) + [a] && replies == old(replies) + [r] && copies == old(copies) + [cs]
    {
      KeptGrows(fp, asked, replies, copies, a, r, cs);
      asked, replies, copies := asked + [a], replies + [r], copies + [cs];
      hide Session.InStep, Kept, Carried;
    }

    /** Drops the view, as at the start of a run. */
    method Forget()
      requires Valid()
      modifies view
      ensures Valid() && view.State() == View([], None)
    {
      view.nodes, view.rev := [], None;
      hide Kept;
    }

    /** `snapshot since`: the view catches up with the host, unless the call fails. */
    method Observe() returns (ok: bool)
      requires Valid()
      modifies this`host, this`log, this`fair, this`calls, this`asked, this`replies, this`copies, cache, view
      ensures Valid() && (fair ==> old(fair))
      ensures asked == old(asked) + [Look] && copies == old(copies) + [[]]
      ensures replies == old(replies) + [if ok then Seen(view.nodes) else Failed(LOST)]
      ensures ok && fair ==> SameShape(view.nodes, host.nodes) && view.rev == Or(Stamp(host), old(view.rev))
      ensures !ok ==> view.State() == old(view.State())
    {
      Drift();
      calls := calls + 1;
      ok := *;
      if ok {
        ghost var w := World();
        if fair { ObserveStaysInStep(fp, w); }
        view.ObserveSince(cache, host);
        assert World() == Take(fp, w, Step.Observe);
        hide Tracks, Kept, Respond, Absorb, Take, SameShape, Unique, Stamp, Or;
        Note(Look, Seen(view.nodes), []);
      } else {
        hide Tracks, Kept;
        Note(Look, Failed(LOST), []);
      }
    }

    /** The keybindings on offer. */
    method ListBindings() returns (kbs: Option<seq<KeybindingInfo>>)
      requires Valid()
      modifies this`host, this`log, this`fair, this`calls, this`asked, this`replies, this`copies, cache
      ensures Valid() && asked == old(asked) + [Catalog] && copies == old(copies) + [[]]
      ensures replies == old(replies) + [if kbs.Some? then Listed(kbs.value) else Failed(LOST)]
    {
      Drift();
      calls := calls + 1;
      kbs := *;
      hide Tracks, Kept;
      match kbs
      case Some(bindings) => Note(Catalog, Listed(bindings), []);
      case None => Note(Catalog, Failed(LOST), []);
    }

    /** One dispatch, written again until it is answered or time is up. Each copy meets the host as it then is:
        the gate recomputes the fingerprint on the current snapshot, a refused copy does not run, and one let
        through leaves the host as anything. */
    method Send(id: string, op: Op) returns (r: Reply, ghost sent: seq<Copy>)
      requires Valid() && (fair ==> GatedBy(fp, op, view.nodes)) && (OnNode(op) ==> GateOf(op).Some?)
      modifies this`host, this`log, this`fair, this`calls, this`asked, this`replies, this`copies, cache
      ensures Valid() && (fair ==> old(fair))
      ensures r.Accepted? || r.Refused? || r.Failed?
      ensures asked == old(asked) + [Request.Dispatch(id, op)] && replies == old(replies) + [r]
      ensures copies == old(copies) + [sent] && Carried(fp, Request.Dispatch(id, op), r, sent)
      ensures r.Refused? ==>
                (RanIn(sent) == [] <==> forall i :: 0 <= i < |sent| - 1 ==> !Passes(fp, op, sent[i].checked))
      ensures r.Refused? && |sent| == 1 ==> RanIn(sent) == []
    {
      r, sent := Failed(LOST), [];
      hide Session.InStep, Kept, GatedBy, Passes, Proper, RanIn;
      var answered, tries: nat := false, *;
      while tries > 0 && !answered
        invariant Valid() && (fair ==> old(fair))
        invariant asked == old(asked) && replies == old(replies) && copies == old(copies)
        invariant r.Accepted? || r.Refused? || r.Failed?
        invariant Carried(fp, Request.Dispatch(id, op), r, sent)
        invariant !answered ==> r.Failed?
      {
        tries := tries - 1;
        Drift();
        var connected: bool := *;
        if connected {
          var answer;
          ghost var c;
          answer, c := Deliver(id, op);
          sent := sent + [c];
          match answer
          case Some(reply) => r, answered := reply, true;
          case None =>
        }
      }
      calls := calls + 1;
      if r.Refused? { RefusalIsExact(fp, id, op, r, sent); }
      Note(Request.Dispatch(id, op), r, sent);
    }

    /** One copy at the host's side; its answer may get lost. */
    method Deliver(id: string, op: Op) returns (answer: Option<Reply>, ghost c: Copy)
      requires Valid() && (fair ==> GatedBy(fp, op, view.nodes)) && (OnNode(op) ==> GateOf(op).Some?)
      modifies this`host, this`log, this`fair, cache
      ensures Valid() && (fair ==> old(fair)) && Told(id, op, answer, c)
    {
      hide Session.InStep, Kept, GatedBy;
      match GateOf(op)
      case None => answer, c := Reach(id, op, host.nodes);
      case Some((x, expected)) =>
        var tree := Refresh();
        if x in Ids(tree.nodes) && fp(x, Flat(tree.nodes, x).value) == expected {
          answer, c := Reach(id, op, tree.nodes);
        } else {
          var lost: bool := *;
          var why := if x in Ids(tree.nodes) then STALE_TARGET else TARGET_GONE;
          answer := if lost then None else Some(Refused(why));
          c := Copy(id, op, view.nodes, tree.nodes, host.nodes, false, false, fair);
        }
    }

    /** A copy of this operation, and the answer to it. */
    ghost predicate Told(id: string, op: Op, answer: Option<Reply>, c: Copy)
    {
      && c.id == id && c.op == op && Proper(fp, c)
      && (c.accepted <==> answer == Some(Accepted))
      && (answer.Some? ==> answer.value.Accepted? || answer.value.Refused? || answer.value.Failed?)
      && (answer.Some? && answer.value.Refused? ==> !c.ran)
    }

    /** The host's own dispatch; it may report a failure. */
    method Reach(id: string, op: Op, ghost checked: Forest) returns (answer: Option<Reply>, ghost c: Copy)
      requires Valid() && Passes(fp, op, checked) && (OnNode(op) ==> GateOf(op).Some?)
      requires fair ==> checked == host.nodes && GatedBy(fp, op, view.nodes)
      modifies this`host, this`log, this`fair
      ensures Valid() && (fair ==> old(fair)) && Told(id, op, answer, c)
      ensures c.ran && c.before == old(host.nodes)
    {
      var error: string, ok: bool, lost: bool, after: Host := *, *, *, *;
      answer := if lost then None else if ok then Some(Accepted) else Some(Failed(error));
      c := Copy(id, op, view.nodes, checked, host.nodes, true, answer == Some(Accepted), fair);
      assert Told(id, op, answer, c);
      hide *;
      Move(after);
    }
  }
}
