/** The goal runner's loop, against any host, any policy and any resolver. */
module GoalRun {
  import opened Ordering
  import opened UiForest
  import opened TreeDiff
  import opened DiffFacts
  import opened Protocol
  import opened ActionSpace
  import opened Policy
  import opened Escalate
  import opened Dispatch
  import opened HostSession
  import opened GoalPlay

  /** Whatever the decision says, an operation built from an offered action is gated by what was seen. */
  lemma {:induction false} OpIsGated(f: Forest, kbs: seq<KeybindingInfo>, fp: Fingerprint, space: Space, d: Decision,
                                     payload: Option<string>, args: string -> Result<Value>)
    requires Menu(f, kbs, fp, space) && d.actionId in space
    ensures var r := OpFor(d, space[d.actionId], payload, kbs, args);
            r.Ok? ==> (OnNode(r.value) ==> GateOf(r.value).Some?) && (Unique(f) ==> GatedBy(fp, r.value, f))
  {
    assert WellFormed(f, kbs, fp, space[d.actionId]);
    hide Menu, NodeActionId, KindName, Flat, KeyOf, BindingOf, Unique;
  }

  /** The books of a session. */
  datatype Books = Books(asked: seq<Request>, replies: seq<Reply>, copies: seq<seq<Copy>>)

  ghost function BooksOf(s: Session): Books
    reads s
  {
    Books(s.asked, s.replies, s.copies)
  }

  /** The books `b`, grown by these requests and replies, and by what they delivered. */
  ghost predicate Grown(s: Session, b: Books, asked: seq<Request>, rs: seq<Reply>)
    reads s
  {
    && |asked| == |rs|
    && s.asked == b.asked + asked && s.replies == b.replies + rs && b.copies <= s.copies
  }

  /** The session moved by the round `t`: it holds the round's tree, and its books have what the round asked
      and the replies `rs` it got. */
  ghost predicate Took(s: Session, t: Round, q: Progress, v: Verdict, b: Books, rs: seq<Reply>)
    reads s, s.view
  {
    t.q == q && t.v == v && t.nodes == s.view.nodes && Grown(s, b, t.asked, rs)
  }

  method Pause(s: Session, caps: Caps, p: Progress, late: Outcome)
    returns (q: Progress, v: Verdict, ghost rs: seq<Reply>)
    requires s.Valid()
    modifies s`host, s`log, s`fair, s`calls, s`asked, s`replies, s`copies, s.cache, s.view
    ensures s.Valid()
    ensures Took(s, Paused(caps, p, old(s.view.nodes), late, At(rs, 0)), q, v, old(BooksOf(s)), rs)
  {
    hide Session.Valid;
    q, v, rs := p, Go, [];
    if p.waited >= caps.maxWait {
      v := Stop(late);
      return;
    }
    q := p.(waited := p.waited + caps.poll);
    var seen := s.Observe();
    rs := [s.replies[|s.replies| - 1]];
    if !seen { v := Fail(Transport); }
  }

  /** After a success: one observation both verifies the step and serves the next decision. */
  method Settle(s: Session, caps: Caps, p: Progress, m: Move, a: OfferedAction, payload: Option<string>)
    returns (q: Progress, v: Verdict, ghost rs: seq<Reply>)
    requires s.Valid()
    modifies s`host, s`log, s`fair, s`calls, s`asked, s`replies, s`copies, s.cache, s.view
    ensures s.Valid()
    ensures Took(s, Settled(caps, p, m, a, payload, old(s.view.nodes), At(rs, 0)), q, v, old(BooksOf(s)), rs)
  {
    hide Session.Valid;
    var before := s.view.nodes;
    var seen := s.Observe();
    rs := [s.replies[|s.replies| - 1]];
    if !seen {
      q, v := p, Fail(Transport);
      return;
    }
    var diff := DiffTrees(before, s.view.nodes);
    var verification := Verify(m.d.kind, a, payload, s.view.nodes, diff != NO_DIFF);
    assert verification == Verified(m.d, a, payload, before, s.view.nodes);
    q, v := Step(p, m.clause, m.d, payload, verification), Go;
    hide Diff, Verify, Verified, Step;
    if q.noEffect >= caps.maxNoEffect { v := Stop(NoEffects(q.noEffect)); }
  }

  /** Dispatches one operation; a refusal re-observes, a success is verified on the next observation. */
  method Perform(s: Session, caps: Caps, p: Progress, m: Move, a: OfferedAction, op: Op, payload: Option<string>)
    returns (q: Progress, v: Verdict, ghost rs: seq<Reply>)
    requires s.Valid() && (s.fair ==> GatedBy(s.fp, op, s.view.nodes)) && (OnNode(op) ==> GateOf(op).Some?)
    modifies s, s.cache, s.view
    ensures s.Valid()
    ensures Took(s, Performed(caps, p, m, a, op, payload, old(s.view.nodes), At(rs, 0), At(rs, 1)), q, v,
                 old(BooksOf(s)), rs)
  {
    hide Session.Valid, GatedBy, Settled, IsStale;
    var sent, _ := s.Send(m.d.actionId, op);
    rs := [sent];
    if sent.Accepted? {
      ghost var more;
      q, v, more := Settle(s, caps, p, m, a, payload);
      rs := rs + more;
      return;
    }
    q, v := p, Go;
    if !IsStale(sent.error) {
      v := Fail(HostError(sent.error));
      return;
    }
    q := p.(stale := p.stale + 1);
    if q.stale > caps.maxStale {
      v := Stop(Stale(sent.error));
      return;
    }
    var seen := s.Observe();
    rs := [sent, s.replies[|s.replies| - 1]];
    if !seen { v := Fail(Transport); }
  }

  lemma {:induction false} ChosenIsGated(w: Setting, held: Forest, p: Progress, m: Move, payload: Option<string>)
    requires m.d.actionId in SpaceOf(w, held)
    ensures var r := OpFor(m.d, SpaceOf(w, held)[m.d.actionId], payload, w.bindings, ArgsAt(w.o, p, m));
            r.Ok? ==> (OnNode(r.value) ==> GateOf(r.value).Some?) && (Unique(held) ==> GatedBy(w.fp, r.value, held))
  {
    SpaceIsSound(w, held);
    hide SpaceOf, SoundSpace, Menu, OpFor, OnNode, GateOf, GatedBy, Unique;
    OpIsGated(held, w.bindings, w.fp, SpaceOf(w, held), m.d, payload, ArgsAt(w.o, p, m));
  }

  /** Only TYPE and SET_VALUE need a text, and only they ask the resolver. */
  method Resolve(o: Outside, p: Progress, m: Move, a: OfferedAction) returns (r: Result<Option<string>>)
    ensures r == Payload(o, p, m, a)
  {
    if !m.d.kind.KType? && !m.d.kind.KSetValue? { return Ok(None); }
    match o.text(p.asked, m.goal, a, p.typed)
    case Ok(text) => r := Ok(Some(text));
    case Err(reason) => r := Err(reason);
  }

  /** Sends the action a policy chose. */
  method ActOn(s: Session, w: Setting, space: Space, p: Progress, m: Move)
    returns (q: Progress, v: Verdict, ghost rs: seq<Reply>)
    requires s.Valid() && w.fp == s.fp && space == SpaceOf(w, s.view.nodes)
    modifies s, s.cache, s.view
    ensures s.Valid()
    ensures Took(s, Acted(w, space, p, m, old(s.view.nodes), At(rs, 0), At(rs, 1)), q, v,
                 old(BooksOf(s)), rs)
  {
    hide SpaceOf, OpFor, Mentions, Performed, OnNode, GateOf, GatedBy, Unique, Payload, ArgsAt, At, Kept;
    assert s.fair ==> Unique(s.view.nodes);
    hide Session.Valid;
    q, v, rs := p, Go, [];
    if m.d.actionId !in space {
      v := Fail(LeftTheSpace);
      return;
    }
    var a := space[m.d.actionId];
    var resolved := Resolve(w.o, p, m, a);
    match resolved
    case Err(reason) =>
      v := Stop(if Mentions(reason, ESCALATION) then BadReply(reason) else NoText(reason));
    case Ok(payload) =>
      ChosenIsGated(w, s.view.nodes, p, m, payload);
      match OpFor(m.d, a, payload, w.bindings, ArgsAt(w.o, p, m))
      case Err(e) => v := Fail(Undispatchable(e));
      case Ok(op) => q, v, rs := Perform(s, w.caps, p, m, a, op, payload);
  }

  /** Carries out a decision. */
  method Follow(s: Session, w: Setting, space: Space, p: Progress, m: Move)
    returns (q: Progress, v: Verdict, ghost rs: seq<Reply>)
    requires s.Valid() && w.fp == s.fp && space == SpaceOf(w, s.view.nodes)
    modifies s, s.cache, s.view
    ensures s.Valid()
    ensures Took(s, Followed(w, space, p, m, old(s.view.nodes), At(rs, 0), At(rs, 1)), q, v,
                 old(BooksOf(s)), rs)
  {
    hide Session.Valid, SpaceOf, Acted, Paused;
    match m.d.kind
    case KDone =>
      q, v, rs := p.(clause := p.clause + 1), Go, [];
      if q.clause >= |w.clauses| { v := Stop(Done); }
    case KBlocked => q, v, rs := p, Stop(ChoseBlocked), [];
    case KWait => q, v, rs := Pause(s, w.caps, p, CapHit);
    case _ => q, v, rs := ActOn(s, w, space, p, m);
  }

  /** One round of the loop. */
  method Turn(s: Session, w: Setting, p: Progress) returns (q: Progress, v: Verdict, ghost rs: seq<Reply>)
    requires s.Valid() && w.fp == s.fp
    modifies s, s.cache, s.view
    ensures s.Valid()
    ensures Took(s, Turned(w, p, old(s.view.nodes), At(rs, 0), At(rs, 1)), q, v, old(BooksOf(s)), rs)
  {
    hide Session.Valid, SpaceOf, Followed, Paused, StartsWith;
    q, v, rs := p, Go, [];
    if p.clause >= |w.clauses| {
      v := Stop(Done);
      return;
    }
    var clause := w.o.wording(w.clauses[p.clause], p.typed);
    var space := SpaceOf(w, s.view.nodes);
    match w.o.mode(clause)
    case WaitFor(name) =>
      if w.o.shows(s.view.nodes, name) {
        q := p.(clause := p.clause + 1);
      } else {
        q, v, rs := Pause(s, w.caps, p, OverWait(name));
      }
    case Act(goal) =>
      match w.o.policy(p.asked, space, goal, p.history) {
        case Err(e) => v := Fail(PolicyFailed(e));
        case Ok(Abstain(reason, _, _)) =>
          v := Stop(if StartsWith(reason, ESCALATION) then BadReply(reason) else Outcome.Abstained(reason));
        case Ok(Choice(d)) =>
          q, v, rs := Follow(s, w, space, p.(asked := p.asked + 1), Move(clause, goal, d));
      }
  }

  /** One more round of a run that started on the tree `start`, and how it is entered in its script. */
  method NextRound(s: Session, w: Setting, p: Progress, ghost start: Forest, ghost rs: seq<Reply>,
                   ghost told: seq<Request>)
    returns (q: Progress, v: Verdict, ghost used: seq<Reply>, ghost asked: seq<Request>)
    requires s.Valid() && w.fp == s.fp && w.caps.poll > 0 && |p.steps| < w.caps.maxSteps
    requires Unrolls(w, start, p, s.view.nodes, rs, told)
    modifies s, s.cache, s.view
    ensures s.Valid() && Grown(s, old(BooksOf(s)), asked, used)
    ensures v.Go? ==> Unrolls(w, start, q, s.view.nodes, rs + used, told + asked) && Later(w, p, q)
    ensures v.Stop? ==> Loops(w, start, rs + used, told + asked, Finished(Receipt(v.outcome, q.steps)))
    ensures v.Fail? ==> Loops(w, start, rs + used, told + asked, Broke(v.failure))
  {
    hide Session.Valid, Loops, Turned, Unrolls, At, Loop, Later;
    ghost var held := s.view.nodes;
    q, v, used := Turn(s, w, p);
    asked := Turned(w, p, held, At(used, 0), At(used, 1)).asked;
    UnrollsOn(w, start, p, held, rs, told, used);
    RoundsProgress(w, p, held, At(used, 0), At(used, 1));
  }

  /** Goes round until the run ends or its steps are used up. */
  method Rounds(s: Session, w: Setting) returns (r: Ended, ghost rs: seq<Reply>, ghost told: seq<Request>)
    requires w.caps.poll > 0 && s.Valid() && w.fp == s.fp
    modifies s, s.cache, s.view
    ensures s.Valid() && Grown(s, old(BooksOf(s)), told, rs)
    ensures Loops(w, old(s.view.nodes), rs, told, r)
  {
    ghost var start := s.view.nodes;
    hide Session.Valid, Loops, Unrolls;
    var p := FRESH;
    told, rs := [], [];
    UnrollsFirst(w, start);
    while |p.steps| < w.caps.maxSteps
      invariant s.Valid() && Grown(s, old(BooksOf(s)), told, rs)
      invariant Unrolls(w, start, p, s.view.nodes, rs, told)
      decreases w.caps.maxSteps - |p.steps|, |w.clauses| - p.clause, w.caps.maxStale - p.stale,
                w.caps.maxWait - p.waited
    {
      var q, v, used, asked := NextRound(s, w, p, start, rs, told);
      Appends(old(s.asked), told, asked);
      Appends(old(s.replies), rs, used);
      told, rs := told + asked, rs + used;
      match v
      case Fail(failure) =>
        r := Broke(failure);
        return;
      case Stop(outcome) =>
        r := Finished(Receipt(outcome, q.steps));
        return;
      case Go => p := q;
    }
    UnrollsToCap(w, start, p, s.view.nodes, rs, told);
    r := Finished(Receipt(CapHit, p.steps));
  }

  /** Observes, lists the keybindings, then goes round. */
  method Drive(s: Session, caps: Caps, o: Outside, clauses: seq<string>)
    returns (r: Ended, ghost rs: seq<Reply>, ghost told: seq<Request>)
    requires caps.poll > 0 && s.Valid()
    modifies s, s.cache, s.view
    ensures s.Valid() && Grown(s, old(BooksOf(s)), told, rs)
    ensures Plays(caps, o, clauses, s.fp, rs, told, r)
  {
    hide Session.Valid, Loop;
    s.Forget();
    var seen := s.Observe();
    rs, told := [s.replies[|s.replies| - 1]], [Look];
    if !seen {
      r := Broke(Transport);
      return;
    }
    var kbs := s.ListBindings();
    rs, told := rs + [s.replies[|s.replies| - 1]], [Look, Catalog];
    match kbs
    case None => r := Broke(Transport);
    case Some(bindings) =>
      ghost var more, asked;
      r, more, asked := Rounds(s, Setting(caps, o, clauses, bindings, s.fp));
      assert (rs + more)[2..] == more;
      rs, told := rs + more, told + asked;
  }

  /** The part of the books a run added, and what the host ran in it. */
  lemma {:induction false} AddedBooks(fp: Fingerprint, b: Books, all: Books, asked: seq<Request>, rs: seq<Reply>)
    requires Kept(fp, b.asked, b.replies, b.copies) && Kept(fp, all.asked, all.replies, all.copies)
    requires all.asked == b.asked + asked && all.replies == b.replies + rs && |asked| == |rs| && b.copies <= all.copies
    ensures var mine := all.copies[|b.copies|..];
            && Kept(fp, asked, rs, mine) && AllRan(all.copies) == AllRan(b.copies) + AllRan(mine)
            && AcceptedIn(AllRan(mine)) == AcceptedOf(asked, rs) && |AllRan(mine)| >= |AcceptedOf(asked, rs)|
            && (|AllRan(mine)| == |AcceptedOf(asked, rs)| <==> EachOnce(fp, rs, mine))
  {
    var n, mine := |b.copies|, all.copies[|b.copies|..];
    assert all.copies == b.copies + mine;
    assert Kept(fp, asked, rs, mine) by {
      hide Carried;
      forall k | 0 <= k < |asked| ensures Carried(fp, asked[k], rs[k], mine[k]) {
        assert all.asked[n + k] == asked[k] && all.replies[n + k] == rs[k] && all.copies[n + k] == mine[k];
      }
    }
    hide *;
    AllRanConcat(b.copies, mine);
    BooksAgree(fp, asked, rs, mine);
    NothingElseRan(fp, asked, rs, mine);
  }

  lemma {:induction false} StepIdsCount(steps: seq<StepRecord>)
    ensures |StepIds(steps)| == |steps|
  {
    if steps != [] { StepIdsCount(steps[..|steps| - 1]); }
  }

  /** Runs a goal to its end. Whatever the host, its other clients, the policy and the resolver do: the run is
      the one its replies determine, its calls stay within the bound, and its steps are the operations the host
      ran and the client was told of. The host ran no other exactly if no call let through a copy but the one
      reported. With a policy that keeps to the menu no internal error ends the run. */
  method Run(s: Session, caps: Caps, o: Outside, clauses: seq<string>)
    returns (r: Ended, ghost rs: seq<Reply>, ghost told: seq<Request>)
    requires caps.poll > 0 && s.Valid()
    modifies s, s.cache, s.view
    ensures s.Valid() && Grown(s, old(BooksOf(s)), told, rs)
    ensures Plays(caps, o, clauses, s.fp, rs, told, r)
    ensures s.calls <= old(s.calls) + CallBound(caps)
    ensures var mine := s.copies[|old(s.copies)|..];
            && AllRan(s.copies) == AllRan(old(s.copies)) + AllRan(mine)
            && (r.Finished? ==>
                  && AcceptedIn(AllRan(mine)) == StepIds(r.receipt.steps)
                  && |AllRan(mine)| >= |r.receipt.steps|
                  && |mine| == |rs| && (|AllRan(mine)| == |r.receipt.steps| <==> EachOnce(s.fp, rs, mine)))
    ensures r.Broke? && ClosedPolicy(o.policy) ==> FailedOutside(caps, o, clauses, s.fp, rs, r.failure)
  {
    ghost var b := BooksOf(s);
    r, rs, told := Drive(s, caps, o, clauses);
    AddedBooks(s.fp, b, BooksOf(s), told, rs);
    if r.Finished? { StepIdsCount(r.receipt.steps); }
    hide Session.InStep, Play, AcceptedIn, AcceptedOf, StepIds, CallBound, ClosedPolicy, FailedOutside, Kept, AllRan,
        EachOnce;
    RunKeepsItsPromises(caps, o, clauses, s.fp, rs);
  }
}
