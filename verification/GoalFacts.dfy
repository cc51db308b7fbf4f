/** What single rounds of the goal loop do, and how clauses get closed over whole runs. */
module GoalFacts {
  import opened Ordering
  import opened UiForest
  import opened Protocol
  import opened ActionSpace
  import opened Policy
  import opened Escalate
  import opened Dispatch
  import opened HostSession
  import opened GoalPlay

  // ----- wait clauses

  predicate Waits(w: Setting, p: Progress)
  {
    p.clause < |w.clauses| && w.o.mode(ClauseAt(w, p)).WaitFor?
  }

  /** The name this wait clause is about is on the tree. */
  predicate InView(w: Setting, p: Progress, held: Forest)
    requires Waits(w, p)
  {
    w.o.shows(held, w.o.mode(ClauseAt(w, p)).name)
  }

  /** A wait clause is closed exactly if its name is on the held tree, and then nothing is asked. Otherwise the
      round waits for one poll and looks again, or stops if the waiting time is used up. The policy is not asked. */
  lemma {:induction false} WaitRound(w: Setting, p: Progress, held: Forest, r0: Reply, r1: Reply)
    requires Waits(w, p)
    ensures var t := Turned(w, p, held, r0, r1);
            && (t.q.clause != p.clause <==> InView(w, p, held))
            && (InView(w, p, held) ==> t == Round(p.(clause := p.clause + 1), held, Go, []))
            && (!InView(w, p, held) && p.waited >= w.caps.maxWait ==>
                  t == Round(p, held, Stop(OverWait(w.o.mode(ClauseAt(w, p)).name)), []))
            && (!InView(w, p, held) && p.waited < w.caps.maxWait ==>
                  && t.asked == [Look] && t.q == p.(waited := p.waited + w.caps.poll)
                  && (if r0.Seen? then t.v == Go && t.nodes == r0.nodes else t.v == Fail(Transport) && t.nodes == held))
  {
  }

  // ----- decisions

  /** In every round the policy chooses from exactly what the held tree, the keybindings and the invokes offer. */
  lemma {:induction false} MenuOfRound(w: Setting, held: Forest, id: string)
    requires Unique(held)
    ensures id in SpaceOf(w, held) <==>
              || (exists k, x :: TakesAction(held, k, x) && id == NodeActionId(k, x))
              || (exists kb :: kb in w.bindings && id == "KEYBINDING:" + kb.id)
              || (exists i :: i in w.o.invokes && id == "INVOKE:" + i.name)
              || id == "DONE" || id == "BLOCKED" || id == "WAIT"
  {
    MenuIsExact(held, w.bindings, w.o.invokes, w.fp, w.o.risky, id);
    hide FromTree, TakesAction, NodeActionId, Unique;
  }

  /** The policy's answer in this round is this choice. */
  predicate Chooses(w: Setting, p: Progress, held: Forest, d: Decision)
  {
    Asks(w, p) && AnswerAt(w, p, held) == Ok(Choice(d))
  }

  /** A choice of DONE closes the clause and ends the run with the last one; BLOCKED ends the run; WAIT waits for
      one poll and looks again, or ends the run if the waiting time is used up. */
  lemma {:induction false} ControlRound(w: Setting, p: Progress, held: Forest, r0: Reply, r1: Reply, d: Decision)
    requires Chooses(w, p, held, d) && IsControl(d.kind)
    ensures var t := Turned(w, p, held, r0, r1);
            && t.q.asked == p.asked + 1 && t.q.steps == p.steps
            && (t.q.clause == p.clause + (if d.kind.KDone? then 1 else 0))
            && (d.kind.KDone? ==> t.asked == [] && t.v == if p.clause + 1 == |w.clauses| then Stop(Done) else Go)
            && (d.kind.KBlocked? ==> t.asked == [] && t.v == Stop(ChoseBlocked))
            && (d.kind.KWait? && p.waited >= w.caps.maxWait ==> t.asked == [] && t.v == Stop(CapHit))
            && (d.kind.KWait? && p.waited < w.caps.maxWait ==>
                  && t.asked == [Look] && t.q.waited == p.waited + w.caps.poll
                  && (if r0.Seen? then t.v == Go && t.nodes == r0.nodes else t.v == Fail(Transport)))
  {
    hide SpaceOf, Acted;
  }

  /** An abstention ends the run, as a bad reply if it is marked as a violation; so does an error. */
  lemma {:induction false} AbstentionRound(w: Setting, p: Progress, held: Forest, r0: Reply, r1: Reply)
    requires Asks(w, p) && !(AnswerAt(w, p, held).Ok? && AnswerAt(w, p, held).value.Choice?)
    ensures var t, answer := Turned(w, p, held, r0, r1), AnswerAt(w, p, held);
            && t.asked == [] && t.q == p
            && t.v == match answer
                      case Err(e) => Fail(PolicyFailed(e))
                      case Ok(o) => Stop(if StartsWith(o.reason, ESCALATION) then BadReply(o.reason)
                                         else Outcome.Abstained(o.reason))
  {
    hide SpaceOf, StartsWith, Followed;
  }

  /** The text of the chosen field, as the resolver gives it; no other kind needs one. */
  predicate TextIs(w: Setting, p: Progress, d: Decision, a: OfferedAction, payload: Option<string>)
    requires Asks(w, p)
  {
    if d.kind.KType? || d.kind.KSetValue? then
      payload.Some? && w.o.text(p.asked + 1, w.o.mode(ClauseAt(w, p)).goal, a, p.typed) == Ok(payload.value)
    else payload.None?
  }

  /** What makes the operation of a choice: the action as it stands on the menu, its text, and the arguments. */
  ghost function OpOf(w: Setting, p: Progress, held: Forest, d: Decision, payload: Option<string>): Result<Op>
    requires Asks(w, p) && d.actionId in SpaceOf(w, held)
  {
    OpFor(d, SpaceOf(w, held)[d.actionId], payload, w.bindings,
          ArgsAt(w.o, p.(asked := p.asked + 1), Move(ClauseAt(w, p), w.o.mode(ClauseAt(w, p)).goal, d)))
  }

  /** A round asks the host nothing exactly if the choice is not on the menu, or its field has no text, or no operation
      can be made of it; each of these ends the run. */
  lemma {:induction false} UnsentRound(w: Setting, p: Progress, held: Forest, r0: Reply, r1: Reply, d: Decision,
                                       payload: Option<string>)
    requires Chooses(w, p, held, d) && !IsControl(d.kind)
    ensures var t, space, fields := Turned(w, p, held, r0, r1), SpaceOf(w, held), d.kind.KType? || d.kind.KSetValue?;
            && (d.actionId !in space ==> t.asked == [] && t.v == Fail(LeftTheSpace))
            && (d.actionId in space && fields ==>
                  match w.o.text(p.asked + 1, w.o.mode(ClauseAt(w, p)).goal, space[d.actionId], p.typed)
                  case Ok(_) => true
                  case Err(reason) =>
                    && t.asked == []
                    && t.v == Stop(if Mentions(reason, ESCALATION) then BadReply(reason) else NoText(reason)))
            && (d.actionId in space && TextIs(w, p, d, space[d.actionId], payload) ==>
                  match OpOf(w, p, held, d, payload)
                  case Ok(_) => t.asked != []
                  case Err(e) => t.asked == [] && t.v == Fail(Undispatchable(e)))
  {
    hide SpaceOf, OpFor, Mentions, ArgsAt;
    var next := p.(asked := p.asked + 1);
    var m := Move(ClauseAt(w, p), w.o.mode(ClauseAt(w, p)).goal, d);
    assert Turned(w, p, held, r0, r1) == Acted(w, SpaceOf(w, held), next, m, held, r0, r1) by { hide Acted; }
    hide Turned, Settled, Rejected;
  }

  /** A round dispatches at most one operation: that of the action chosen, with the text the resolver gave. */
  lemma {:induction false} SentAsDecided(w: Setting, p: Progress, held: Forest, r0: Reply, r1: Reply, d: Decision)
    returns (payload: Option<string>)
    requires Chooses(w, p, held, d) && !IsControl(d.kind)
    requires var t := Turned(w, p, held, r0, r1); t.asked != []
    ensures var t, space := Turned(w, p, held, r0, r1), SpaceOf(w, held);
            && d.actionId in space && t.asked[0].Dispatch? && t.asked[0].id == d.actionId && t.asked[1..] <= [Look]
            && TextIs(w, p, d, space[d.actionId], payload)
            && OpOf(w, p, held, d, payload) == Ok(t.asked[0].op)
  {
    hide SpaceOf, OpFor, Mentions, ArgsAt;
    var next := p.(asked := p.asked + 1);
    var m := Move(ClauseAt(w, p), w.o.mode(ClauseAt(w, p)).goal, d);
    var space := SpaceOf(w, held);
    assert Turned(w, p, held, r0, r1) == Acted(w, space, next, m, held, r0, r1) by { hide Acted; }
    hide Turned;
    payload := Payload(w.o, next, m, space[d.actionId]).value;
    match OpFor(d, space[d.actionId], payload, w.bindings, ArgsAt(w.o, next, m))
    case Ok(op) => DispatchIsFirst(w, next, m, space[d.actionId], op, payload, held, r0, r1); hide Performed;
    case Err(_) => hide Performed;
  }

  lemma {:induction false} DispatchIsFirst(w: Setting, p: Progress, m: Move, a: OfferedAction, op: Op,
                                           payload: Option<string>, held: Forest, r0: Reply, r1: Reply)
    ensures var t := Performed(w.caps, p, m, a, op, payload, held, r0, r1);
            && t.asked != [] && t.asked[0] == HostSession.Request.Dispatch(m.d.actionId, op) && t.asked[1..] <= [Look]
  {
    hide Verified, IsStale, Step;
  }

  /** For an action of a node with a unique id, that operation acts on this node, as its kind says, with that text,
      gated by what was seen. */
  lemma {:induction false} NodeSentAsDecided(w: Setting, p: Progress, held: Forest, r0: Reply, r1: Reply, d: Decision)
    returns (x: string, payload: Option<string>)
    requires Chooses(w, p, held, d) && OnMenu(SpaceOf(w, held), d) && IsNodeBound(d.kind) && Unique(held)
    requires Turned(w, p, held, r0, r1).asked != []
    ensures var t := Turned(w, p, held, r0, r1);
            && x in Ids(held) && d.actionId == NodeActionId(d.kind, x) && t.asked[0].Dispatch?
            && TextIs(w, p, d, SpaceOf(w, held)[d.actionId], payload)
            && ActsOn(t.asked[0].op, d.kind, x, payload, Some(PrintOf(w, held, x)))
  {
    hide SpaceOf, OpFor, Turned, TextIs, Menu, SoundSpace, ActsOn, Unique, KindName;
    payload := SentAsDecided(w, p, held, r0, r1, d);
    SpaceIsSound(w, held);
    var m := Move(ClauseAt(w, p), w.o.mode(ClauseAt(w, p)).goal, d);
    x := NodeChoiceDispatches(held, w.bindings, w.fp, SpaceOf(w, held), d, payload,
                              ArgsAt(w.o, p.(asked := p.asked + 1), m));
  }

  function PrintOf(w: Setting, held: Forest, x: string): nat
    requires x in Ids(held)
  {
    w.fp(x, Flat(held, x).value)
  }

  // ----- after the dispatch

  /** What the gate refuses with is recognised as stale. */
  lemma {:induction false} RefusalsAreStale()
    ensures IsStale(STALE_TARGET) && IsStale(TARGET_GONE) && !IsStale(LOST)
  {
    assert LOST[0] == 'r' && STALE_TARGET[0] == 's' && TARGET_GONE[0] == 't';
  }

  /** A stale target is looked at again while the cap allows, and ends the run after that; any other error ends the
      run at once. */
  lemma {:induction false} RejectionRound(w: Setting, p: Progress, held: Forest, r0: Reply, r1: Reply, d: Decision)
    requires Chooses(w, p, held, d) && !IsControl(d.kind) && (r0.Refused? || r0.Failed?)
    requires Turned(w, p, held, r0, r1).asked != []
    ensures var t := Turned(w, p, held, r0, r1);
            && t.q.steps == p.steps && t.q.clause == p.clause
            && (!IsStale(r0.error) ==> t.v == Fail(HostError(r0.error)))
            && (IsStale(r0.error) ==> t.q.stale == p.stale + 1)
            && (IsStale(r0.error) && p.stale >= w.caps.maxStale ==> t.v == Stop(Stale(r0.error)) && |t.asked| == 1)
            && (IsStale(r0.error) && p.stale < w.caps.maxStale ==>
                  && |t.asked| == 2 && t.asked[1] == Look
                  && (if r1.Seen? then t.v == Go && t.nodes == r1.nodes else t.v == Fail(Transport)))
  {
    hide SpaceOf, OpFor, Mentions, ArgsAt, IsStale;
    var next := p.(asked := p.asked + 1);
    var m := Move(ClauseAt(w, p), w.o.mode(ClauseAt(w, p)).goal, d);
    var space := SpaceOf(w, held);
    assert Turned(w, p, held, r0, r1) == Acted(w, space, next, m, held, r0, r1) by { hide Acted; }
    hide Turned, Performed;
    var payload := Payload(w.o, next, m, space[d.actionId]).value;
    match OpFor(d, space[d.actionId], payload, w.bindings, ArgsAt(w.o, next, m))
    case Ok(op) => AfterRejection(w.caps, next, m, space[d.actionId], op, payload, held, r0, r1);
    case Err(_) =>
  }

  lemma {:induction false} AfterRejection(caps: Caps, p: Progress, m: Move, a: OfferedAction, op: Op,
                                          payload: Option<string>, held: Forest, r0: Reply, r1: Reply)
    requires r0.Refused? || r0.Failed?
    ensures var t := Performed(caps, p, m, a, op, payload, held, r0, r1);
            && t.q.steps == p.steps && t.q.clause == p.clause
            && (!IsStale(r0.error) ==> t.v == Fail(HostError(r0.error)))
            && (IsStale(r0.error) ==> t.q.stale == p.stale + 1)
            && (IsStale(r0.error) && p.stale >= caps.maxStale ==> t.v == Stop(Stale(r0.error)) && |t.asked| == 1)
            && (IsStale(r0.error) && p.stale < caps.maxStale ==>
                  && |t.asked| == 2 && t.asked[1] == Look
                  && (if r1.Seen? then t.v == Go && t.nodes == r1.nodes else t.v == Fail(Transport)))
  {
    hide IsStale;
  }

  /** A dispatched TYPE or SET_VALUE is a success exactly if the field, looked at again, holds the text sent. */
  lemma {:induction false} TextIsReadBack(d: Decision, a: OfferedAction, text: string, before: Forest, after: Forest)
    requires d.kind.KType? || d.kind.KSetValue?
    ensures Verified(d, a, Some(text), before, after) ==
              if a.target.Some? && a.target.value in Ids(after)
                 && Flat(after, a.target.value).value.attrs.value == Some(text)
              then Success else WrongEffect
  {
    hide Flat;
    if a.target.Some? { assert a.target.value in Ids(after) <==> Flat(after, a.target.value).Some?; }
  }

  /** What an accepted dispatch records once the host has been looked at again. */
  lemma {:induction false} StepRound(w: Setting, p: Progress, held: Forest, r0: Reply, r1: Reply, d: Decision)
    returns (payload: Option<string>)
    requires Chooses(w, p, held, d) && !IsControl(d.kind) && r0.Accepted? && r1.Seen?
    requires Turned(w, p, held, r0, r1).asked != []
    ensures var t, space := Turned(w, p, held, r0, r1), SpaceOf(w, held);
            && d.actionId in space && TextIs(w, p, d, space[d.actionId], payload)
            && var v := Verified(d, space[d.actionId], payload, held, r1.nodes);
            && t.nodes == r1.nodes && |t.asked| == 2
            && t.q.steps == p.steps +
                 [StepRecord(|p.steps| + 1, ClauseAt(w, p), KindName(d.kind), d.actionId, d.title, d.millis, v)]
            && t.q.history == p.history + [HistoryEntry(|p.steps| + 1, d.actionId, d.kind, d.title, v)]
            && t.q.typed == p.typed + (if payload.Some? then [payload.value] else [])
            && t.q.stale == 0 && t.q.waited == p.waited && t.q.clause == p.clause
            && t.q.noEffect == (if v.Success? || v.StateChanged? then 0 else p.noEffect + 1)
            && t.v == (if t.q.noEffect >= w.caps.maxNoEffect then Stop(NoEffects(t.q.noEffect)) else Go)
  {
    hide SpaceOf, OpFor, Mentions, ArgsAt, Verified, KindName;
    var next := p.(asked := p.asked + 1);
    var m := Move(ClauseAt(w, p), w.o.mode(ClauseAt(w, p)).goal, d);
    payload := SentAsDecided(w, p, held, r0, r1, d);
    assert Payload(w.o, next, m, SpaceOf(w, held)[d.actionId]) == Ok(payload);
    assert p.typed + [] == p.typed;
  }

  /** The idle count is that of the latest steps whose verification was neither a success nor a change. */
  lemma {:induction false} IdleMeans(steps: seq<StepRecord>)
    ensures var n := Idle(steps);
            && (forall i :: |steps| - n <= i < |steps| ==>
                  !steps[i].verification.Success? && !steps[i].verification.StateChanged?)
            && (n < |steps| ==> var v := steps[|steps| - n - 1].verification; v.Success? || v.StateChanged?)
  {
    if steps != [] && Idle(steps) > 0 {
      IdleMeans(steps[..|steps| - 1]);
      assert forall i :: 0 <= i < |steps| - 1 ==> steps[..|steps| - 1][i] == steps[i];
    }
  }

  // ----- clauses over whole runs

  /** One round of a run: where it started, and the loop's variables after it. */
  datatype Visit = Visit(p: Progress, held: Forest, q: Progress)

  /** The rounds of a loop, in order. */
  ghost function Trail(w: Setting, p: Progress, held: Forest, rs: seq<Reply>): seq<Visit>
    requires w.caps.poll > 0
    decreases w.caps.maxSteps - |p.steps|, |w.clauses| - p.clause, w.caps.maxStale - p.stale, w.caps.maxWait - p.waited
  {
    if |p.steps| >= w.caps.maxSteps then []
    else
      var t := Turned(w, p, held, At(rs, 0), At(rs, 1));
      [Visit(p, held, t.q)] +
        if !t.v.Go? then []
        else
          RoundsMoveOn(w, p, held, At(rs, 0), At(rs, 1));
          Trail(w, t.q, t.nodes, Drop(rs, |t.asked|))
  }

  /** The round closed its clause for the reason it may: a wait clause had its name on the tree, any other clause
      was declared done by the policy. */
  ghost predicate Closes(w: Setting, v: Visit)
  {
    && v.p.clause < |w.clauses| && v.q.clause == v.p.clause + 1
    && (Waits(w, v.p) ==> InView(w, v.p, v.held))
    && (Asks(w, v.p) ==> exists d :: Chooses(w, v.p, v.held, d) && d.kind.KDone?)
  }

  lemma {:induction false} ClauseMoves(w: Setting, p: Progress, held: Forest, r0: Reply, r1: Reply)
    ensures var t := Turned(w, p, held, r0, r1);
            t.q.clause == p.clause || Closes(w, Visit(p, held, t.q))
  {
    if p.clause < |w.clauses| {
      if Waits(w, p) {
        WaitRound(w, p, held, r0, r1);
        hide Turned;
      } else {
        assert Asks(w, p);
        match AnswerAt(w, p, held)
        case Ok(Choice(d)) =>
          assert Chooses(w, p, held, d);
          if IsControl(d.kind) {
            ControlRound(w, p, held, r0, r1, d);
            hide Turned;
          } else {
            ActionsKeepClause(w, p, held, r0, r1, d);
            hide Turned;
          }
        case _ =>
          AbstentionRound(w, p, held, r0, r1);
          hide Turned;
      }
    }
  }

  lemma {:induction false} ActionsKeepClause(w: Setting, p: Progress, held: Forest, r0: Reply, r1: Reply, d: Decision)
    requires Chooses(w, p, held, d) && !IsControl(d.kind)
    ensures Turned(w, p, held, r0, r1).q.clause == p.clause
  {
    hide SpaceOf, OpFor, Mentions, ArgsAt, Verified, IsStale, Payload;
  }

  /** Every clause passed by a loop was closed in one of its rounds. */
  lemma {:induction false} LoopCloses(w: Setting, p: Progress, held: Forest, rs: seq<Reply>, c: nat)
    requires w.caps.poll > 0 && p.clause <= c < Loop(w, p, held, rs).last.clause
    ensures exists v :: v in Trail(w, p, held, rs) && v.p.clause == c && Closes(w, v)
    decreases w.caps.maxSteps - |p.steps|, |w.clauses| - p.clause, w.caps.maxStale - p.stale, w.caps.maxWait - p.waited
  {
    var t := Turned(w, p, held, At(rs, 0), At(rs, 1));
    hide Turned, At, Closes;
    ClauseMoves(w, p, held, At(rs, 0), At(rs, 1));
    var here := Visit(p, held, t.q);
    assert here in Trail(w, p, held, rs);
    if c > p.clause || t.q.clause == p.clause {
      ClausesStep(w, p, held, rs);
      RoundsMoveOn(w, p, held, At(rs, 0), At(rs, 1));
      LoopCloses(w, t.q, t.nodes, Drop(rs, |t.asked|), c);
      var v :| v in Trail(w, t.q, t.nodes, Drop(rs, |t.asked|)) && v.p.clause == c && Closes(w, v);
      assert v in Trail(w, p, held, rs);
    }
  }

  /** A round passes at most one clause. */
  lemma {:induction false} ClausesStep(w: Setting, p: Progress, held: Forest, rs: seq<Reply>)
    ensures var t := Turned(w, p, held, At(rs, 0), At(rs, 1)); t.q.clause <= p.clause + 1
  {
    ClauseMoves(w, p, held, At(rs, 0), At(rs, 1));
    hide Turned, At;
  }

  /** The rounds of a run. */
  ghost function TrailOf(caps: Caps, o: Outside, clauses: seq<string>, fp: Fingerprint, rs: seq<Reply>): seq<Visit>
    requires caps.poll > 0
  {
    if At(rs, 0).Seen? && At(rs, 1).Listed?
    then Trail(SettingOf(caps, o, clauses, fp, rs), FRESH, At(rs, 0).nodes, Drop(rs, 2))
    else []
  }

  /** Over every run each clause passed was closed in a round: a wait clause on a held tree that showed its name,
      any other by the policy's word. A run that ends as done has closed all of them. */
  lemma {:induction false} ClausesAreClosed(caps: Caps, o: Outside, clauses: seq<string>, fp: Fingerprint,
                                            rs: seq<Reply>, c: nat)
    requires caps.poll > 0
    requires var r := Play(caps, o, clauses, fp, rs);
             c < r.last.clause || (c < |clauses| && VerdictOf(r.ended) == Stop(Done))
    ensures exists v :: v in TrailOf(caps, o, clauses, fp, rs) && v.p.clause == c
                        && Closes(SettingOf(caps, o, clauses, fp, rs), v)
  {
    OutcomesAreJustified(caps, o, clauses, fp, rs);
    hide Loop, Trail, Sound, Closes;
    assert c < Play(caps, o, clauses, fp, rs).last.clause;
    LoopCloses(SettingOf(caps, o, clauses, fp, rs), FRESH, At(rs, 0).nodes, Drop(rs, 2), c);
  }

  /** A run reported as having waited too long stopped on a wait clause for that name, with the waiting time used
      up, and the name not on the tree held. */
  lemma {:induction false} OverWaitMeans(caps: Caps, o: Outside, clauses: seq<string>, fp: Fingerprint,
                                         rs: seq<Reply>, name: string)
    requires caps.poll > 0 && VerdictOf(Play(caps, o, clauses, fp, rs).ended) == Stop(OverWait(name))
    ensures var w, at := SettingOf(caps, o, clauses, fp, rs), LastOf(caps, o, clauses, fp, rs);
            && Waits(w, at.p) && w.o.mode(ClauseAt(w, at.p)).name == name
            && !w.o.shows(at.held, name) && at.p.waited >= caps.maxWait
  {
    var w, at := SettingOf(caps, o, clauses, fp, rs), LastOf(caps, o, clauses, fp, rs);
    assert w.caps == caps;
    hide Play, LastOf, Turned, SettingOf;
    RunEndsInLastRound(caps, o, clauses, fp, rs);
    OnlyWaitsOverrun(w, at.p, at.held, At(rs, at.used), At(rs, at.used + 1), name);
  }

  lemma {:induction false} OnlyWaitsOverrun(w: Setting, p: Progress, held: Forest, r0: Reply, r1: Reply, name: string)
    requires Turned(w, p, held, r0, r1).v == Stop(OverWait(name))
    ensures Waits(w, p) && w.o.mode(ClauseAt(w, p)).name == name
    ensures !w.o.shows(held, name) && p.waited >= w.caps.maxWait
  {
    if p.clause < |w.clauses| {
      if Waits(w, p) {
        WaitRound(w, p, held, r0, r1);
        hide Turned;
      } else {
        match AnswerAt(w, p, held)
        case Ok(Choice(d)) => NoOverrun(w, p, held, r0, r1, d);
        case _ =>
          AbstentionRound(w, p, held, r0, r1);
      }
    }
  }

  lemma {:induction false} NoOverrun(w: Setting, p: Progress, held: Forest, r0: Reply, r1: Reply, d: Decision)
    requires Chooses(w, p, held, d)
    ensures var v := Turned(w, p, held, r0, r1).v; !(v.Stop? && v.outcome.OverWait?)
  {
    hide SpaceOf, OpFor, Mentions, ArgsAt, Verified, IsStale, Payload;
  }
}
