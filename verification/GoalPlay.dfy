/** What the goal runner makes of the replies its calls get: observe, decide, gate, dispatch, verify. */
module GoalPlay {
  import opened Ordering
  import opened UiForest
  import opened TreeDiff
  import opened DiffFacts
  import opened PatchTheorem
  import opened Protocol
  import opened ActionSpace
  import opened Policy
  import opened Escalate
  import opened Dispatch
  import opened HostSession

  datatype Caps = Caps(maxSteps: nat, maxNoEffect: nat, maxStale: nat, maxWait: nat, poll: nat)

  datatype ClauseMode = Act(goal: string) | WaitFor(name: string)

  /** What lies outside the loop: how a clause reads after the texts typed so far, what it asks for, whether
      a name is on screen, the policy, the resolver of texts and the arguments of an invoke, the invokes on
      offer, and which bindings quit. The policy, the resolver and the arguments may answer differently each
      time: their first argument counts the decisions of the run. */
  datatype Outside = Outside(
    wording: (string, seq<string>) -> string,
    mode: string -> ClauseMode,
    shows: (Forest, string) -> bool,
    policy: Decider,
    text: (nat, string, OfferedAction, seq<string>) -> Result<string>,
    args: (nat, string, string) -> Result<Value>,
    invokes: seq<OfferedInvoke>,
    risky: string -> bool)

  type Decider = (nat, Space, string, seq<HistoryEntry>) -> Result<PolicyOutcome>

  /** What stays fixed while the loop runs. */
  datatype Setting = Setting(caps: Caps, o: Outside, clauses: seq<string>, bindings: seq<KeybindingInfo>,
      fp: Fingerprint)

  datatype StepRecord = StepRecord(step: nat, clause: string, op: string, id: string, name: string,
                                   millis: int, verification: Verification)

  /** The loop's variables, and how many decisions it has asked for. */
  datatype Progress = Progress(clause: nat, steps: seq<StepRecord>, history: seq<HistoryEntry>, typed: seq<string>,
                               noEffect: nat, stale: nat, waited: nat, asked: nat)

  datatype Outcome =
    | Done
    | OverWait(name: string)
    | ChoseBlocked
    | BadReply(reason: string)
    | NoEffects(count: nat)
    | Abstained(reason: string)
    | NoText(reason: string)
    | Stale(error: string)
    | CapHit

  datatype Failure = Transport | PolicyFailed(error: string) | LeftTheSpace | Undispatchable(error: string)
      | HostError(error: string)

  datatype Verdict = Go | Stop(outcome: Outcome) | Fail(failure: Failure)

  datatype Receipt = Receipt(outcome: Outcome, steps: seq<StepRecord>)

  // ----- one round of the loop

  /** Where a round leaves the loop: its variables, the tree held, whether it goes on, and what it asked. */
  datatype Round = Round(q: Progress, nodes: Forest, v: Verdict, asked: seq<Request>)

  function After(a: Request, r: Round): Round { r.(asked := [a] + r.asked) }

  function LookFor(q: Progress, held: Forest, r: Reply): Round
  {
    match r
    case Seen(nodes) => Round(q, nodes, Go, [Look])
    case _ => Round(q, held, Fail(Transport), [Look])
  }

  /** Lets the application settle for one poll, then looks again. */
  function Paused(caps: Caps, p: Progress, held: Forest, late: Outcome, r: Reply): Round
  {
    if p.waited >= caps.maxWait then Round(p, held, Stop(late), [])
    else LookFor(p.(waited := p.waited + caps.poll), held, r)
  }

  /** TYPE and SET_VALUE are judged by the value read back; every other kind by a non-empty diff. */
  function Verify(kind: ActionKind, a: OfferedAction, payload: Option<string>, nodes: Forest,
                  changed: bool): Verification
  {
    var otherwise := if changed then StateChanged else NoEffect;
    if (kind.KType? || kind.KSetValue?) && payload.Some? then
      if a.target.Some? && Flat(nodes, a.target.value).Some? && Flat(nodes, a.target.value).value.attrs.value == payload
      then Success else WrongEffect
    else otherwise
  }

  /** The verification of a step, from the trees held before and after it. */
  ghost function Verified(d: Decision, a: OfferedAction, payload: Option<string>, before: Forest,
                          after: Forest): Verification
  {
    Verify(d.kind, a, payload, after, Diff(before, after) != NO_DIFF)
  }

  /** A click is recorded as without effect exactly when the two held trees have the same shape and differ
      at most by keys no longer serialised. */
  lemma {:induction false} NoEffectMeans(d: Decision, a: OfferedAction, before: Forest, after: Forest)
    requires Unique(before) && Unique(after) && !d.kind.KType? && !d.kind.KSetValue?
    ensures Verified(d, a, None, before, after) ==
              if SameShape(before, after)
                 && forall x :: x in Ids(after) && x in Ids(before) ==>
                     OnlyLoses(Flat(before, x).value.attrs, Flat(after, x).value.attrs)
              then NoEffect else StateChanged
  {
    SilentDiff(before, after);
    hide Diff, SameShape, OnlyLoses;
  }

  function NewStep(p: Progress, clause: string, d: Decision, v: Verification): StepRecord
  {
    StepRecord(|p.steps| + 1, clause, KindName(d.kind), d.actionId, d.title, d.millis, v)
  }

  /** The progress after a verified step. */
  function Step(p: Progress, clause: string, d: Decision, payload: Option<string>, v: Verification): Progress
  {
    p.(steps := p.steps + [NewStep(p, clause, d, v)],
       history := p.history + [HistoryEntry(|p.steps| + 1, d.actionId, d.kind, d.title, v)],
       typed := if payload.Some? then p.typed + [payload.value] else p.typed,
       noEffect := if Effective(v) then 0 else p.noEffect + 1,
       stale := 0)
  }

  predicate Effective(v: Verification) { v.Success? || v.StateChanged? }

  /** What a choice of the policy fixes for the rest of the round. */
  datatype Move = Move(clause: string, goal: string, d: Decision)

  /** After a success: one observation both verifies the step and serves the next decision. */
  ghost function Settled(caps: Caps, p: Progress, m: Move, a: OfferedAction, payload: Option<string>, held: Forest,
                         r: Reply): Round
  {
    match r
    case Seen(nodes) =>
      var q := Step(p, m.clause, m.d, payload, Verified(m.d, a, payload, held, nodes));
      Round(q, nodes, if q.noEffect >= caps.maxNoEffect then Stop(NoEffects(q.noEffect)) else Go, [Look])
    case _ => Round(p, held, Fail(Transport), [Look])
  }

  predicate IsStale(error: string) { StartsWith(error, STALE_TARGET) || StartsWith(error, TARGET_GONE) }

  /** A stale target is looked at again, as often as the cap allows; any other error ends the run. */
  function Rejected(caps: Caps, p: Progress, held: Forest, error: string, r: Reply): Round
  {
    if !IsStale(error) then Round(p, held, Fail(HostError(error)), [])
    else
      var q := p.(stale := p.stale + 1);
      if q.stale > caps.maxStale then Round(q, held, Stop(Stale(error)), []) else LookFor(q, held, r)
  }

  function ErrorOf(r: Reply): string { if r.Refused? || r.Failed? then r.error else "" }

  /** Dispatches one operation; `r1` answers the observation that may follow. */
  ghost function Performed(caps: Caps, p: Progress, m: Move, a: OfferedAction, op: Op, payload: Option<string>,
                           held: Forest, r0: Reply, r1: Reply): Round
  {
    After(HostSession.Request.Dispatch(m.d.actionId, op),
          if r0.Accepted? then Settled(caps, p, m, a, payload, held, r1)
          else Rejected(caps, p, held, ErrorOf(r0), r1))
  }

  /** The text of a field comes from a resolver, or from nowhere. */
  function Payload(o: Outside, p: Progress, m: Move, a: OfferedAction): Result<Option<string>>
  {
    if m.d.kind.KType? || m.d.kind.KSetValue? then
      match o.text(p.asked, m.goal, a, p.typed)
      case Ok(text) => Ok(Some(text))
      case Err(reason) => Err(reason)
    else Ok(None)
  }

  function ArgsAt(o: Outside, p: Progress, m: Move): string -> Result<Value>
  {
    (name: string) => o.args(p.asked, name, m.clause)
  }

  /** Sends the action a policy chose. */
  ghost function Acted(w: Setting, space: Space, p: Progress, m: Move, held: Forest, r0: Reply, r1: Reply): Round
  {
    if m.d.actionId !in space then Round(p, held, Fail(LeftTheSpace), [])
    else
      var a := space[m.d.actionId];
      match Payload(w.o, p, m, a)
      case Err(reason) =>
        Round(p, held, Stop(if Mentions(reason, ESCALATION) then BadReply(reason) else NoText(reason)), [])
      case Ok(payload) =>
        match OpFor(m.d, a, payload, w.bindings, ArgsAt(w.o, p, m))
        case Err(e) => Round(p, held, Fail(Undispatchable(e)), [])
        case Ok(op) => Performed(w.caps, p, m, a, op, payload, held, r0, r1)
  }

  /** Carries out a decision. */
  ghost function Followed(w: Setting, space: Space, p: Progress, m: Move, held: Forest, r0: Reply, r1: Reply): Round
  {
    match m.d.kind
    case KDone =>
      Round(p.(clause := p.clause + 1), held, if p.clause + 1 >= |w.clauses| then Stop(Done) else Go, [])
    case KBlocked => Round(p, held, Stop(ChoseBlocked), [])
    case KWait => Paused(w.caps, p, held, CapHit, r0)
    case _ => Acted(w, space, p, m, held, r0, r1)
  }

  function SpaceOf(w: Setting, held: Forest): Space
  {
    FromTree(held, w.bindings, w.o.invokes, w.fp, w.o.risky)
  }

  /** One round: a wait clause ends when its name is on screen; any other clause goes by the policy's answer. */
  ghost function Turned(w: Setting, p: Progress, held: Forest, r0: Reply, r1: Reply): Round
  {
    if p.clause >= |w.clauses| then Round(p, held, Stop(Done), [])
    else
      var clause := w.o.wording(w.clauses[p.clause], p.typed);
      match w.o.mode(clause)
      case WaitFor(name) =>
        if w.o.shows(held, name) then Round(p.(clause := p.clause + 1), held, Go, [])
        else Paused(w.caps, p, held, OverWait(name), r0)
      case Act(goal) =>
        match w.o.policy(p.asked, SpaceOf(w, held), goal, p.history)
        case Err(e) => Round(p, held, Fail(PolicyFailed(e)), [])
        case Ok(Abstain(reason, _, _)) =>
          var outcome := if StartsWith(reason, ESCALATION) then BadReply(reason) else Outcome.Abstained(reason);
          Round(p, held, Stop(outcome), [])
        case Ok(Choice(d)) =>
          Followed(w, SpaceOf(w, held), p.(asked := p.asked + 1), Move(clause, goal, d), held, r0, r1)
  }

  predicate Mentions(s: string, part: string)
  {
    exists i :: 0 <= i <= |s| && StartsWith(s[i..], part)
  }

  // ----- the whole run

  datatype Ended = Finished(receipt: Receipt) | Broke(failure: Failure)

  /** How a run ends, in which state of the loop, and what it asked on the way. */
  datatype Played = Played(ended: Ended, last: Progress, asked: seq<Request>)

  const FRESH := Progress(0, [], [], [], 0, 0, 0, 0)

  function At(rs: seq<Reply>, i: nat): Reply { if i < |rs| then rs[i] else Failed(LOST) }

  function Drop(rs: seq<Reply>, n: nat): seq<Reply> { if n <= |rs| then rs[n..] else [] }

  function Then(asked: seq<Request>, r: Played): Played { r.(asked := asked + r.asked) }

  /** The loop from here on, when the calls still to come are answered `rs`. */
  ghost function Loop(w: Setting, p: Progress, held: Forest, rs: seq<Reply>): Played
    requires w.caps.poll > 0
    decreases w.caps.maxSteps - |p.steps|, |w.clauses| - p.clause, w.caps.maxStale - p.stale, w.caps.maxWait - p.waited
  {
    if |p.steps| >= w.caps.maxSteps then Played(Finished(Receipt(CapHit, p.steps)), p, [])
    else
      var t := Turned(w, p, held, At(rs, 0), At(rs, 1));
      match t.v
      case Stop(outcome) => Played(Finished(Receipt(outcome, t.q.steps)), t.q, t.asked)
      case Fail(failure) => Played(Broke(failure), t.q, t.asked)
      case Go =>
        RoundsMoveOn(w, p, held, At(rs, 0), At(rs, 1));
        Then(t.asked, Loop(w, t.q, t.nodes, Drop(rs, |t.asked|)))
  }

  /** A run observes, lists the keybindings, then loops. */
  ghost function Play(caps: Caps, o: Outside, clauses: seq<string>, fp: Fingerprint, rs: seq<Reply>): Played
    requires caps.poll > 0
  {
    match At(rs, 0)
    case Seen(nodes) =>
      (match At(rs, 1)
       case Listed(bindings) =>
         Then([Look, Catalog], Loop(Setting(caps, o, clauses, bindings, fp), FRESH, nodes, Drop(rs, 2)))
       case _ => Played(Broke(Transport), FRESH, [Look, Catalog]))
    case _ => Played(Broke(Transport), FRESH, [Look])
  }

  // ----- every round moves the loop on

  /** A round that goes on closes a clause, waits, is refused, or takes a step. */
  predicate MovesOn(w: Setting, p: Progress, q: Progress, calls: nat)
  {
    var r := q.(asked := p.asked);
    || (calls == 0 && p.clause < |w.clauses| && r == p.(clause := p.clause + 1))
    || (calls == 1 && p.waited < w.caps.maxWait && r == p.(waited := p.waited + w.caps.poll))
    || (calls == 2 && p.stale < w.caps.maxStale && r == p.(stale := p.stale + 1))
    || (calls == 2 && |q.steps| == |p.steps| + 1 && q.steps[..|p.steps|] == p.steps
        && q.clause == p.clause && q.waited == p.waited && q.stale == 0)
  }

  lemma {:induction false} PerformedMovesOn(w: Setting, p: Progress, m: Move, a: OfferedAction, op: Op,
                                            payload: Option<string>, held: Forest, r0: Reply, r1: Reply)
    ensures var t := Performed(w.caps, p, m, a, op, payload, held, r0, r1);
            t.v.Go? ==> MovesOn(w, p, t.q, |t.asked|)
  {
    hide Verified, IsStale;
  }

  lemma {:induction false} FollowedMovesOn(w: Setting, space: Space, p: Progress, m: Move, held: Forest,
                                           r0: Reply, r1: Reply)
    requires p.clause < |w.clauses|
    ensures var t := Followed(w, space, p, m, held, r0, r1);
            t.v.Go? ==> MovesOn(w, p, t.q, |t.asked|)
  {
    hide Performed, OpFor, Payload, Mentions;
    if !IsControl(m.d.kind) && m.d.actionId in space {
      var a := space[m.d.actionId];
      match Payload(w.o, p, m, a)
      case Ok(payload) =>
        match OpFor(m.d, a, payload, w.bindings, ArgsAt(w.o, p, m)) {
          case Ok(op) =>
            PerformedMovesOn(w, p, m, a, op, payload, held, r0, r1);
            hide MovesOn;
          case Err(_) =>
        }
      case Err(_) =>
    }
  }

  /** Every round that goes on moves the loop forward: steps, then clauses, then refusals, then waiting time. */
  lemma {:induction false} RoundsMoveOn(w: Setting, p: Progress, held: Forest, r0: Reply, r1: Reply)
    ensures var t := Turned(w, p, held, r0, r1);
            t.v.Go? ==> MovesOn(w, p, t.q, |t.asked|)
  {
    hide Followed, SpaceOf, StartsWith;
    if p.clause < |w.clauses| {
      var clause := w.o.wording(w.clauses[p.clause], p.typed);
      match w.o.mode(clause)
      case WaitFor(_) =>
      case Act(goal) =>
        match w.o.policy(p.asked, SpaceOf(w, held), goal, p.history) {
          case Ok(Choice(d)) =>
            var next := p.(asked := p.asked + 1);
            FollowedMovesOn(w, SpaceOf(w, held), next, Move(clause, goal, d), held, r0, r1);
            CountingAside(w, p, Followed(w, SpaceOf(w, held), next, Move(clause, goal, d), held, r0, r1));
            hide MovesOn;
          case _ =>
        }
    }
  }

  lemma {:induction false} CountingAside(w: Setting, p: Progress, t: Round)
    ensures MovesOn(w, p.(asked := p.asked + 1), t.q, |t.asked|) ==> MovesOn(w, p, t.q, |t.asked|)
  {
    var r := t.q.(asked := p.asked);
    assert forall n :: p.(asked := p.asked + 1).(asked := n) == p.(asked := n);
  }

  /** The loop has moved on: in steps, then clauses, then refusals, then waiting time. */
  predicate Later(w: Setting, p: Progress, q: Progress)
  {
    || |p.steps| < |q.steps|
    || (q.steps == p.steps && p.clause < q.clause && p.clause < |w.clauses|)
    || (q.steps == p.steps && q.clause == p.clause && p.stale < q.stale <= w.caps.maxStale)
    || (q.steps == p.steps && q.clause == p.clause && q.stale == p.stale && p.waited < q.waited
        && p.waited < w.caps.maxWait)
  }

  /** Every round that goes on makes lexicographic progress. */
  lemma {:induction false} RoundsProgress(w: Setting, p: Progress, held: Forest, r0: Reply, r1: Reply)
    requires w.caps.poll > 0
    ensures var t := Turned(w, p, held, r0, r1);
            t.v.Go? ==> Later(w, p, t.q)
  {
    RoundsMoveOn(w, p, held, r0, r1);
    hide Turned;
    assert Turned(w, p, held, r0, r1).q.(asked := p.asked).steps == Turned(w, p, held, r0, r1).q.steps;
  }

  // ----- what the loop keeps

  /** How many of the latest steps had no effect, without interruption. */
  function Idle(steps: seq<StepRecord>): (n: nat)
    ensures n <= |steps|
  {
    if steps == [] || Effective(steps[|steps| - 1].verification) then 0 else 1 + Idle(steps[..|steps| - 1])
  }

  function StepIds(steps: seq<StepRecord>): seq<string>
  {
    if steps == [] then [] else StepIds(steps[..|steps| - 1]) + [steps[|steps| - 1].id]
  }

  /** Steps are numbered from one, the history repeats them, and no earlier step had to end the run. */
  ghost predicate Sound(caps: Caps, p: Progress)
  {
    && |p.steps| == |p.history| <= caps.maxSteps
    && (forall i :: 0 <= i < |p.steps| ==> p.steps[i].step == i + 1 && Repeats(p.history[i], p.steps[i]))
    && p.noEffect == Idle(p.steps)
    && (forall k :: 1 <= k < |p.steps| ==> Idle(p.steps[..k]) < caps.maxNoEffect)
    && p.waited < caps.maxWait + caps.poll
  }

  predicate Repeats(h: HistoryEntry, s: StepRecord)
  {
    h.step == s.step && h.actionId == s.id && KindName(h.kind) == s.op && h.title == s.name
        && h.verification == s.verification
  }

  /** The loop may go round again. */
  ghost predicate Running(caps: Caps, p: Progress)
  {
    Sound(caps, p) && p.stale <= caps.maxStale && (p.steps != [] ==> p.noEffect < caps.maxNoEffect)
  }

  lemma {:induction false} StepIsSound(caps: Caps, p: Progress, clause: string, d: Decision, payload: Option<string>,
                                       v: Verification)
    requires Running(caps, p) && |p.steps| < caps.maxSteps
    ensures var q := Step(p, clause, d, payload, v);
            && Sound(caps, q) && StepIds(q.steps) == StepIds(p.steps) + [d.actionId]
            && (q.noEffect < caps.maxNoEffect ==> Running(caps, q))
  {
    var q, last := Step(p, clause, d, payload, v), NewStep(p, clause, d, v);
    hide Idle, KindName, StepIds;
    StepIdsGrow(p.steps, last);
    IdleGrows(p.steps, last);
    IdleBefore(caps, p, last);
    forall i | 0 <= i < |q.steps| ensures q.steps[i].step == i + 1 && Repeats(q.history[i], q.steps[i]) {
      if i < |p.steps| { assert q.steps[i] == p.steps[i] && q.history[i] == p.history[i]; }
    }
    hide Repeats, NewStep, Effective;
  }

  lemma {:induction false} IdleBefore(caps: Caps, p: Progress, last: StepRecord)
    requires Running(caps, p)
    ensures forall k :: 1 <= k < |p.steps + [last]| ==> Idle((p.steps + [last])[..k]) < caps.maxNoEffect
  {
    hide Idle, Repeats;
    forall k | 1 <= k < |p.steps + [last]| ensures Idle((p.steps + [last])[..k]) < caps.maxNoEffect {
      assert (p.steps + [last])[..k] == p.steps[..k];
      assert p.steps[..|p.steps|] == p.steps;
    }
  }

  lemma {:induction false} StepIdsGrow(steps: seq<StepRecord>, s: StepRecord)
    ensures StepIds(steps + [s]) == StepIds(steps) + [s.id]
  {
    assert (steps + [s])[..|steps|] == steps;
  }

  lemma {:induction false} IdleGrows(steps: seq<StepRecord>, s: StepRecord)
    ensures Idle(steps + [s]) == if Effective(s.verification) then 0 else Idle(steps) + 1
  {
    assert (steps + [s])[..|steps|] == steps;
  }

  // ----- how a run may end

  /** What each outcome means; `clauses` is how many there were. */
  ghost predicate Justified(caps: Caps, clauses: nat, p: Progress, o: Outcome)
  {
    && (o.Done? <==> p.clause >= clauses && !o.CapHit?)
    && (o.CapHit? ==> |p.steps| == caps.maxSteps || p.waited >= caps.maxWait)
    && (o.OverWait? ==> p.waited >= caps.maxWait)
    && (o.NoEffects? <==> p.steps != [] && Idle(p.steps) >= caps.maxNoEffect)
    && (o.NoEffects? ==> o.count == Idle(p.steps))
    && (o.Stale? <==> p.stale > caps.maxStale)
    && (o.BadReply? ==> StartsWith(o.reason, ESCALATION) || Mentions(o.reason, ESCALATION))
    && (o.Abstained? ==> !StartsWith(o.reason, ESCALATION))
    && (o.NoText? ==> !Mentions(o.reason, ESCALATION))
  }

  /** A round keeps the loop's variables sound, and ends the run only for the reason it gives. */
  ghost predicate WellTurned(caps: Caps, clauses: nat, p: Progress, t: Round)
  {
    Running(caps, p) && |p.steps| < caps.maxSteps && p.clause <= clauses ==>
      && (t.v.Go? ==> Running(caps, t.q) && t.q.clause <= clauses)
      && (t.v.Stop? ==> Sound(caps, t.q) && Justified(caps, clauses, t.q, t.v.outcome))
  }

  lemma {:induction false} PausedWell(caps: Caps, clauses: nat, p: Progress, held: Forest, late: Outcome, r: Reply)
    requires caps.poll > 0 && p.clause < clauses && (late.CapHit? || late.OverWait?)
    ensures WellTurned(caps, clauses, p, Paused(caps, p, held, late, r))
  {
    hide Idle, Repeats, StartsWith, Mentions;
  }

  lemma {:induction false} SettledWell(caps: Caps, clauses: nat, p: Progress, m: Move, a: OfferedAction,
                                       payload: Option<string>, held: Forest, r: Reply)
    requires p.clause < clauses
    ensures WellTurned(caps, clauses, p, Settled(caps, p, m, a, payload, held, r))
  {
    hide Verified, Repeats, StepIds, StartsWith, Mentions, Idle;
    if r.Seen? && Running(caps, p) && |p.steps| < caps.maxSteps {
      var v := Verified(m.d, a, payload, held, r.nodes);
      StepIsSound(caps, p, m.clause, m.d, payload, v);
      var q := Step(p, m.clause, m.d, payload, v);
      assert q.clause == p.clause && q.stale == 0 && q.steps != [];
      assert q.noEffect == Idle(q.steps) by { hide Running; }
      hide Step, Running, Sound;
    } else { hide Running, Sound, Justified; }
  }

  lemma {:induction false} RejectedWell(caps: Caps, clauses: nat, p: Progress, held: Forest, error: string, r: Reply)
    requires p.clause < clauses
    ensures WellTurned(caps, clauses, p, Rejected(caps, p, held, error, r))
  {
    hide Idle, Repeats, StartsWith, Mentions, IsStale;
  }

  lemma {:induction false} ActedWell(w: Setting, space: Space, p: Progress, m: Move, held: Forest, r0: Reply, r1: Reply)
    requires p.clause < |w.clauses|
    ensures WellTurned(w.caps, |w.clauses|, p, Acted(w, space, p, m, held, r0, r1))
  {
    if m.d.actionId in space {
      var a := space[m.d.actionId];
      match Payload(w.o, p, m, a)
      case Err(reason) => hide Payload, Idle, Repeats, StartsWith, Mentions;
      case Ok(payload) =>
        SettledWell(w.caps, |w.clauses|, p, m, a, payload, held, r1);
        RejectedWell(w.caps, |w.clauses|, p, held, ErrorOf(r0), r1);
        hide Payload, OpFor, Settled, Rejected, Running, Sound, Justified;
    } else { hide Running, Sound; }
  }

  lemma {:induction false} FollowedWell(w: Setting, space: Space, p: Progress, m: Move, held: Forest,
                                        r0: Reply, r1: Reply)
    requires w.caps.poll > 0 && p.clause < |w.clauses|
    ensures WellTurned(w.caps, |w.clauses|, p, Followed(w, space, p, m, held, r0, r1))
  {
    hide Paused, Acted, Idle, Repeats, StartsWith, Mentions;
    match m.d.kind
    case KDone => hide Repeats;
    case KBlocked =>
    case KWait =>
      PausedWell(w.caps, |w.clauses|, p, held, CapHit, r0);
      hide WellTurned;
    case _ =>
      ActedWell(w, space, p, m, held, r0, r1);
      hide WellTurned;
  }

  lemma {:induction false} TurnedWell(w: Setting, p: Progress, held: Forest, r0: Reply, r1: Reply)
    requires w.caps.poll > 0
    ensures WellTurned(w.caps, |w.clauses|, p, Turned(w, p, held, r0, r1))
  {
    hide Followed, Paused, SpaceOf, Idle, Repeats, StartsWith, Mentions;
    if p.clause < |w.clauses| {
      var clause := w.o.wording(w.clauses[p.clause], p.typed);
      match w.o.mode(clause)
      case WaitFor(name) => PausedWell(w.caps, |w.clauses|, p, held, OverWait(name), r0);
      case Act(goal) =>
        match w.o.policy(p.asked, SpaceOf(w, held), goal, p.history) {
          case Ok(Choice(d)) =>
            FollowedWell(w, SpaceOf(w, held), p.(asked := p.asked + 1), Move(clause, goal, d), held, r0, r1);
          case _ =>
        }
    }
  }

  lemma {:induction false} LoopWell(w: Setting, p: Progress, held: Forest, rs: seq<Reply>)
    requires w.caps.poll > 0 && Running(w.caps, p) && p.clause <= |w.clauses|
    ensures var r := Loop(w, p, held, rs);
            r.ended.Finished? ==>
              && r.ended.receipt.steps == r.last.steps && Sound(w.caps, r.last)
              && Justified(w.caps, |w.clauses|, r.last, r.ended.receipt.outcome)
    decreases w.caps.maxSteps - |p.steps|, |w.clauses| - p.clause, w.caps.maxStale - p.stale, w.caps.maxWait - p.waited
  {
    if |p.steps| < w.caps.maxSteps {
      var t := Turned(w, p, held, At(rs, 0), At(rs, 1));
      TurnedWell(w, p, held, At(rs, 0), At(rs, 1));
      if t.v.Go? {
        RoundsMoveOn(w, p, held, At(rs, 0), At(rs, 1));
        assert w.caps.poll > 0 && Running(w.caps, t.q) && t.q.clause <= |w.clauses|;
        hide Turned, At, Running, Sound, Justified;
        LoopWell(w, t.q, t.nodes, Drop(rs, |t.asked|));
      }
      hide Turned, At, Running, Sound, Justified, MovesOn;
    } else {
      CapIsJustified(w.caps, |w.clauses|, p);
      hide Turned, Justified;
    }
  }

  lemma {:induction false} CapIsJustified(caps: Caps, clauses: nat, p: Progress)
    requires Running(caps, p) && |p.steps| == caps.maxSteps
    ensures Justified(caps, clauses, p, CapHit)
  {
  }

  /** Over every run the receipt's steps are numbered from one and repeated by the history, no earlier step had
      to end the run, and the outcome means what it says of the variables the run ends with. */
  lemma {:induction false} OutcomesAreJustified(caps: Caps, o: Outside, clauses: seq<string>, fp: Fingerprint,
                                                rs: seq<Reply>)
    requires caps.poll > 0
    ensures var r := Play(caps, o, clauses, fp, rs);
            r.ended.Finished? ==>
              && r.ended.receipt.steps == r.last.steps && Sound(caps, r.last)
              && Justified(caps, |clauses|, r.last, r.ended.receipt.outcome)
  {
    assert Running(caps, FRESH);
    hide Running, Sound, Justified, Loop;
    match At(rs, 0)
    case Seen(nodes) =>
      match At(rs, 1) {
        case Listed(bindings) => LoopWell(Setting(caps, o, clauses, bindings, fp), FRESH, nodes, Drop(rs, 2));
        case _ =>
      }
    case _ =>
  }

  // ----- the steps are the accepted dispatches

  /** A run that finishes has a step for each accepted dispatch; one that breaks may lack the last. */
  predicate Recorded(ids: seq<string>, accepted: seq<string>, finished: bool)
  {
    ids <= accepted && |accepted| <= |ids| + 1 && (finished ==> ids == accepted)
  }

  ghost predicate TurnRecords(p: Progress, t: Round, r0: Reply, r1: Reply)
  {
    && |t.asked| <= 2
    && StepIds(p.steps) <= StepIds(t.q.steps)
    && Recorded(StepIds(t.q.steps), StepIds(p.steps) + AcceptedOf(t.asked, [r0, r1][..|t.asked|]), !t.v.Fail?)
  }

  /** A round without a dispatch. */
  predicate Idles(p: Progress, t: Round)
  {
    (t.asked == [] || t.asked == [Look]) && t.q.steps == p.steps
  }

  lemma {:induction false} IdlingRecords(p: Progress, t: Round, r0: Reply, r1: Reply)
    requires Idles(p, t)
    ensures TurnRecords(p, t, r0, r1)
  {
    if t.asked == [Look] {
      assert [r0, r1][..1] == [r0];
      assert [Look][..0] == [];
      assert AcceptedOf([Look], [r0]) == [] by { hide StepIds; }
    } else {
      assert [r0, r1][..0] == [];
      assert AcceptedOf([], []) == [];
    }
    hide AcceptedOf, StepIds;
    assert StepIds(p.steps) + [] == StepIds(p.steps);
  }

  lemma {:induction false} DispatchAccepts(id: string, op: Op, r0: Reply, r1: Reply)
    ensures var a := HostSession.Request.Dispatch(id, op);
            var ids := if r0.Accepted? then [id] else [];
            AcceptedOf([a], [r0]) == ids && AcceptedOf([a, Look], [r0, r1]) == ids
  {
    var a := HostSession.Request.Dispatch(id, op);
    assert [a][..0] == [] && [r0][..0] == [];
    assert [a, Look][..1] == [a] && [r0, r1][..1] == [r0];
    assert AcceptedOf([a], [r0]) == if r0.Accepted? then [id] else [];
  }

  lemma {:induction false} SettledSteps(caps: Caps, p: Progress, m: Move, a: OfferedAction, payload: Option<string>,
                                        held: Forest, r: Reply)
    ensures var t := Settled(caps, p, m, a, payload, held, r);
            && t.asked == [Look]
            && StepIds(t.q.steps) == StepIds(p.steps) + if t.v.Fail? then [] else [m.d.actionId]
  {
    assert StepIds(p.steps) + [] == StepIds(p.steps);
    match r
    case Seen(nodes) =>
      var v := Verified(m.d, a, payload, held, nodes);
      StepIdsGrow(p.steps, NewStep(p, m.clause, m.d, v));
      hide StepIds, Verified;
    case _ => hide StepIds;
  }

  /** A dispatch and what follows it: a step if it was accepted and then observed, and nothing otherwise. */
  lemma {:induction false} DispatchRecords(p: Progress, id: string, op: Op, t: Round, r0: Reply, r1: Reply)
    requires t.asked == [] || t.asked == [Look]
    requires StepIds(t.q.steps) == StepIds(p.steps) + if r0.Accepted? && !t.v.Fail? then [id] else []
    ensures TurnRecords(p, After(HostSession.Request.Dispatch(id, op), t), r0, r1)
  {
    hide AcceptedOf, StepIds;
    DispatchAccepts(id, op, r0, r1);
    var a := HostSession.Request.Dispatch(id, op);
    assert StepIds(p.steps) + [] == StepIds(p.steps);
    if t.asked == [] {
      assert [a] + t.asked == [a] && [r0, r1][..1] == [r0];
    } else {
      assert [a] + t.asked == [a, Look] && [r0, r1][..2] == [r0, r1];
    }
  }

  lemma {:induction false} PerformedRecords(caps: Caps, p: Progress, m: Move, a: OfferedAction, op: Op,
                                            payload: Option<string>, held: Forest, r0: Reply, r1: Reply)
    ensures TurnRecords(p, Performed(caps, p, m, a, op, payload, held, r0, r1), r0, r1)
  {
    SettledSteps(caps, p, m, a, payload, held, r1);
    var t := if r0.Accepted? then Settled(caps, p, m, a, payload, held, r1)
             else Rejected(caps, p, held, ErrorOf(r0), r1);
    assert StepIds(p.steps) + [] == StepIds(p.steps);
    hide StepIds, Settled, TurnRecords, IsStale;
    DispatchRecords(p, m.d.actionId, op, t, r0, r1);
  }

  lemma {:induction false} FollowedRecords(w: Setting, space: Space, p: Progress, m: Move, held: Forest,
                                           r0: Reply, r1: Reply)
    ensures TurnRecords(p, Followed(w, space, p, m, held, r0, r1), r0, r1)
  {
    var t := Followed(w, space, p, m, held, r0, r1);
    hide Performed, OpFor, Payload, Mentions, TurnRecords;
    if IsControl(m.d.kind) {
      IdlingRecords(p, t, r0, r1);
    } else if m.d.actionId !in space {
      IdlingRecords(p, t, r0, r1);
    } else {
      var a := space[m.d.actionId];
      match Payload(w.o, p, m, a)
      case Ok(payload) =>
        match OpFor(m.d, a, payload, w.bindings, ArgsAt(w.o, p, m)) {
          case Ok(op) => PerformedRecords(w.caps, p, m, a, op, payload, held, r0, r1);
          case Err(_) => IdlingRecords(p, t, r0, r1);
        }
      case Err(_) => IdlingRecords(p, t, r0, r1);
    }
  }

  lemma {:induction false} TurnedRecords(w: Setting, p: Progress, held: Forest, r0: Reply, r1: Reply)
    ensures TurnRecords(p, Turned(w, p, held, r0, r1), r0, r1)
  {
    var t := Turned(w, p, held, r0, r1);
    hide Followed, SpaceOf, StartsWith, TurnRecords;
    if p.clause >= |w.clauses| {
      IdlingRecords(p, t, r0, r1);
    } else {
      var clause := w.o.wording(w.clauses[p.clause], p.typed);
      match w.o.mode(clause)
      case WaitFor(_) => IdlingRecords(p, t, r0, r1);
      case Act(goal) =>
        match w.o.policy(p.asked, SpaceOf(w, held), goal, p.history) {
          case Ok(Choice(d)) =>
            var next := p.(asked := p.asked + 1);
            FollowedRecords(w, SpaceOf(w, held), next, Move(clause, goal, d), held, r0, r1);
            SameStepsRecord(next, p, t, r0, r1);
          case _ => IdlingRecords(p, t, r0, r1);
        }
    }
  }

  lemma {:induction false} SameStepsRecord(p: Progress, q: Progress, t: Round, r0: Reply, r1: Reply)
    requires p.steps == q.steps && TurnRecords(p, t, r0, r1)
    ensures TurnRecords(q, t, r0, r1)
  {
  }

  lemma {:induction false} RecordsChain(ids: seq<string>, mid: seq<string>, last: seq<string>, a: seq<Request>,
                                        b: seq<Request>, rs: seq<Reply>, finished: bool)
    requires |a| + |b| <= |rs|
    requires Recorded(mid, ids + AcceptedOf(a, rs[..|a|]), true)
    requires Recorded(last, mid + AcceptedOf(b, rs[|a|..][..|b|]), finished)
    ensures Recorded(last, ids + AcceptedOf(a + b, rs[..|a + b|]), finished)
  {
    assert rs[..|a + b|] == rs[..|a|] + rs[|a|..][..|b|];
    hide AcceptedOf;
    AnswersConcat(a, rs[..|a|], b, rs[|a|..][..|b|]);
    assert ids + (AcceptedOf(a, rs[..|a|]) + AcceptedOf(b, rs[|a|..][..|b|]))
        == (ids + AcceptedOf(a, rs[..|a|])) + AcceptedOf(b, rs[|a|..][..|b|]);
  }

  lemma {:induction false} RoundRecords(w: Setting, p: Progress, held: Forest, rs: seq<Reply>)
    requires |Turned(w, p, held, At(rs, 0), At(rs, 1)).asked| <= |rs|
    ensures var t := Turned(w, p, held, At(rs, 0), At(rs, 1));
            Recorded(StepIds(t.q.steps), StepIds(p.steps) + AcceptedOf(t.asked, rs[..|t.asked|]), !t.v.Fail?)
  {
    hide Turned, StepIds, AcceptedOf, Recorded;
    var t := Turned(w, p, held, At(rs, 0), At(rs, 1));
    TurnedRecords(w, p, held, At(rs, 0), At(rs, 1));
    assert rs[..|t.asked|] == [At(rs, 0), At(rs, 1)][..|t.asked|];
  }

  lemma {:induction false} LoopRecords(w: Setting, p: Progress, held: Forest, rs: seq<Reply>)
    requires w.caps.poll > 0 && |Loop(w, p, held, rs).asked| <= |rs|
    ensures var r := Loop(w, p, held, rs);
            Recorded(StepIds(r.last.steps), StepIds(p.steps) + AcceptedOf(r.asked, rs[..|r.asked|]), r.ended.Finished?)
    decreases w.caps.maxSteps - |p.steps|, |w.clauses| - p.clause, w.caps.maxStale - p.stale, w.caps.maxWait - p.waited
  {
    var r := Loop(w, p, held, rs);
    if |p.steps| >= w.caps.maxSteps {
      assert r.asked == [] && r.last == p;
      hide Turned, Loop;
      assert AcceptedOf([], []) == [] && StepIds(p.steps) + [] == StepIds(p.steps);
      hide *;
    } else {
      var t := Turned(w, p, held, At(rs, 0), At(rs, 1));
      hide Turned, StepIds, AcceptedOf, Recorded, At;
      RoundRecords(w, p, held, rs);
      if t.v.Go? {
        RoundsMoveOn(w, p, held, At(rs, 0), At(rs, 1));
        var rest := Loop(w, t.q, t.nodes, Drop(rs, |t.asked|));
        assert r == Then(t.asked, rest);
        hide Loop;
        LoopRecords(w, t.q, t.nodes, Drop(rs, |t.asked|));
        hide MovesOn;
        RecordsChain(StepIds(p.steps), StepIds(t.q.steps), StepIds(rest.last.steps), t.asked, rest.asked, rs,
            rest.ended.Finished?);
      }
    }
  }

  lemma {:induction false} FreshLoopRecords(w: Setting, held: Forest, rs: seq<Reply>)
    requires w.caps.poll > 0 && |rs| >= 2 && |Loop(w, FRESH, held, rs[2..]).asked| == |rs| - 2
    ensures var r := Loop(w, FRESH, held, rs[2..]);
            Recorded(StepIds(r.last.steps), AcceptedOf([Look, Catalog] + r.asked, rs), r.ended.Finished?)
  {
    var r := Loop(w, FRESH, held, rs[2..]);
    assert StepIds(FRESH.steps) == [] && rs[..|rs|] == rs;
    hide StepIds, Loop, AcceptedOf;
    LoopRecords(w, FRESH, held, rs[2..]);
    NothingAccepted(rs);
    assert Recorded([], [] + AcceptedOf([Look, Catalog], rs[..2]), true);
    hide Recorded;
    RecordsChain([], [], StepIds(r.last.steps), [Look, Catalog], r.asked, rs, r.ended.Finished?);
    assert [] + AcceptedOf([Look, Catalog] + r.asked, rs) == AcceptedOf([Look, Catalog] + r.asked, rs);
  }

  /** Over every run the ids of the steps are those of the dispatches that were accepted, in order, but for one
      accepted just before a run breaks. */
  lemma {:induction false} StepsAreAccepted(caps: Caps, o: Outside, clauses: seq<string>, fp: Fingerprint,
                                            rs: seq<Reply>)
    requires caps.poll > 0 && |Play(caps, o, clauses, fp, rs).asked| == |rs|
    ensures var r := Play(caps, o, clauses, fp, rs);
            Recorded(StepIds(r.last.steps), AcceptedOf(r.asked, rs), r.ended.Finished?)
  {
    assert StepIds(FRESH.steps) == [] && rs[..|rs|] == rs;
    hide StepIds, Loop, AcceptedOf;
    NothingAccepted(rs);
    match At(rs, 0)
    case Seen(nodes) =>
      match At(rs, 1) {
        case Listed(bindings) =>
          hide Recorded;
          FreshLoopRecords(Setting(caps, o, clauses, bindings, fp), nodes, rs);
        case _ =>
      }
    case _ =>
  }

  lemma {:induction false} NothingAccepted(rs: seq<Reply>)
    ensures |rs| >= 1 ==> AcceptedOf([Look], rs[..1]) == []
    ensures |rs| >= 2 ==> AcceptedOf([Look, Catalog], rs[..2]) == []
  {
    assert [Look][..0] == [] && [Look, Catalog][..1] == [Look];
    if |rs| >= 2 { assert rs[..2][..1] == rs[..1]; }
  }

  // ----- the call budget

  function WaitsLeft(caps: Caps, waited: nat): nat
    requires caps.poll > 0
  {
    if waited >= caps.maxWait then 0 else (caps.maxWait - waited + caps.poll - 1) / caps.poll
  }

  /** How many calls a loop in this state may still make. */
  function Budget(caps: Caps, p: Progress): int
    requires caps.poll > 0
  {
    WaitsLeft(caps, p.waited) + 2 * ((caps.maxSteps - |p.steps|) * (1 + caps.maxStale) - p.stale)
  }

  lemma {:induction false} TimesAtLeast(d: int, k: int)
    requires k > 0
    ensures (d >= 1 ==> d * k >= k) && (d <= -1 ==> d * k <= -k)
  {
    if d >= 1 { assert (d - 1) * k >= 0; }
    if d <= -1 { assert (-d - 1) * k >= 0; }
  }

  lemma {:induction false} QuotientIs(a: int, k: int, q: int, r: int)
    requires k > 0 && a == q * k + r && 0 <= r < k
    ensures a / k == q
  {
    var d := a / k - q;
    assert d * k == (a / k) * k - q * k;
    assert (a / k) * k + a % k == a;
    assert d * k == r - a % k;
    TimesAtLeast(d, k);
  }

  lemma {:induction false} OneMoreRound(x: int, k: int)
    requires k > 0
    ensures (x + k) / k == x / k + 1
  {
    var q, r := x / k, x % k;
    assert x == q * k + r;
    assert x + k == (q + 1) * k + r;
    QuotientIs(x + k, k, q + 1, r);
  }

  lemma {:induction false} WaitTakesOne(caps: Caps, waited: nat)
    requires caps.poll > 0 && waited < caps.maxWait
    ensures WaitsLeft(caps, waited + caps.poll) + 1 == WaitsLeft(caps, waited)
  {
    var d, k := caps.maxWait - waited, caps.poll;
    if d > k { OneMoreRound(d - 1, k); OneMoreRound(d - 1 - k, k); } else { QuotientIs(d + k - 1, k, 1, d - 1); }
  }

  lemma {:induction false} Distribute(n: int, m: int)
    ensures (n - 1) * m == n * m - m
  {
  }

  /** No refusal is left over once the steps are used up. */
  predicate InBudget(caps: Caps, p: Progress)
  {
    p.stale <= caps.maxStale && |p.steps| <= caps.maxSteps && (|p.steps| == caps.maxSteps ==> p.stale == 0)
  }

  /** No round that goes on spends more than the budget it uses up. */
  lemma {:induction false} RoundsArePaidFor(w: Setting, p: Progress, q: Progress, calls: nat)
    requires w.caps.poll > 0 && InBudget(w.caps, p) && |p.steps| < w.caps.maxSteps && MovesOn(w, p, q, calls)
    ensures calls + Budget(w.caps, q) <= Budget(w.caps, p) && InBudget(w.caps, q)
  {
    var caps := w.caps;
    var r := q.(asked := p.asked);
    assert r.steps == q.steps && r.stale == q.stale && r.waited == q.waited;
    if calls == 1 { WaitTakesOne(caps, p.waited); }
    if |q.steps| == |p.steps| + 1 {
      var left := caps.maxSteps - |p.steps|;
      Distribute(left, 1 + caps.maxStale);
      assert caps.maxSteps - |q.steps| == left - 1;
    }
  }

  lemma {:induction false} BudgetLeft(caps: Caps, p: Progress)
    requires caps.poll > 0 && InBudget(caps, p)
    ensures Budget(caps, p) >= if |p.steps| < caps.maxSteps then 2 else 0
  {
    var left, m := caps.maxSteps - |p.steps|, 1 + caps.maxStale;
    if left >= 1 { Distribute(left, m); assert (left - 1) * m >= 0; }
  }

  lemma {:induction false} LoopIsBounded(w: Setting, p: Progress, held: Forest, rs: seq<Reply>)
    requires w.caps.poll > 0 && InBudget(w.caps, p)
    ensures |Loop(w, p, held, rs).asked| <= Budget(w.caps, p)
    decreases w.caps.maxSteps - |p.steps|, |w.clauses| - p.clause, w.caps.maxStale - p.stale, w.caps.maxWait - p.waited
  {
    BudgetLeft(w.caps, p);
    if |p.steps| < w.caps.maxSteps {
      var t := Turned(w, p, held, At(rs, 0), At(rs, 1));
      TurnedRecords(w, p, held, At(rs, 0), At(rs, 1));
      assert |t.asked| <= 2;
      hide TurnRecords;
      if t.v.Go? {
        RoundsMoveOn(w, p, held, At(rs, 0), At(rs, 1));
        RoundsArePaidFor(w, p, t.q, |t.asked|);
        hide Turned, Budget, At, InBudget;
        LoopIsBounded(w, t.q, t.nodes, Drop(rs, |t.asked|));
      }
      hide Turned, Budget, At, InBudget;
    }
  }

  function CallBound(caps: Caps): nat
    requires caps.poll > 0
  {
    2 + (caps.maxWait + caps.poll - 1) / caps.poll + 2 * caps.maxSteps * (1 + caps.maxStale)
  }

  lemma {:induction false} FreshBudget(caps: Caps)
    requires caps.poll > 0
    ensures 2 + Budget(caps, FRESH) == CallBound(caps)
    ensures InBudget(caps, FRESH)
  {
    if caps.maxWait == 0 { QuotientIs(caps.poll - 1, caps.poll, 0, caps.poll - 1); }
    assert 2 * (caps.maxSteps * (1 + caps.maxStale)) == 2 * caps.maxSteps * (1 + caps.maxStale);
  }

  /** Whatever its calls are answered and whatever the policy says, a run ends within this many calls. */
  lemma {:induction false} CallsAreBounded(caps: Caps, o: Outside, clauses: seq<string>, fp: Fingerprint,
                                           rs: seq<Reply>)
    requires caps.poll > 0
    ensures |Play(caps, o, clauses, fp, rs).asked| <= CallBound(caps)
  {
    FreshBudget(caps);
    BudgetLeft(caps, FRESH);
    match At(rs, 0)
    case Seen(nodes) =>
      match At(rs, 1) {
        case Listed(bindings) => LoopIsBounded(Setting(caps, o, clauses, bindings, fp), FRESH, nodes, Drop(rs, 2));
        case _ =>
      }
    case _ =>
    hide Loop, Budget, CallBound;
  }

  // ----- the last round

  /** Where a round starts: the loop's variables, the tree held, and how many replies came before. */
  datatype Stand = Stand(p: Progress, held: Forest, used: nat)

  /** Where the loop's last round starts. */
  ghost function LastRound(w: Setting, p: Progress, held: Forest, rs: seq<Reply>): Stand
    requires w.caps.poll > 0
    decreases w.caps.maxSteps - |p.steps|, |w.clauses| - p.clause, w.caps.maxStale - p.stale, w.caps.maxWait - p.waited
  {
    if |p.steps| >= w.caps.maxSteps then Stand(p, held, 0)
    else
      var t := Turned(w, p, held, At(rs, 0), At(rs, 1));
      if !t.v.Go? then Stand(p, held, 0)
      else
        RoundsMoveOn(w, p, held, At(rs, 0), At(rs, 1));
        var last := LastRound(w, t.q, t.nodes, Drop(rs, |t.asked|));
        last.(used := |t.asked| + last.used)
  }

  function VerdictOf(e: Ended): Verdict
  {
    match e case Finished(receipt) => Stop(receipt.outcome) case Broke(failure) => Fail(failure)
  }

  lemma {:induction false} AtDropped(rs: seq<Reply>, n: nat, i: nat)
    ensures At(Drop(rs, n), i) == At(rs, n + i)
  {
  }

  /** The loop ends as its last round says, or because its steps were used up before it. */
  lemma {:induction false} EndsInLastRound(w: Setting, p: Progress, held: Forest, rs: seq<Reply>)
    requires w.caps.poll > 0
    ensures var at, r := LastRound(w, p, held, rs), Loop(w, p, held, rs);
            if |at.p.steps| >= w.caps.maxSteps then VerdictOf(r.ended) == Stop(CapHit)
            else
              var t := Turned(w, at.p, at.held, At(rs, at.used), At(rs, at.used + 1));
              !t.v.Go? && VerdictOf(r.ended) == t.v && at.used + |t.asked| == |r.asked|
    decreases w.caps.maxSteps - |p.steps|, |w.clauses| - p.clause, w.caps.maxStale - p.stale, w.caps.maxWait - p.waited
  {
    hide Turned, At, Drop;
    if |p.steps| < w.caps.maxSteps {
      var t := Turned(w, p, held, At(rs, 0), At(rs, 1));
      if t.v.Go? {
        var n := |t.asked|;
        var last, rest := LastRound(w, t.q, t.nodes, Drop(rs, n)), Loop(w, t.q, t.nodes, Drop(rs, n));
        assert LastRound(w, p, held, rs) == last.(used := n + last.used);
        assert Loop(w, p, held, rs) == Then(t.asked, rest);
        hide LastRound, Loop;
        RoundsMoveOn(w, p, held, At(rs, 0), At(rs, 1));
        EndsInLastRound(w, t.q, t.nodes, Drop(rs, n));
        AtDropped(rs, n, last.used);
        AtDropped(rs, n, last.used + 1);
        hide MovesOn;
      }
    }
  }

  /** The setting a run's loop goes by, and where its last round starts. */
  function SettingOf(caps: Caps, o: Outside, clauses: seq<string>, fp: Fingerprint, rs: seq<Reply>): Setting
  {
    Setting(caps, o, clauses, if At(rs, 1).Listed? then At(rs, 1).bindings else [], fp)
  }

  ghost function LastOf(caps: Caps, o: Outside, clauses: seq<string>, fp: Fingerprint, rs: seq<Reply>): Stand
    requires caps.poll > 0
  {
    if At(rs, 0).Seen? && At(rs, 1).Listed? then
      var last := LastRound(SettingOf(caps, o, clauses, fp, rs), FRESH, At(rs, 0).nodes, Drop(rs, 2));
      last.(used := 2 + last.used)
    else Stand(FRESH, [], 0)
  }

  /** A run ends before its loop, with its steps used up, or as the loop's last round says. */
  lemma {:induction false} RunEndsInLastRound(caps: Caps, o: Outside, clauses: seq<string>, fp: Fingerprint,
                                              rs: seq<Reply>)
    requires caps.poll > 0
    ensures var w, at, r := SettingOf(caps, o, clauses, fp, rs), LastOf(caps, o, clauses, fp, rs),
              Play(caps, o, clauses, fp, rs);
            || VerdictOf(r.ended) == Fail(Transport)
            || VerdictOf(r.ended) == Stop(CapHit)
            || (var t := Turned(w, at.p, at.held, At(rs, at.used), At(rs, at.used + 1));
                !t.v.Go? && VerdictOf(r.ended) == t.v && at.used + |t.asked| == |r.asked|)
  {
    hide Loop, LastRound, Turned;
    if At(rs, 0).Seen? && At(rs, 1).Listed? {
      var w, nodes := SettingOf(caps, o, clauses, fp, rs), At(rs, 0).nodes;
      EndsInLastRound(w, FRESH, nodes, Drop(rs, 2));
      var last := LastRound(w, FRESH, nodes, Drop(rs, 2));
      AtDropped(rs, 2, last.used);
      AtDropped(rs, 2, last.used + 1);
      hide Drop;
    }
  }

  // ----- what is asked in a round

  function ClauseAt(w: Setting, p: Progress): string
    requires p.clause < |w.clauses|
  {
    w.o.wording(w.clauses[p.clause], p.typed)
  }

  /** The round that starts here asks the policy. */
  predicate Asks(w: Setting, p: Progress)
  {
    p.clause < |w.clauses| && w.o.mode(ClauseAt(w, p)).Act?
  }

  /** The policy's answer in the round that starts here. */
  function AnswerAt(w: Setting, p: Progress, held: Forest): Result<PolicyOutcome>
    requires Asks(w, p)
  {
    w.o.policy(p.asked, SpaceOf(w, held), w.o.mode(ClauseAt(w, p)).goal, p.history)
  }

  // ----- a policy that keeps to the menu

  ghost predicate Unresolved(o: Outside, k: nat, clause: string, error: string)
  {
    exists name: string :: o.args(k, name, clause) == Err(error)
  }

  /** The arguments asked for in the round that starts here do not resolve. */
  ghost predicate ArgsFail(w: Setting, p: Progress, error: string)
  {
    Asks(w, p) && Unresolved(w.o, p.asked + 1, ClauseAt(w, p), error)
  }

  /** The failures a policy that stays on the menu cannot cause in the round that starts here. */
  ghost predicate External(w: Setting, p: Progress, failure: Failure)
  {
    match failure
    case LeftTheSpace => false
    case Undispatchable(e) => ArgsFail(w, p, e)
    case _ => true
  }

  /** The policy's answer, if it is a choice, is on the menu it was offered. */
  predicate KeptToMenu(answer: Result<PolicyOutcome>, space: Space)
  {
    answer.Ok? && answer.value.Choice? ==> OnMenu(space, answer.value.decision)
  }

  ghost predicate ClosedPolicy(policy: Decider)
  {
    forall k: nat, space: Space, goal: string, h: seq<HistoryEntry> ::
      SoundSpace(space) ==> KeptToMenu(policy(k, space, goal, h), space)
  }

  lemma {:induction false} SpaceIsSound(w: Setting, held: Forest)
    ensures Menu(held, w.bindings, w.fp, SpaceOf(w, held)) && SoundSpace(SpaceOf(w, held))
  {
    SpaceIsMenu(held, w.bindings, w.o.invokes, w.fp, w.o.risky);
    hide FromTree, Menu;
    MenuIsSound(held, w.bindings, w.fp, SpaceOf(w, held));
  }

  /** A choice on the menu that has no operation is an invoke whose arguments do not resolve. */
  lemma {:induction false} UndispatchableIsArgs(w: Setting, p: Progress, m: Move, held: Forest,
                                                payload: Option<string>, e: string)
    requires OnMenu(SpaceOf(w, held), m.d) && !IsControl(m.d.kind)
    requires OpFor(m.d, SpaceOf(w, held)[m.d.actionId], payload, w.bindings, ArgsAt(w.o, p, m)) == Err(e)
    ensures Unresolved(w.o, p.asked, m.clause, e)
  {
    var space := SpaceOf(w, held);
    var a := space[m.d.actionId];
    SpaceIsSound(w, held);
    assert Spelt(w.bindings, a) by { assert WellFormed(held, w.bindings, w.fp, a); }
    hide SpaceOf, SoundSpace, FromTree;
    ChoiceDispatches(held, w.bindings, w.fp, space, m.d, payload, ArgsAt(w.o, p, m));
    assert m.d.kind.KInvoke?;
    hide Menu;
    assert w.o.args(p.asked, a.target.value, m.clause) == Err(e);
  }

  lemma {:induction false} FollowedFailsOutside(w: Setting, p: Progress, m: Move, held: Forest, r0: Reply, r1: Reply)
    requires OnMenu(SpaceOf(w, held), m.d)
    ensures var t := Followed(w, SpaceOf(w, held), p, m, held, r0, r1);
            match t.v
            case Fail(LeftTheSpace) => false
            case Fail(Undispatchable(e)) => Unresolved(w.o, p.asked, m.clause, e)
            case _ => true
  {
    hide SpaceOf, OpFor, Payload, Mentions, Verified, IsStale, OnMenu, Unresolved;
    if !IsControl(m.d.kind) {
      InTheSpace(SpaceOf(w, held), m.d);
      var a := SpaceOf(w, held)[m.d.actionId];
      match Payload(w.o, p, m, a)
      case Err(_) =>
      case Ok(payload) =>
        match OpFor(m.d, a, payload, w.bindings, ArgsAt(w.o, p, m)) {
          case Err(e) => UndispatchableIsArgs(w, p, m, held, payload, e);
          case Ok(op) =>
        }
    }
  }

  lemma {:induction false} InTheSpace(space: Space, d: Decision)
    requires OnMenu(space, d)
    ensures d.actionId in space
  {
  }

  lemma {:induction false} TurnedFailsOutside(w: Setting, p: Progress, held: Forest, r0: Reply, r1: Reply)
    requires ClosedPolicy(w.o.policy)
    ensures var t := Turned(w, p, held, r0, r1);
            t.v.Fail? ==> External(w, p, t.v.failure)
  {
    SpaceIsSound(w, held);
    hide Followed, SpaceOf, StartsWith, SoundSpace, OnMenu, Menu;
    if p.clause < |w.clauses| {
      var clause := w.o.wording(w.clauses[p.clause], p.typed);
      match w.o.mode(clause)
      case WaitFor(_) =>
      case Act(goal) =>
        var answer := w.o.policy(p.asked, SpaceOf(w, held), goal, p.history);
        assert KeptToMenu(answer, SpaceOf(w, held));
        hide ClosedPolicy;
        match answer {
          case Ok(Choice(d)) =>
            FollowedFailsOutside(w, p.(asked := p.asked + 1), Move(clause, goal, d), held, r0, r1);
          case _ =>
        }
    }
  }

  /** The failure that broke a run is none a policy on the menu could cause. */
  ghost predicate FailedOutside(caps: Caps, o: Outside, clauses: seq<string>, fp: Fingerprint, rs: seq<Reply>,
                                failure: Failure)
    requires caps.poll > 0
  {
    External(SettingOf(caps, o, clauses, fp, rs), LastOf(caps, o, clauses, fp, rs).p, failure)
  }

  /** With a policy that keeps to the menu no internal error ends a run: not a choice that is not there, nor one
      without an operation, unless the arguments of the invoke then chosen do not resolve. */
  lemma {:induction false} ClosedRunsFailOutside(caps: Caps, o: Outside, clauses: seq<string>, fp: Fingerprint,
                                                 rs: seq<Reply>)
    requires caps.poll > 0 && ClosedPolicy(o.policy)
    ensures var r := Play(caps, o, clauses, fp, rs);
            r.ended.Broke? ==> FailedOutside(caps, o, clauses, fp, rs, r.ended.failure)
  {
    hide Play, LastOf, SettingOf, Turned, External, ClosedPolicy, At;
    SettingIsOutside(caps, o, clauses, fp, rs);
    LastRoundFailsOutside(SettingOf(caps, o, clauses, fp, rs), LastOf(caps, o, clauses, fp, rs), rs);
    RunEndsInLastRound(caps, o, clauses, fp, rs);
  }

  lemma {:induction false} SettingIsOutside(caps: Caps, o: Outside, clauses: seq<string>, fp: Fingerprint,
                                            rs: seq<Reply>)
    ensures SettingOf(caps, o, clauses, fp, rs).o == o
  {
  }

  lemma {:induction false} LastRoundFailsOutside(w: Setting, at: Stand, rs: seq<Reply>)
    requires ClosedPolicy(w.o.policy)
    ensures External(w, at.p, Transport)
    ensures var t := Turned(w, at.p, at.held, At(rs, at.used), At(rs, at.used + 1));
            t.v.Fail? ==> External(w, at.p, t.v.failure)
  {
    hide Turned, ClosedPolicy, At;
    TurnedFailsOutside(w, at.p, at.held, At(rs, at.used), At(rs, at.used + 1));
  }

  /** The two policies of the runner, with whatever scores, arbitration and endpoint replies: the k-th decision
      goes by the k-th of each. */
  datatype Heads = Heads(
    hasFallback: bool,
    empty: string -> bool,
    best: (nat, Space, string) -> (ActionKind -> string),
    evidence: (nat, Space, string, seq<HistoryEntry>) -> Evidence,
    reply: (nat, Space, string) -> Option<Value>)

  ghost function DeciderOf(heads: Heads): Decider
  {
    (k: nat, space: Space, goal: string, h: seq<HistoryEntry>) =>
      Escalate.Outcome(Policy.Decide(space, heads.empty(goal), h, heads.best(k, space, goal),
          heads.evidence(k, space, goal, h)),
                       heads.hasFallback, space, heads.reply(k, space, goal))
  }

  /** The local policy, alone or escalated, keeps to the menu whatever the endpoint replies. */
  lemma {:induction false} HeadsKeepToMenu(heads: Heads)
    requires forall k: nat, space: Space, goal: string :: Parsed(heads.reply(k, space, goal))
    ensures ClosedPolicy(DeciderOf(heads))
  {
    forall k: nat, space: Space, goal: string, h: seq<HistoryEntry> | SoundSpace(space)
      ensures KeptToMenu(DeciderOf(heads)(k, space, goal, h), space)
    {
      ClosedMenu(space, heads.empty(goal), h, heads.best(k, space, goal), heads.evidence(k, space, goal, h),
                 heads.hasFallback, heads.reply(k, space, goal));
      hide Policy.Decide, Escalate.Outcome, SoundSpace, OnMenu, Parsed;
    }
  }

  // ----- who ended the run

  predicate AbstainsWith(answer: Result<PolicyOutcome>, reason: string)
  {
    answer.Ok? && answer.value.Abstain? && answer.value.reason == reason
  }

  /** The resolver, asked for the text of the field chosen in the round that starts here, gives this reason. */
  predicate NoTextFor(w: Setting, p: Progress, held: Forest, reason: string)
  {
    Asks(w, p) &&
    var answer, space := AnswerAt(w, p, held), SpaceOf(w, held);
    && answer.Ok? && answer.value.Choice? && answer.value.decision.actionId in space
    && w.o.text(p.asked + 1, w.o.mode(ClauseAt(w, p)).goal, space[answer.value.decision.actionId], p.typed) ==
        Err(reason)
  }

  /** Whoever a verdict blames did say so in the round that starts here: the policy, the resolver, or the host
      in its first reply `r0`. */
  predicate Blames(w: Setting, p: Progress, held: Forest, r0: Reply, v: Verdict)
  {
    match v
    case Fail(PolicyFailed(e)) => Asks(w, p) && AnswerAt(w, p, held) == Err(e)
    case Fail(HostError(e)) => ErrorOf(r0) == e
    case Stop(Stale(e)) => ErrorOf(r0) == e
    case Stop(Abstained(reason)) => Asks(w, p) && AbstainsWith(AnswerAt(w, p, held), reason)
    case Stop(NoText(reason)) => NoTextFor(w, p, held, reason)
    case Stop(BadReply(reason)) =>
      NoTextFor(w, p, held, reason) || (Asks(w, p) && AbstainsWith(AnswerAt(w, p, held), reason))
    case _ => true
  }

  /** What a carried-out decision can be ended by: the host's first reply, or the resolver. */
  predicate EndsBy(w: Setting, space: Space, p: Progress, m: Move, r0: Reply, t: Round)
  {
    match t.v
    case Fail(PolicyFailed(_)) => false
    case Fail(HostError(e)) => ErrorOf(r0) == e && t.asked != []
    case Stop(Stale(e)) => ErrorOf(r0) == e && t.asked != []
    case Stop(Abstained(_)) => false
    case Stop(NoText(reason)) =>
      m.d.actionId in space && w.o.text(p.asked, m.goal, space[m.d.actionId], p.typed) == Err(reason)
    case Stop(BadReply(reason)) =>
      m.d.actionId in space && w.o.text(p.asked, m.goal, space[m.d.actionId], p.typed) == Err(reason)
    case _ => true
  }

  lemma {:induction false} PerformedEnds(w: Setting, space: Space, p: Progress, m: Move, a: OfferedAction, op: Op,
                                         payload: Option<string>, held: Forest, r0: Reply, r1: Reply)
    ensures EndsBy(w, space, p, m, r0, Performed(w.caps, p, m, a, op, payload, held, r0, r1))
  {
    hide Verified, IsStale, Step;
  }

  lemma {:induction false} ActedEnds(w: Setting, space: Space, p: Progress, m: Move, held: Forest, r0: Reply, r1: Reply)
    ensures EndsBy(w, space, p, m, r0, Acted(w, space, p, m, held, r0, r1))
  {
    hide Performed, OpFor, Mentions;
    if m.d.actionId in space {
      var a := space[m.d.actionId];
      match Payload(w.o, p, m, a)
      case Err(reason) => assert w.o.text(p.asked, m.goal, a, p.typed) == Err(reason);
      case Ok(payload) =>
        hide Payload;
        match OpFor(m.d, a, payload, w.bindings, ArgsAt(w.o, p, m)) {
          case Ok(op) =>
            PerformedEnds(w, space, p, m, a, op, payload, held, r0, r1);
            hide EndsBy;
          case Err(_) =>
        }
    }
  }

  lemma {:induction false} FollowedEnds(w: Setting, space: Space, p: Progress, m: Move, held: Forest,
                                        r0: Reply, r1: Reply)
    ensures EndsBy(w, space, p, m, r0, Followed(w, space, p, m, held, r0, r1))
  {
    hide Acted;
    if !IsControl(m.d.kind) { ActedEnds(w, space, p, m, held, r0, r1); }
  }

  lemma {:induction false} TurnedBlames(w: Setting, p: Progress, held: Forest, r0: Reply, r1: Reply)
    ensures var t := Turned(w, p, held, r0, r1);
            Blames(w, p, held, r0, t.v) && (t.v.Fail? && t.v.failure.HostError? ==> t.asked != [])
            && (t.v.Stop? && t.v.outcome.Stale? ==> t.asked != [])
  {
    hide Followed, SpaceOf, StartsWith;
    if p.clause < |w.clauses| {
      var clause := w.o.wording(w.clauses[p.clause], p.typed);
      match w.o.mode(clause)
      case WaitFor(_) =>
      case Act(goal) =>
        match w.o.policy(p.asked, SpaceOf(w, held), goal, p.history) {
          case Ok(Choice(d)) =>
            FollowedEnds(w, SpaceOf(w, held), p.(asked := p.asked + 1), Move(clause, goal, d), held, r0, r1);
          case _ =>
        }
    }
  }

  /** Over every run, an outcome that blames the policy, the resolver or the host quotes what it said in the
      run's last round, on the tree and after the decisions that round started with. */
  lemma {:induction false} OutcomesQuoteTheirCause(caps: Caps, o: Outside, clauses: seq<string>, fp: Fingerprint,
                                                   rs: seq<Reply>)
    requires caps.poll > 0 && |Play(caps, o, clauses, fp, rs).asked| == |rs|
    ensures var at, v := LastOf(caps, o, clauses, fp, rs), VerdictOf(Play(caps, o, clauses, fp, rs).ended);
            && Blames(SettingOf(caps, o, clauses, fp, rs), at.p, at.held, At(rs, at.used), v)
            && ((v.Fail? && v.failure.HostError?) || (v.Stop? && v.outcome.Stale?) ==> at.used < |rs|)
  {
    var w, at := SettingOf(caps, o, clauses, fp, rs), LastOf(caps, o, clauses, fp, rs);
    RunEndsInLastRound(caps, o, clauses, fp, rs);
    assert forall v: Verdict :: v == Fail(Transport) || v == Stop(CapHit) ==>
        Blames(w, at.p, at.held, At(rs, at.used), v);
    hide Play, LastOf, Turned, Blames, SettingOf;
    TurnedBlames(w, at.p, at.held, At(rs, at.used), At(rs, at.used + 1));
  }

  // ----- a round reads only the replies to what it asks

  /** The replies agree as far as `n` of them are read. */
  predicate AgreeFor(n: nat, r0: Reply, r1: Reply, x0: Reply, x1: Reply)
  {
    (n >= 1 ==> x0 == r0) && (n >= 2 ==> x1 == r1)
  }

  lemma {:induction false} PerformedReads(caps: Caps, p: Progress, m: Move, a: OfferedAction, op: Op,
                                          payload: Option<string>, held: Forest, r0: Reply, r1: Reply,
                                          x0: Reply, x1: Reply)
    requires AgreeFor(|Performed(caps, p, m, a, op, payload, held, r0, r1).asked|, r0, r1, x0, x1)
    ensures Performed(caps, p, m, a, op, payload, held, x0, x1) == Performed(caps, p, m, a, op, payload, held, r0, r1)
  {
    hide Verified, IsStale, Step;
  }

  lemma {:induction false} ActedReads(w: Setting, space: Space, p: Progress, m: Move, held: Forest,
                                      r0: Reply, r1: Reply, x0: Reply, x1: Reply)
    requires AgreeFor(|Acted(w, space, p, m, held, r0, r1).asked|, r0, r1, x0, x1)
    ensures Acted(w, space, p, m, held, x0, x1) == Acted(w, space, p, m, held, r0, r1)
  {
    hide Performed, OpFor, Payload, Mentions, AgreeFor;
    if m.d.actionId in space {
      var a := space[m.d.actionId];
      match Payload(w.o, p, m, a)
      case Ok(payload) =>
        match OpFor(m.d, a, payload, w.bindings, ArgsAt(w.o, p, m)) {
          case Ok(op) => PerformedReads(w.caps, p, m, a, op, payload, held, r0, r1, x0, x1);
          case Err(_) =>
        }
      case Err(_) =>
    }
  }

  lemma {:induction false} FollowedReads(w: Setting, space: Space, p: Progress, m: Move, held: Forest,
                                         r0: Reply, r1: Reply, x0: Reply, x1: Reply)
    requires AgreeFor(|Followed(w, space, p, m, held, r0, r1).asked|, r0, r1, x0, x1)
    ensures Followed(w, space, p, m, held, x0, x1) == Followed(w, space, p, m, held, r0, r1)
  {
    hide Acted;
    if !IsControl(m.d.kind) { ActedReads(w, space, p, m, held, r0, r1, x0, x1); }
  }

  lemma {:induction false} TurnedReads(w: Setting, p: Progress, held: Forest, r0: Reply, r1: Reply, x0: Reply,
      x1: Reply)
    requires AgreeFor(|Turned(w, p, held, r0, r1).asked|, r0, r1, x0, x1)
    ensures Turned(w, p, held, x0, x1) == Turned(w, p, held, r0, r1)
  {
    hide Followed, SpaceOf, StartsWith;
    if p.clause < |w.clauses| {
      var clause := w.o.wording(w.clauses[p.clause], p.typed);
      match w.o.mode(clause)
      case WaitFor(_) =>
      case Act(goal) =>
        match w.o.policy(p.asked, SpaceOf(w, held), goal, p.history) {
          case Ok(Choice(d)) =>
            FollowedReads(w, SpaceOf(w, held), p.(asked := p.asked + 1), Move(clause, goal, d), held, r0, r1, x0, x1);
          case _ =>
        }
    }
  }

  /** A round on just the replies it reads, seen as the start of a longer script. */
  lemma {:induction false} LongerScript(w: Setting, p: Progress, held: Forest, rs: seq<Reply>, more: seq<Reply>)
    requires |Turned(w, p, held, At(rs, 0), At(rs, 1)).asked| == |rs|
    ensures Turned(w, p, held, At(rs + more, 0), At(rs + more, 1)) == Turned(w, p, held, At(rs, 0), At(rs, 1))
    ensures Drop(rs + more, |rs|) == more
  {
    assert (rs + more)[|rs|..] == more;
    TurnedReads(w, p, held, At(rs, 0), At(rs, 1), At(rs + more, 0), At(rs + more, 1));
    hide Turned;
  }

  /** From a fresh loop on the tree `start`, after the replies `rs` and the requests `asked`, the rest of the run
      is the loop from this state. */
  ghost predicate Unrolls(w: Setting, start: Forest, p: Progress, held: Forest, rs: seq<Reply>, asked: seq<Request>)
    requires w.caps.poll > 0
  {
    forall more: seq<Reply> :: Loop(w, FRESH, start, rs + more) == Then(asked, Loop(w, p, held, more))
  }

  /** A fresh loop on the tree `start` asks `asked`, is answered `rs`, and ends so. */
  ghost predicate Loops(w: Setting, start: Forest, rs: seq<Reply>, asked: seq<Request>, ended: Ended)
    requires w.caps.poll > 0
  {
    Loop(w, FRESH, start, rs).asked == asked && Loop(w, FRESH, start, rs).ended == ended
  }

  /** The same for a whole run. */
  ghost predicate Plays(caps: Caps, o: Outside, clauses: seq<string>, fp: Fingerprint, rs: seq<Reply>,
                        asked: seq<Request>, ended: Ended)
    requires caps.poll > 0
  {
    Play(caps, o, clauses, fp, rs).asked == asked && Play(caps, o, clauses, fp, rs).ended == ended
  }

  lemma {:induction false} UnrollsFirst(w: Setting, start: Forest)
    requires w.caps.poll > 0
    ensures Unrolls(w, start, FRESH, start, [], [])
  {
    forall more: seq<Reply> ensures Loop(w, FRESH, start, [] + more) == Then([], Loop(w, FRESH, start, more)) {
      assert [] + more == more;
      hide Loop;
      assert [] + Loop(w, FRESH, start, more).asked == Loop(w, FRESH, start, more).asked;
    }
  }

  /** One more round of the loop. */
  lemma {:induction false} UnrollsOn(w: Setting, start: Forest, p: Progress, held: Forest, rs: seq<Reply>,
                                     asked: seq<Request>, used: seq<Reply>)
    requires w.caps.poll > 0 && Unrolls(w, start, p, held, rs, asked) && |p.steps| < w.caps.maxSteps
    requires |Turned(w, p, held, At(used, 0), At(used, 1)).asked| == |used|
    ensures var t := Turned(w, p, held, At(used, 0), At(used, 1));
            match t.v
            case Go => Unrolls(w, start, t.q, t.nodes, rs + used, asked + t.asked)
            case Stop(outcome) => Loops(w, start, rs + used, asked + t.asked, Finished(Receipt(outcome, t.q.steps)))
            case Fail(failure) => Loops(w, start, rs + used, asked + t.asked, Broke(failure))
  {
    var t := Turned(w, p, held, At(used, 0), At(used, 1));
    if t.v.Go? {
      forall more: seq<Reply>
        ensures Loop(w, FRESH, start, (rs + used) + more) == Then(asked + t.asked, Loop(w, t.q, t.nodes, more))
      {
        assert (rs + used) + more == rs + (used + more);
        LongerScript(w, p, held, used, more);
        hide Turned, At, Drop;
        var rest := Loop(w, t.q, t.nodes, more);
        assert Loop(w, p, held, used + more) == Then(t.asked, rest);
        hide Loop;
        assert asked + (t.asked + rest.asked) == (asked + t.asked) + rest.asked;
      }
    }
    hide Turned, At, Drop;
  }

  /** The loop ends once the steps are used up. */
  lemma {:induction false} UnrollsToCap(w: Setting, start: Forest, p: Progress, held: Forest, rs: seq<Reply>,
                                        asked: seq<Request>)
    requires w.caps.poll > 0 && Unrolls(w, start, p, held, rs, asked) && |p.steps| >= w.caps.maxSteps
    ensures Loops(w, start, rs, asked, Finished(Receipt(CapHit, p.steps)))
  {
    assert rs + [] == rs;
    assert Loop(w, p, held, []) == Played(Finished(Receipt(CapHit, p.steps)), p, []);
    assert asked + [] == asked;
    hide Turned, Loop;
  }

  // ----- what a run leaves in the books

  /** The headline of a run. */
  lemma {:induction false} RunKeepsItsPromises(caps: Caps, o: Outside, clauses: seq<string>, fp: Fingerprint,
                                               rs: seq<Reply>)
    requires caps.poll > 0 && |Play(caps, o, clauses, fp, rs).asked| == |rs|
    ensures var r := Play(caps, o, clauses, fp, rs);
            && |rs| <= CallBound(caps)
            && (r.ended.Finished? ==> AcceptedOf(r.asked, rs) == StepIds(r.ended.receipt.steps))
            && (r.ended.Broke? && ClosedPolicy(o.policy) ==> FailedOutside(caps, o, clauses, fp, rs, r.ended.failure))
  {
    var r := Play(caps, o, clauses, fp, rs);
    hide *;
    CallsAreBounded(caps, o, clauses, fp, rs);
    OutcomesAreJustified(caps, o, clauses, fp, rs);
    StepsAreAccepted(caps, o, clauses, fp, rs);
    RecordedIsAll(StepIds(r.last.steps), AcceptedOf(r.asked, rs), r.ended.Finished?);
    if ClosedPolicy(o.policy) { ClosedRunsFailOutside(caps, o, clauses, fp, rs); }
  }

  lemma {:induction false} RecordedIsAll(ids: seq<string>, accepted: seq<string>, finished: bool)
    requires Recorded(ids, accepted, finished)
    ensures finished ==> ids == accepted
  {
  }
}
