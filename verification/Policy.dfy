/** The local policy: habituation, two heads over any scores and arbitration; its choices are on the menu. */
module Policy {
  import opened Ordering
  import opened UiForest
  import opened ActionSpace

  datatype Verification = Success | StateChanged | Navigation | NoEffect | WrongEffect

  datatype HistoryEntry = HistoryEntry(step: nat, actionId: string, kind: ActionKind, title: string,
      verification: Verification)

  datatype Ranked = Ranked(id: string, kind: ActionKind, title: string, millis: int)

  datatype Decision = Decision(actionId: string, kind: ActionKind, title: string, millis: int,
                               operations: seq<Ranked>, targets: seq<Ranked>)

  datatype PolicyOutcome =
    | Choice(decision: Decision)
    | Abstain(reason: string, operations: seq<Ranked>, targets: seq<Ranked>)

  // ----- habituation

  const HABITUATION_STEP: int := 250

  predicate Futile(e: HistoryEntry, id: string)
  {
    e.actionId == id && (e.verification.NoEffect? || e.verification.WrongEffect?)
  }

  /** How many of the latest entries are futile tries of `id`, without interruption. */
  function FutileStreak(history: seq<HistoryEntry>, id: string): (n: nat)
    ensures n <= |history|
  {
    if history == [] || !Futile(history[|history| - 1], id) then 0
    else 1 + FutileStreak(history[..|history| - 1], id)
  }

  function Max(a: int, b: int): int { if a > b then a else b }

  /** A quarter less for each futile try in the latest run of them. */
  function Weight(history: seq<HistoryEntry>, id: string): int
  {
    Max(0, 1000 - HABITUATION_STEP * FutileStreak(history, id))
  }

  /** The urge weight drops by a quarter for each futile try in a row and bottoms out at zero. */
  method HabituationWeight(id: string, history: seq<HistoryEntry>) returns (weight: int)
    ensures weight == Weight(history, id)
    ensures 0 <= weight <= 1000
  {
    weight := 1000;
    var k := |history|;
    assert history[..k] == history;
    while k > 0
      invariant 0 <= k <= |history| && 0 < weight <= 1000
      invariant Max(0, 1000 - HABITUATION_STEP * FutileStreak(history, id))
             == Max(0, weight - HABITUATION_STEP * FutileStreak(history[..k], id))
    {
      assert history[..k][..k - 1] == history[..k - 1] && history[..k][k - 1] == history[k - 1];
      if !Futile(history[k - 1], id) { break; }
      weight := weight - HABITUATION_STEP;
      k := k - 1;
      if weight <= 0 {
        weight := 0;
        return;
      }
    }
    assert k == 0 ==> history[..k] == [];
  }

  // ----- the two-head local policy

  /** An arbitration result over a list of candidates; anything but a listed choice or an
      abstention is an internal error. */
  datatype Arbitration = Chose(k: nat) | Abstained | Unexpected

  /** What lies outside the policy: lexical scores, effect evidence, and arbitration. */
  datatype Evidence = Evidence(
    operationScore: ActionKind -> int,
    targetScore: OfferedAction -> int,
    effectDone: string -> bool,
    operationAnswer: Arbitration,
    operationRanks: seq<Ranked>,
    targetAnswer: Arbitration,
    targetRanks: seq<Ranked>,
    threshold: int)

  ghost function TargetsOver(keys: seq<string>, space: Space, kind: ActionKind): seq<OfferedAction>
    requires forall k :: k in keys ==> k in space
  {
    if keys == [] then []
    else
      var a := space[keys[0]];
      (if a.kind == kind && a.target.Some? then [a] else []) + TargetsOver(keys[1..], space, kind)
  }

  /** The target-bound actions of one kind, in id order. */
  ghost function Targets(space: Space, kind: ActionKind): seq<OfferedAction>
  {
    SortedKeysListing(space.Keys);
    TargetsOver(SortedKeys(space.Keys), space, kind)
  }

  const KIND_ORDER: seq<ActionKind> :=
    [KClick, KType, KSetValue, KKey, KKeybinding, KInvoke, KDone, KBlocked, KWait]

  ghost predicate Offers(space: Space, kind: ActionKind)
  {
    (exists id :: id in space && space[id].kind == kind) && (IsControl(kind) || Targets(space, kind) != [])
  }

  ghost function OfferedKinds(space: Space, kinds: seq<ActionKind>): seq<ActionKind>
  {
    if kinds == [] then []
    else (if Offers(space, kinds[0]) then [kinds[0]] else []) + OfferedKinds(space, kinds[1..])
  }

  function Urge(score: int, history: seq<HistoryEntry>, id: string): int
  {
    score * Weight(history, id) / 1000
  }

  ghost function ChooseKind(kinds: seq<ActionKind>, ids: ActionKind -> string, history: seq<HistoryEntry>, ev: Evidence)
    : Result<(Option<ActionKind>, seq<Ranked>)>
  {
    if kinds == [] then Ok((None, []))
    else if |kinds| == 1 then
      var urge := Urge(ev.operationScore(kinds[0]), history, ids(kinds[0]));
      var ranked := [Ranked(KindName(kinds[0]), kinds[0], KindName(kinds[0]), urge)];
      if urge < ev.threshold then Ok((None, ranked)) else Ok((Some(kinds[0]), ranked))
    else match ev.operationAnswer
      case Chose(k) => if k < |kinds| then Ok((Some(kinds[k]), ev.operationRanks)) else Err("missing chosen kind")
      case Abstained => Ok((None, ev.operationRanks))
      case Unexpected => Err("unexpected operation answer")
  }

  function ChooseTarget(targets: seq<OfferedAction>, history: seq<HistoryEntry>, ev: Evidence)
    : Result<(Option<OfferedAction>, seq<Ranked>)>
  {
    if targets == [] then Ok((None, []))
    else if |targets| == 1 then
      var a := targets[0];
      var urge := Urge(ev.targetScore(a), history, a.id);
      var ranked := [Ranked(a.id, a.kind, a.title, urge)];
      if urge < ev.threshold then Ok((None, ranked)) else Ok((Some(a), ranked))
    else match ev.targetAnswer
      case Chose(k) => if k < |targets| then Ok((Some(targets[k]), ev.targetRanks)) else Err("missing chosen target")
      case Abstained => Ok((None, ev.targetRanks))
      case Unexpected => Err("unexpected target answer")
  }

  predicate Satisfied(e: HistoryEntry)
  {
    e.verification.Success? || e.verification.StateChanged? || e.verification.Navigation?
  }

  predicate JustSatisfied(history: seq<HistoryEntry>, id: string)
  {
    history != [] && history[|history| - 1].actionId == id && Satisfied(history[|history| - 1])
  }

  function PickDone(space: Space, operations: seq<Ranked>, targets: seq<Ranked>): PolicyOutcome
    requires "DONE" in space
  {
    Choice(Decision(space["DONE"].id, KDone, space["DONE"].title, 1000, operations, targets))
  }

  function RankOf(ranks: seq<Ranked>, id: string): Option<int>
  {
    if ranks == [] then None else if ranks[0].id == id then Some(ranks[0].millis) else RankOf(ranks[1..], id)
  }

  function RankOfKind(ranks: seq<Ranked>, kind: ActionKind): Option<int>
  {
    if ranks == [] then None else if ranks[0].kind == kind then Some(ranks[0].millis) else RankOfKind(ranks[1..], kind)
  }

  /** The last verified step already did what the clause asks. */
  predicate ClauseClosed(space: Space, history: seq<HistoryEntry>, ev: Evidence)
  {
    history != [] &&
    var last := history[|history| - 1];
    Satisfied(last) && (last.actionId !in space || ev.effectDone(last.title))
  }

  /** `ids` is the best-scored action id of each kind. */
  ghost function Decide(space: Space, emptyGoal: bool, history: seq<HistoryEntry>, ids: ActionKind -> string,
                        ev: Evidence): Result<PolicyOutcome>
  {
    if emptyGoal then Err("agent goal is empty")
    else if space == map[] then Err("action space has no candidates")
    else if ClauseClosed(space, history, ev) && "DONE" in space then Ok(PickDone(space, [], []))
    else match ChooseKind(OfferedKinds(space, KIND_ORDER), ids, history, ev)
      case Err(e) => Err(e)
      case Ok((None, ranks)) => Ok(Abstain("operation abstain", ranks, []))
      case Ok((Some(kind), ranks)) =>
        if IsControl(kind) then DecideControl(space, kind, history, ranks)
        else DecideTarget(space, kind, history, ranks, ev)
  }

  function DecideControl(space: Space, kind: ActionKind, history: seq<HistoryEntry>,
                         ranks: seq<Ranked>): Result<PolicyOutcome>
  {
    if KindName(kind) !in space then Err("control missing from space")
    else
      var a := space[KindName(kind)];
      match RankOfKind(ranks, kind)
      case None => Err("chosen control missing from ranks")
      case Some(millis) =>
        if kind.KWait? && JustSatisfied(history, a.id) && "DONE" in space then Ok(PickDone(space, ranks, []))
        else Ok(Choice(Decision(a.id, kind, a.title, millis, ranks, [])))
  }

  ghost function DecideTarget(space: Space, kind: ActionKind, history: seq<HistoryEntry>, ranks: seq<Ranked>,
                              ev: Evidence)
    : Result<PolicyOutcome>
  {
    var targets := Targets(space, kind);
    if targets == [] then Ok(Abstain("no viable targets for " + KindName(kind), ranks, []))
    else match ChooseTarget(targets, history, ev)
      case Err(e) => Err(e)
      case Ok((None, targetRanks)) => Ok(Abstain("target abstain", ranks, targetRanks))
      case Ok((Some(a), targetRanks)) =>
        match RankOf(targetRanks, a.id)
        case None => Err("chosen target missing from ranks")
        case Some(millis) =>
          if a.dangerous then Ok(Abstain("needs_confirmation", ranks, targetRanks))
          else if JustSatisfied(history, a.id) && ev.effectDone(a.title) && "DONE" in space
          then Ok(PickDone(space, ranks, targetRanks))
          else Ok(Choice(Decision(a.id, a.kind, a.title, millis, ranks, targetRanks)))
  }

  // ----- a choice is on the menu

  /** The chosen id is offered, with that kind, and is not a dangerous offer. */
  predicate OnMenu(space: Space, d: Decision)
  {
    d.actionId in space && space[d.actionId].kind == d.kind && !space[d.actionId].dangerous
  }

  /** Keys name their actions; controls are present, under their own kinds, and harmless. */
  ghost predicate SoundSpace(space: Space)
  {
    && (forall id :: id in space ==> space[id].id == id)
    && (forall k :: IsControl(k) ==>
        KindName(k) in space && space[KindName(k)].kind == k && !space[KindName(k)].dangerous)
  }

  lemma {:induction false} MenuIsSound(f: Forest, kbs: seq<KeybindingInfo>, fp: Fingerprint, space: Space)
    requires Menu(f, kbs, fp, space)
    requires forall k :: IsControl(k) ==> KindName(k) in space && space[KindName(k)].kind == k
    ensures SoundSpace(space)
  {
    forall k | IsControl(k) ensures !space[KindName(k)].dangerous {
      assert WellFormed(f, kbs, fp, space[KindName(k)]);
    }
  }

  lemma {:induction false} TargetsAreOffered(keys: seq<string>, space: Space, kind: ActionKind, a: OfferedAction)
    requires forall k :: k in keys ==> k in space && space[k].id == k
    requires a in TargetsOver(keys, space, kind)
    ensures a.id in space && space[a.id] == a && a.kind == kind
  {
    if a in TargetsOver(keys[1..], space, kind) { TargetsAreOffered(keys[1..], space, kind, a); }
  }

  lemma {:induction false} OfferedKindsAreKinds(space: Space, kinds: seq<ActionKind>, k: ActionKind)
    requires k in OfferedKinds(space, kinds)
    ensures k in kinds && Offers(space, k)
  {
    if k in OfferedKinds(space, kinds[1..]) { OfferedKindsAreKinds(space, kinds[1..], k); }
  }

  lemma {:induction false} DoneOnMenu(space: Space, operations: seq<Ranked>, targets: seq<Ranked>)
    requires SoundSpace(space)
    ensures "DONE" in space && OnMenu(space, PickDone(space, operations, targets).decision)
  {
    assert IsControl(KDone) && KindName(KDone) == "DONE";
  }

  lemma {:induction false} ControlOnMenu(space: Space, kind: ActionKind, history: seq<HistoryEntry>, ranks: seq<Ranked>)
    requires SoundSpace(space) && IsControl(kind)
    ensures var r := DecideControl(space, kind, history, ranks);
            r.Ok? && r.value.Choice? ==> OnMenu(space, r.value.decision)
  {
    DoneOnMenu(space, ranks, []);
  }

  lemma {:induction false} ChosenTargetIsOffered(space: Space, kind: ActionKind, history: seq<HistoryEntry>,
                                                 ev: Evidence)
    requires SoundSpace(space)
    ensures var r := ChooseTarget(Targets(space, kind), history, ev);
            r.Ok? && r.value.0.Some? ==>
              r.value.0.value.id in space && space[r.value.0.value.id] == r.value.0.value
  {
    var r := ChooseTarget(Targets(space, kind), history, ev);
    if r.Ok? && r.value.0.Some? {
      assert r.value.0.value in Targets(space, kind) by { hide Targets, SoundSpace; }
      hide ChooseTarget;
      SortedKeysListing(space.Keys);
      TargetsAreOffered(SortedKeys(space.Keys), space, kind, r.value.0.value);
    }
  }

  lemma {:induction false} TargetOnMenu(space: Space, kind: ActionKind, history: seq<HistoryEntry>,
                                        ranks: seq<Ranked>, ev: Evidence)
    requires SoundSpace(space)
    ensures var r := DecideTarget(space, kind, history, ranks, ev);
            r.Ok? && r.value.Choice? ==> OnMenu(space, r.value.decision)
  {
    ChosenTargetIsOffered(space, kind, history, ev);
    match ChooseTarget(Targets(space, kind), history, ev)
    case Ok((Some(a), targetRanks)) =>
      DoneOnMenu(space, ranks, targetRanks);
      hide Targets, ChooseTarget, SoundSpace, Satisfied, KindName, JustSatisfied;
    case _ => hide Targets, ChooseTarget, SoundSpace;
  }

  /** Whatever the scores and the arbitration say, a local choice is on the menu. */
  lemma {:induction false} LocalChoiceOnMenu(space: Space, emptyGoal: bool, history: seq<HistoryEntry>,
                                             ids: ActionKind -> string, ev: Evidence)
    requires SoundSpace(space)
    ensures var r := Decide(space, emptyGoal, history, ids, ev);
            r.Ok? && r.value.Choice? ==> OnMenu(space, r.value.decision)
  {
    DoneOnMenu(space, [], []);
    hide OnMenu, ChooseKind, DecideControl, DecideTarget, OfferedKinds, ClauseClosed, SoundSpace;
    match ChooseKind(OfferedKinds(space, KIND_ORDER), ids, history, ev)
    case Ok((Some(kind), ranks)) =>
      if IsControl(kind) {
        ControlOnMenu(space, kind, history, ranks);
      } else {
        TargetOnMenu(space, kind, history, ranks, ev);
      }
    case _ =>
  }

  // ----- what the heads choose from

  ghost predicate KeysNameActions(space: Space) { forall id :: id in space ==> space[id].id == id }

  /** `a` is an offered action of this kind with a target. */
  predicate IsTarget(space: Space, kind: ActionKind, a: OfferedAction)
  {
    a.id in space && space[a.id] == a && a.kind == kind && a.target.Some?
  }

  /** An offered action of this kind, with a target unless it is a control. */
  predicate Eligible(space: Space, kind: ActionKind, a: OfferedAction)
  {
    if IsControl(kind) then a.id in space && space[a.id] == a && a.kind == kind else IsTarget(space, kind, a)
  }

  lemma {:induction false} TargetsOverKeys(keys: seq<string>, space: Space, kind: ActionKind)
    requires KeysNameActions(space) && Ascending(keys) && forall k :: k in keys ==> k in space
    ensures var ts := TargetsOver(keys, space, kind);
            && (forall a :: a in ts <==> IsTarget(space, kind, a) && a.id in keys)
            && (forall i, j :: 0 <= i < j < |ts| ==> Less(ts[i].id, ts[j].id))
  {
    if keys != [] {
      TargetsOverKeys(keys[1..], space, kind);
      var rest := TargetsOver(keys[1..], space, kind);
      assert keys == [keys[0]] + keys[1..];
      forall a | a in rest ensures Less(keys[0], a.id) {
        var j :| 0 <= j < |keys[1..]| && keys[1..][j] == a.id;
        assert Less(keys[0], keys[j + 1]);
      }
      AscendingFrom(if IsTarget(space, kind, space[keys[0]]) then [space[keys[0]]] else [], rest);
    }
  }

  lemma {:induction false} AscendingFrom(head: seq<OfferedAction>, rest: seq<OfferedAction>)
    requires |head| <= 1 && forall i, j :: 0 <= i < j < |rest| ==> Less(rest[i].id, rest[j].id)
    requires forall a :: a in rest && head != [] ==> Less(head[0].id, a.id)
    ensures var all := head + rest; forall i, j :: 0 <= i < j < |all| ==> Less(all[i].id, all[j].id)
  {
    hide Less;
    var all := head + rest;
    forall i, j | 0 <= i < j < |all| ensures Less(all[i].id, all[j].id) {
      assert all[j] in rest;
    }
  }

  /** The targets of a kind are all its offered actions with a target, in ascending order of their ids. */
  lemma {:induction false} TargetsAreExact(space: Space, kind: ActionKind)
    requires KeysNameActions(space)
    ensures var ts := Targets(space, kind);
            && (forall a :: a in ts <==> IsTarget(space, kind, a))
            && (forall i, j :: 0 <= i < j < |ts| ==> Less(ts[i].id, ts[j].id))
  {
    SortedKeysListing(space.Keys);
    TargetsOverKeys(SortedKeys(space.Keys), space, kind);
  }

  /** Where a kind stands among the candidates of the operation head. */
  function Place(k: ActionKind): nat
  {
    match k
    case KClick => 0
    case KType => 1
    case KSetValue => 2
    case KKey => 3
    case KKeybinding => 4
    case KInvoke => 5
    case KDone => 6
    case KBlocked => 7
    case KWait => 8
  }

  lemma {:induction false} OfferedAmong(space: Space, kinds: seq<ActionKind>)
    requires forall i, j :: 0 <= i < j < |kinds| ==> Place(kinds[i]) < Place(kinds[j])
    ensures var ks := OfferedKinds(space, kinds);
            && (forall k :: k in ks <==> k in kinds && Offers(space, k))
            && (forall i, j :: 0 <= i < j < |ks| ==> Place(ks[i]) < Place(ks[j]))
  {
    hide Offers, Place;
    if kinds != [] {
      OfferedAmong(space, kinds[1..]);
      var rest := OfferedKinds(space, kinds[1..]);
      assert kinds == [kinds[0]] + kinds[1..];
      forall k | k in rest ensures Place(kinds[0]) < Place(k) {
        var j :| 0 <= j < |kinds[1..]| && kinds[1..][j] == k;
        assert Place(kinds[0]) < Place(kinds[j + 1]);
      }
      forall i, j | 0 <= i < j < |OfferedKinds(space, kinds)|
        ensures Place(OfferedKinds(space, kinds)[i]) < Place(OfferedKinds(space, kinds)[j])
      {
        assert rest[j - 1] in rest;
      }
    }
  }

  /** The operation head chooses among the kinds on offer: the controls listed and every kind with a target, each
      once, node actions first and controls last. */
  lemma {:induction false} KindsAreExact(space: Space)
    requires KeysNameActions(space)
    ensures var ks := OfferedKinds(space, KIND_ORDER);
            && (forall k :: k in ks <==> exists a :: Eligible(space, k, a))
            && (forall i, j :: 0 <= i < j < |ks| ==> Place(ks[i]) < Place(ks[j]))
  {
    forall k: ActionKind ensures k in KIND_ORDER { assert KIND_ORDER[Place(k)] == k; }
    OfferedAmong(space, KIND_ORDER);
    forall k: ActionKind
      ensures Offers(space, k) <==> exists a :: Eligible(space, k, a)
    {
      OffersMeans(space, k);
    }
    hide Offers, Place, Eligible, OfferedKinds;
  }

  lemma {:induction false} OffersMeans(space: Space, k: ActionKind)
    requires KeysNameActions(space)
    ensures Offers(space, k) <==> exists a :: Eligible(space, k, a)
  {
    TargetsAreExact(space, k);
    hide Targets;
    if IsControl(k) {
      forall id | id in space && space[id].kind == k ensures Eligible(space, k, space[id]) { }
    } else {
      if Targets(space, k) != [] {
        var first := Targets(space, k)[0];
        assert first in Targets(space, k);
        assert Eligible(space, k, first) && space[first.id].kind == k;
      }
      if a :| Eligible(space, k, a) { assert a in Targets(space, k) && space[a.id].kind == k; }
    }
  }

  // ----- what the heads decide

  /** The streak is that of the latest entries, all of them futile tries of the action, and no longer than that. */
  lemma {:induction false} StreakMeans(history: seq<HistoryEntry>, id: string)
    ensures var n := FutileStreak(history, id);
            && (forall i :: |history| - n <= i < |history| ==> Futile(history[i], id))
            && (n < |history| ==> !Futile(history[|history| - n - 1], id))
  {
    hide Futile;
    if FutileStreak(history, id) > 0 {
      StreakMeans(history[..|history| - 1], id);
      assert forall i :: 0 <= i < |history| - 1 ==> history[..|history| - 1][i] == history[i];
    }
  }

  /** What is left of a score after `n` futile tries in a row reaches the threshold: a quarter goes with each. */
  predicate Urgent(score: int, n: nat, threshold: int)
  {
    score * (if n < 4 then 4 - n else 0) >= 4 * threshold
  }

  lemma {:induction false} UrgeReaches(score: int, history: seq<HistoryEntry>, id: string, threshold: int)
    ensures Urge(score, history, id) >= threshold <==> Urgent(score, FutileStreak(history, id), threshold)
  {
    var n := FutileStreak(history, id);
    var m := if n < 4 then 4 - n else 0;
    assert Weight(history, id) == 250 * m;
    hide FutileStreak, Weight;
    assert score * (250 * m) == 250 * (score * m);
    QuarterOf(score * m);
  }

  lemma {:induction false} QuarterOf(x: int)
    ensures 250 * x / 1000 == x / 4
  {
    assert x == 4 * (x / 4) + x % 4;
    assert 250 * x == 1000 * (x / 4) + 250 * (x % 4);
  }

  /** The only target of its kind is taken exactly if its score, less a quarter for each futile try in a row, reaches
      the threshold: below it the policy abstains, so four futile tries rule it out unless the threshold is zero. If
      it is reached, a dangerous one asks for confirmation, one whose effect the clause wanted and just got ends
      the clause, and any other is chosen. */
  lemma {:induction false} LoneTargetIsWeighed(space: Space, kind: ActionKind, history: seq<HistoryEntry>,
                                               ranks: seq<Ranked>, ev: Evidence, a: OfferedAction)
    requires SoundSpace(space) && IsTarget(space, kind, a)
    requires forall b :: IsTarget(space, kind, b) ==> b == a
    ensures var r := DecideTarget(space, kind, history, ranks, ev);
            var urgent := Urgent(ev.targetScore(a), FutileStreak(history, a.id), ev.threshold);
            var repeated := JustSatisfied(history, a.id) && ev.effectDone(a.title);
            && r.Ok?
            && (!urgent ==> r.value.Abstain? && r.value.reason == "target abstain")
            && (urgent && a.dangerous ==> r.value.Abstain? && r.value.reason == "needs_confirmation")
            && (urgent && !a.dangerous ==>
                  && r.value.Choice? && r.value.decision.kind == (if repeated then KDone else kind)
                  && r.value.decision.actionId == (if repeated then "DONE" else a.id))
  {
    TargetsAreExact(space, kind);
    LoneMember(Targets(space, kind), a);
    UrgeReaches(ev.targetScore(a), history, a.id, ev.threshold);
    assert IsControl(KDone) && KindName(KDone) == "DONE" && space["DONE"].id == "DONE";
    hide Targets, Urge, Urgent, FutileStreak, JustSatisfied, SoundSpace, IsTarget, KindName;
  }

  /** Among several targets arbitration decides: the policy abstains with it, and otherwise goes by the target it chose,
      as it would by a lone one. */
  lemma {:induction false} ArbitratedTargetIsFollowed(space: Space, kind: ActionKind, history: seq<HistoryEntry>,
                                                      ranks: seq<Ranked>, ev: Evidence)
    requires SoundSpace(space) && |Targets(space, kind)| >= 2
    ensures var r, ts, answer := DecideTarget(space, kind, history, ranks, ev), Targets(space, kind), ev.targetAnswer;
            && (answer.Abstained? ==> r == Ok(Abstain("target abstain", ranks, ev.targetRanks)))
            && (r.Ok? && !answer.Abstained? ==>
                  && answer.Chose? && answer.k < |ts|
                  && if ts[answer.k].dangerous then r.value.Abstain? && r.value.reason == "needs_confirmation"
                     else if JustSatisfied(history, ts[answer.k].id) && ev.effectDone(ts[answer.k].title)
                     then r.value.Choice? && r.value.decision.actionId == "DONE"
                     else r.value.Choice? && r.value.decision.actionId == ts[answer.k].id)
  {
    assert IsControl(KDone) && KindName(KDone) == "DONE" && "DONE" in space && space["DONE"].id == "DONE";
    hide Targets, JustSatisfied, SoundSpace, KindName, RankOf;
  }

  /** A lone kind would be weighed like a lone target. */
  lemma {:induction false} LoneKindIsWeighed(kind: ActionKind, ids: ActionKind -> string, history: seq<HistoryEntry>,
                                             ev: Evidence)
    ensures var r := ChooseKind([kind], ids, history, ev);
            && r.Ok?
            && (r.value.0 == if Urgent(ev.operationScore(kind), FutileStreak(history, ids(kind)), ev.threshold)
                             then Some(kind) else None)
  {
    UrgeReaches(ev.operationScore(kind), history, ids(kind), ev.threshold);
    hide Urge, Urgent, FutileStreak;
  }

  lemma {:induction false} LoneMember(ts: seq<OfferedAction>, a: OfferedAction)
    requires (forall b :: b in ts <==> b == a) && forall i, j :: 0 <= i < j < |ts| ==> Less(ts[i].id, ts[j].id)
    ensures ts == [a]
  {
    assert a in ts;
    assert ts[0] in ts;
    if |ts| > 1 {
      assert ts[1] == a by { assert ts[1] in ts; }
      LessIsStrict(a.id);
    }
  }

  /** If the last step had an effect and its action is gone, or its effect is what the clause asked for, the policy
      declares the clause done, before anything is scored. */
  lemma {:induction false} SettledClauseIsDone(space: Space, history: seq<HistoryEntry>, ids: ActionKind -> string,
                                               ev: Evidence)
    requires SoundSpace(space) && history != []
    requires var last := history[|history| - 1];
             && (last.verification.Success? || last.verification.StateChanged? || last.verification.Navigation?)
             && (last.actionId !in space || ev.effectDone(last.title))
    ensures var r := Decide(space, false, history, ids, ev);
            r.Ok? && r.value.Choice? && r.value.decision.kind.KDone? && r.value.decision.actionId == "DONE"
  {
    DoneOnMenu(space, [], []);
    hide ChooseKind, OfferedKinds;
  }

  /** A menu always offers several kinds, so arbitration decides: if it abstains the policy does, and a choice is of
      the arbitrated kind, or DONE where that would repeat a step that had its effect. */
  lemma {:induction false} ArbitratedKindIsFollowed(space: Space, history: seq<HistoryEntry>,
                                                    ids: ActionKind -> string, ev: Evidence)
    requires SoundSpace(space) && !ClauseClosed(space, history, ev)
    ensures var r, kinds := Decide(space, false, history, ids, ev), OfferedKinds(space, KIND_ORDER);
            && |kinds| >= 3
            && (ev.operationAnswer.Abstained? ==>
                  r == Ok(Abstain("operation abstain", ev.operationRanks, [])))
            && (r.Ok? && r.value.Choice? ==>
                  && ev.operationAnswer.Chose? && ev.operationAnswer.k < |kinds|
                  && var d, kind := r.value.decision, kinds[ev.operationAnswer.k];
                     d.kind == kind
                     || (d.kind.KDone? && history != [] && Satisfied(history[|history| - 1])
                         && !kind.KBlocked?))
  {
    ControlsAreOffered(space);
    var kinds := OfferedKinds(space, KIND_ORDER);
    hide OfferedKinds, Satisfied, SoundSpace, ClauseClosed, Targets;
    if ev.operationAnswer.Chose? && ev.operationAnswer.k < |kinds| {
      var kind := kinds[ev.operationAnswer.k];
      if !IsControl(kind) { TargetIsOfKind(space, kind, history, ev); }
      hide ChooseTarget;
    }
  }

  lemma {:induction false} TargetIsOfKind(space: Space, kind: ActionKind, history: seq<HistoryEntry>, ev: Evidence)
    requires SoundSpace(space)
    ensures var r := ChooseTarget(Targets(space, kind), history, ev);
            r.Ok? && r.value.0.Some? ==> r.value.0.value.kind == kind
  {
    TargetsAreExact(space, kind);
    hide Targets;
    var r := ChooseTarget(Targets(space, kind), history, ev);
    if r.Ok? && r.value.0.Some? { assert r.value.0.value in Targets(space, kind); }
  }

  lemma {:induction false} ControlsAreOffered(space: Space)
    requires SoundSpace(space)
    ensures |OfferedKinds(space, KIND_ORDER)| >= 3 && space != map[]
  {
    KindsAreExact(space);
    hide OfferedKinds, Place;
    forall c | IsControl(c) ensures c in OfferedKinds(space, KIND_ORDER) {
      assert Eligible(space, c, space[KindName(c)]);
      assert exists a :: Eligible(space, c, a);
    }
    ThreeControls(OfferedKinds(space, KIND_ORDER));
    assert KindName(KDone) in space;
  }

  lemma {:induction false} ThreeControls(kinds: seq<ActionKind>)
    requires forall c :: IsControl(c) ==> c in kinds
    ensures |kinds| >= 3
  {
    assert KDone in kinds && KBlocked in kinds && KWait in kinds;
    var i :| 0 <= i < |kinds| && kinds[i] == KDone;
    var j :| 0 <= j < |kinds| && kinds[j] == KBlocked;
    var k :| 0 <= k < |kinds| && kinds[k] == KWait;
  }
}
