/** Command escalation: one reply per abstention, held to the same menu. */
module Escalate {
  import opened Chars
  import opened Ordering
  import opened UiForest
  import opened Protocol
  import opened ActionSpace
  import opened Policy

  /** Marks an abstain reason as a violation of the reply protocol. */
  const ESCALATION := "escalation:"

  predicate StartsWith(s: string, prefix: string) { |prefix| <= |s| && s[..|prefix|] == prefix }

  /** Parsed objects hold distinct keys. */
  function Field(fields: seq<Member>, key: string): Option<Value>
  {
    if fields == [] then None
    else if fields[0].key == key then Some(fields[0].value)
    else Field(fields[1..], key)
  }

  /** An id a lookup by text accepts: not empty, no white space, no control character. */
  predicate Spellable(id: string)
  {
    id != [] && forall i :: 0 <= i < |id| ==> !IsSpace(id[i]) && !IsControlChar(id[i])
  }

  function Violation(detail: string): Result<PolicyOutcome> { Err(ESCALATION + " " + detail) }

  function ParseChoice(space: Space, fields: seq<Member>): Result<PolicyOutcome>
  {
    if exists i :: 0 <= i < |fields| && fields[i].key != "id" && fields[i].key != "op"
    then Violation("choice may only carry `id` and `op`")
    else match (Field(fields, "id"), Field(fields, "op"))
      case (Some(VString(id)), Some(VString(op))) =>
        if !Spellable(id) || id !in space then Violation("off-menu id")
        else if KindName(space[id].kind) != op then Violation("id is not that op")
        else if space[id].dangerous then Ok(Abstain("needs_confirmation", [], []))
        else Ok(Choice(Decision(space[id].id, space[id].kind, space[id].title, 0, [], [])))
      case (Some(VString(_)), _) => Violation("choice.op missing")
      case _ => Violation("choice.id missing")
  }

  /** `None` is a reply that never came, or is not JSON. */
  function ParseReply(space: Space, reply: Option<Value>): Result<PolicyOutcome>
  {
    match reply
    case Some(VObject(fields)) =>
      if |fields| != 1 then Violation("expected exactly one of `choice` or `abstain`")
      else if fields[0].key == "abstain" then
        if fields[0].value.VString? then Ok(Abstain("escalated abstain: " + fields[0].value.s, [], []))
        else Violation("abstain must be a string")
      else if fields[0].key == "choice" && fields[0].value.VObject? then ParseChoice(space, fields[0].value.fields)
      else Violation("expected `choice` object")
    case Some(_) => Violation("reply not an object")
    case None => Violation("no reply")
  }

  // ----- the replies the wire allows

  ghost predicate Abstains(reply: Option<Value>)
  {
    exists why: string :: reply == Some(VObject([Member("abstain", VString(why))]))
  }

  /** `fields` is the object {id, op} in either order. */
  ghost predicate Pair(fields: seq<Member>, id: string, op: string)
  {
    var a, b := Member("id", VString(id)), Member("op", VString(op));
    fields == [a, b] || fields == [b, a]
  }

  ghost predicate Picks(space: Space, reply: Option<Value>, id: string)
  {
    id in space && Spellable(id) && exists fields: seq<Member> ::
      reply == Some(VObject([Member("choice", VObject(fields))])) && Pair(fields, id, KindName(space[id].kind))
  }

  predicate DistinctKeys(fields: seq<Member>)
  {
    forall i, j :: 0 <= i < j < |fields| ==> fields[i].key != fields[j].key
  }

  /** The object a parser hands over: no key twice, at the depth the reply is read. */
  predicate Parsed(reply: Option<Value>)
  {
    reply.Some? && reply.value.VObject? ==>
      DistinctKeys(reply.value.fields)
      && forall i :: 0 <= i < |reply.value.fields| && reply.value.fields[i].value.VObject?
                     ==> DistinctKeys(reply.value.fields[i].value.fields)
  }

  lemma {:induction false} FieldFinds(fields: seq<Member>, key: string)
    ensures Field(fields, key).Some? ==> Member(key, Field(fields, key).value) in fields
    ensures Field(fields, key).None? ==> forall i :: 0 <= i < |fields| ==> fields[i].key != key
  {
    if fields != [] && fields[0].key != key {
      FieldFinds(fields[1..], key);
      assert fields == fields[..1] + fields[1..];
    }
  }

  lemma {:induction false} ThirdKeyRepeats(fields: seq<Member>)
    requires |fields| > 2 && forall i :: 0 <= i < |fields| ==> fields[i].key == "id" || fields[i].key == "op"
    ensures !DistinctKeys(fields)
  {
    assert fields[0].key == fields[1].key || fields[1].key == fields[2].key || fields[0].key == fields[2].key;
  }

  lemma {:induction false} TwoKeys(fields: seq<Member>, id: string, op: string)
    requires DistinctKeys(fields) && forall i :: 0 <= i < |fields| ==> fields[i].key == "id" || fields[i].key == "op"
    requires Member("id", VString(id)) in fields && Member("op", VString(op)) in fields
    ensures Pair(fields, id, op)
  {
    var i :| 0 <= i < |fields| && fields[i] == Member("id", VString(id));
    var j :| 0 <= j < |fields| && fields[j] == Member("op", VString(op));
    if |fields| > 2 { ThirdKeyRepeats(fields); }
    assert fields == if i < j then [fields[i], fields[j]] else [fields[j], fields[i]];
  }

  lemma {:induction false} PairReads(fields: seq<Member>, id: string, op: string)
    requires Pair(fields, id, op)
    ensures Field(fields, "id") == Some(VString(id)) && Field(fields, "op") == Some(VString(op))
    ensures forall i :: 0 <= i < |fields| ==> fields[i].key == "id" || fields[i].key == "op"
  {
    var a, b := Member("id", VString(id)), Member("op", VString(op));
    assert Field([a, b], "op") == Field([b], "op");
    assert Field([b, a], "id") == Field([a], "id");
  }

  lemma {:induction false} PickParses(space: Space, reply: Option<Value>, id: string)
    requires SoundSpace(space) && Picks(space, reply, id)
    ensures ParseReply(space, reply) ==
              if space[id].dangerous then Ok(Abstain("needs_confirmation", [], []))
              else Ok(Choice(Decision(id, space[id].kind, space[id].title, 0, [], [])))
  {
    var fields :| reply == Some(VObject([Member("choice", VObject(fields))]))
        && Pair(fields, id, KindName(space[id].kind));
    PairReads(fields, id, KindName(space[id].kind));
    hide Field, KindName, Pair;
  }

  lemma {:induction false} ChoiceWasPicked(space: Space, fields: seq<Member>) returns (id: string)
    requires DistinctKeys(fields) && ParseChoice(space, fields).Ok?
    ensures Picks(space, Some(VObject([Member("choice", VObject(fields))])), id)
  {
    FieldFinds(fields, "id");
    FieldFinds(fields, "op");
    id := Field(fields, "id").value.s;
    hide KindName;
    TwoKeys(fields, id, KindName(space[id].kind));
    hide Pair;
  }

  lemma {:induction false} AbstentionParses(space: Space, reply: Option<Value>)
    requires Abstains(reply)
    ensures var r := ParseReply(space, reply); r.Ok? && r.value.Abstain? && !StartsWith(r.value.reason, ESCALATION)
    ensures forall id :: !Picks(space, reply, id)
  {
    var why :| reply == Some(VObject([Member("abstain", VString(why))]));
    var reason := "escalated abstain: " + why;
    assert reason[7] == 'e' && ESCALATION[7] == 'i';
    assert [Member("abstain", VString(why))][0].key == "abstain";
    forall id ensures !Picks(space, reply, id) { hide Pair; }
  }

  lemma {:induction false} PickIsAnswered(space: Space, reply: Option<Value>, id: string)
    requires SoundSpace(space) && Picks(space, reply, id)
    ensures var r := ParseReply(space, reply);
            && r.Ok?
            && (r.value.Choice? <==> !space[id].dangerous)
            && (r.value.Choice? ==> OnMenu(space, r.value.decision) && r.value.decision.actionId == id)
            && (r.value.Abstain? ==> !StartsWith(r.value.reason, ESCALATION))
  {
    PickParses(space, reply, id);
    assert "needs_confirmation"[0] == 'n' && ESCALATION[0] == 'e';
    hide ParseReply, Picks;
  }

  /** An answer is an abstention or a pick; anything else is a violation. */
  lemma {:induction false} AnswerWasAllowed(space: Space, reply: Option<Value>)
    requires Parsed(reply)
    ensures ParseReply(space, reply).Ok? ==> Abstains(reply) || exists id :: Picks(space, reply, id)
  {
    hide Picks, ParseChoice;
    if ParseReply(space, reply).Ok? {
      var fields := reply.value.fields;
      assert fields == [fields[0]];
      if fields[0].key == "abstain" {
        assert fields[0] == Member("abstain", VString(fields[0].value.s));
      } else {
        assert fields[0] == Member("choice", VObject(fields[0].value.fields));
        var id := ChoiceWasPicked(space, fields[0].value.fields);
      }
    }
  }

  lemma {:induction false} ViolationsAreMarked(space: Space, reply: Option<Value>)
    ensures ParseReply(space, reply).Err? ==> StartsWith(ParseReply(space, reply).error, ESCALATION)
  {
    hide Field, KindName;
  }

  /** The reply is read exactly: an offered id with its own op is that action, or a request for
      confirmation when dangerous; an abstention stays an abstention; everything else is a violation,
      and so is an offered id that holds white space. */
  lemma {:induction false} ReplyIsExact(space: Space, reply: Option<Value>)
    requires SoundSpace(space) && Parsed(reply)
    ensures var r := ParseReply(space, reply);
            && (r.Err? ==> StartsWith(r.error, ESCALATION))
            && (r.Ok? <==> Abstains(reply) || exists id :: Picks(space, reply, id))
            && (r.Ok? && r.value.Choice? <==> exists id :: Picks(space, reply, id) && !space[id].dangerous)
            && (r.Ok? && r.value.Choice? ==>
                OnMenu(space, r.value.decision) && Picks(space, reply, r.value.decision.actionId))
            && (r.Ok? && r.value.Abstain? ==> !StartsWith(r.value.reason, ESCALATION))
  {
    AnswerWasAllowed(space, reply);
    ViolationsAreMarked(space, reply);
    if Abstains(reply) { AbstentionParses(space, reply); }
    forall id | Picks(space, reply, id)
      ensures id in space
      ensures var r := ParseReply(space, reply);
              && r.Ok?
              && (r.value.Choice? <==> !space[id].dangerous)
              && (r.value.Choice? ==> OnMenu(space, r.value.decision) && r.value.decision.actionId == id)
              && (r.value.Abstain? ==> !StartsWith(r.value.reason, ESCALATION))
    {
      PickIsAnswered(space, reply, id);
    }
    assert forall id :: Picks(space, reply, id) ==> id in space;
    hide *;
  }

  /** A lone button is the only node action of its space, under its own id. */
  lemma {:induction false} LoneButton(n: Node, fp: Fingerprint)
    requires n.attrs.role == "button" && n.attrs.enabled && n.attrs.visible && n.children == []
    ensures Collect(map[], [n], None, true, fp) == map["CLICK:" + n.id := NodeAction(KClick, n, None, fp)]
  {
    assert NodeActionId(KClick, n.id) == "CLICK:" + n.id;
    var own := OfferNode(map[], n, None, fp);
    assert own == map["CLICK:" + n.id := NodeAction(KClick, n, None, fp)] by { hide NodeActionId, KindName; }
    assert [n][1..] == [];
    hide OfferNode, NodeAction, NodeActionId, KindName;
    assert Collect(own, [], Some(n), true, fp) == own && Collect(own, [], None, true, fp) == own;
  }

  /** What the tree offers survives the bindings, the invokes and the controls offered after it. */
  lemma {:induction false} NodesStayOffered(f: Forest, kbs: seq<KeybindingInfo>, invokes: seq<OfferedInvoke>,
                                            fp: Fingerprint, risky: string -> bool, id: string)
    requires id in Collect(map[], f, None, true, fp)
    ensures var space := FromTree(f, kbs, invokes, fp, risky);
            id in space && space[id] == Collect(map[], f, None, true, fp)[id]
  {
    var nodes := Collect(map[], f, None, true, fp);
    BindingsKeepOffer(nodes, kbs, risky, id);
    InvokesKeepOffer(OfferBindings(nodes, kbs, risky), invokes, id);
    hide Collect, OfferBindings, OfferInvokes, ControlAction;
  }

  lemma {:induction false} UnspellableIsOffMenu(space: Space, id: string, op: string)
    requires !Spellable(id)
    ensures var choice := [Member("id", VString(id)), Member("op", VString(op))];
            ParseReply(space, Some(VObject([Member("choice", VObject(choice))]))) == Violation("off-menu id")
  {
    var choice := [Member("id", VString(id)), Member("op", VString(op))];
    assert Field(choice, "id") == Some(VString(id));
    assert Field(choice, "op") == Some(VString(op)) by { assert choice[1..] == [Member("op", VString(op))]; }
    hide Field, Spellable, KindName;
    assert ParseChoice(space, choice) == Violation("off-menu id");
    hide ParseChoice;
  }

  /** A button whose id holds a space is on the menu, under an id the endpoint cannot pick: the very reply
      that names it and its operation is a violation. */
  lemma {:induction false} WhiteSpaceIsUnpickable(attrs: Attrs, kbs: seq<KeybindingInfo>, invokes: seq<OfferedInvoke>,
                                                  fp: Fingerprint, risky: string -> bool)
    requires attrs.role == "button" && attrs.enabled && attrs.visible
    ensures var space := FromTree([Node("a b", attrs, [])], kbs, invokes, fp, risky);
            var choice := [Member("id", VString("CLICK:a b")), Member("op", VString("CLICK"))];
            && "CLICK:a b" in space && space["CLICK:a b"].kind.KClick? && !space["CLICK:a b"].dangerous
            && ParseReply(space, Some(VObject([Member("choice", VObject(choice))]))) == Violation("off-menu id")
  {
    var n, id := Node("a b", attrs, []), "CLICK:a b";
    assert "CLICK:" + n.id == id && id[7] == ' ';
    assert NodeAction(KClick, n, None, fp).kind == KClick && !NodeAction(KClick, n, None, fp).dangerous;
    assert !Spellable(id);
    hide *;
    LoneButton(n, fp);
    NodesStayOffered([n], kbs, invokes, fp, risky, id);
    UnspellableIsOffMenu(FromTree([n], kbs, invokes, fp, risky), id, "CLICK");
  }

  // ----- the escalating policy

  /** The best-ranked candidates of an abstention. */
  function Contenders(o: PolicyOutcome): seq<Ranked>
    requires o.Abstain?
  {
    if o.targets == [] then o.operations else o.targets
  }

  /** Two contenders read the same on the menu, so no endpoint could tell them apart. */
  predicate Ambiguous(ranked: seq<Ranked>)
  {
    exists i, j :: 0 <= j < i < |ranked| && ranked[i].kind == ranked[j].kind && ranked[i].title == ranked[j].title
  }

  predicate Consults(first: Result<PolicyOutcome>, hasFallback: bool)
  {
    hasFallback && first.Ok? && first.value.Abstain? && !Ambiguous(Contenders(first.value))
  }

  /** The endpoint is asked exactly after an abstention whose best-ranked targets, or operations if it got no further,
      all differ in kind or title. */
  lemma {:induction false} ConsultedIffToldApart(o: PolicyOutcome, hasFallback: bool)
    ensures Consults(Ok(o), hasFallback) <==>
              hasFallback && o.Abstain? &&
              var ranked := if |o.targets| > 0 then o.targets else o.operations;
              forall i, j :: 0 <= i < |ranked| && 0 <= j < |ranked| && i != j ==>
                ranked[i].kind != ranked[j].kind || ranked[i].title != ranked[j].title
  {
    if hasFallback && o.Abstain? {
      var ranked := Contenders(o);
      forall i, j | 0 <= i < |ranked| && 0 <= j < |ranked| && i != j && !Ambiguous(ranked)
        ensures ranked[i].kind != ranked[j].kind || ranked[i].title != ranked[j].title
      {
        assert j < i || i < j;
      }
    }
  }

  /** A violation becomes an abstention that carries its mark. */
  function Escalated(space: Space, reply: Option<Value>): Result<PolicyOutcome>
  {
    match ParseReply(space, reply)
    case Ok(o) => Ok(o)
    case Err(e) => Ok(Abstain(e, [], []))
  }

  /** What the pair of policies decides: the local answer, or the endpoint's after an abstention. */
  function Outcome(first: Result<PolicyOutcome>, hasFallback: bool, space: Space,
                   reply: Option<Value>): Result<PolicyOutcome>
  {
    if Consults(first, hasFallback) then Escalated(space, reply) else first
  }

  class EscalatingPolicy {
    const hasFallback: bool
    var calls: nat

    constructor (hasFallback: bool)
      ensures this.hasFallback == hasFallback && calls == 0
    {
      this.hasFallback := hasFallback;
      calls := 0;
    }

    /** `first` is what the local policy answered; `reply` what the endpoint would reply. */
    method Decide(first: Result<PolicyOutcome>, space: Space, reply: Option<Value>) returns (r: Result<PolicyOutcome>)
      modifies this
      ensures r == Outcome(first, hasFallback, space, reply)
      ensures calls == old(calls) + if Consults(first, hasFallback) then 1 else 0
    {
      if first.Err? || first.value.Choice? { return first; }
      if !hasFallback { return first; }
      var ranked := Contenders(first.value);
      var ambiguous := false;
      var i := 0;
      while i < |ranked| && !ambiguous
        invariant 0 <= i <= |ranked|
        invariant ambiguous ==> Ambiguous(ranked)
        invariant !ambiguous ==> !Ambiguous(ranked[..i])
      {
        var j := 0;
        while j < i && !ambiguous
          invariant 0 <= j <= i
          invariant ambiguous ==> Ambiguous(ranked)
          invariant !ambiguous ==> forall k :: 0 <= k < j ==>
                    ranked[i].kind != ranked[k].kind || ranked[i].title != ranked[k].title
        {
          ambiguous := ranked[i].kind == ranked[j].kind && ranked[i].title == ranked[j].title;
          j := j + 1;
        }
        i := i + 1;
      }
      if ambiguous { return first; }
      assert ranked[..i] == ranked;
      calls := calls + 1;
      r := Escalated(space, reply);
    }
  }

  lemma {:induction false} TargetReasonsAreUnmarked(space: Space, kind: ActionKind, history: seq<HistoryEntry>,
                                                    ranks: seq<Ranked>, ev: Evidence)
    ensures var r := DecideTarget(space, kind, history, ranks, ev);
            r.Ok? && r.value.Abstain? ==> !StartsWith(r.value.reason, ESCALATION)
  {
    assert "target abstain"[0] != ESCALATION[0] && "needs_confirmation"[0] != ESCALATION[0];
    assert ("no viable targets for " + KindName(kind))[0] != ESCALATION[0];
    hide ChooseTarget, Targets, KindName, JustSatisfied, RankOf;
  }

  /** The local policy's own abstentions never look like violations. */
  lemma {:induction false} LocalReasonsAreUnmarked(space: Space, emptyGoal: bool, history: seq<HistoryEntry>,
                                                   ids: ActionKind -> string, ev: Evidence)
    ensures var r := Policy.Decide(space, emptyGoal, history, ids, ev);
            r.Ok? && r.value.Abstain? ==> !StartsWith(r.value.reason, ESCALATION)
  {
    assert "operation abstain"[0] != ESCALATION[0];
    match ChooseKind(OfferedKinds(space, KIND_ORDER), ids, history, ev)
    case Ok((Some(kind), ranks)) =>
      if !IsControl(kind) { TargetReasonsAreUnmarked(space, kind, history, ranks, ev); }
      hide OfferedKinds, ChooseKind, DecideTarget, ClauseClosed, KindName, JustSatisfied, RankOfKind, StartsWith;
    case _ => hide OfferedKinds, ChooseKind, ClauseClosed;
  }

  /** Alone or escalated, with any scores, any arbitration and any reply: a choice is on the menu, and an
      abstention is marked as a violation exactly when the endpoint was consulted and broke the protocol. */
  lemma {:induction false} ClosedMenu(space: Space, emptyGoal: bool, history: seq<HistoryEntry>,
                                      ids: ActionKind -> string, ev: Evidence,
                   hasFallback: bool, reply: Option<Value>)
    requires SoundSpace(space) && Parsed(reply)
    ensures var first := Policy.Decide(space, emptyGoal, history, ids, ev);
            var r := Outcome(first, hasFallback, space, reply);
            && (r.Ok? && r.value.Choice? ==> OnMenu(space, r.value.decision))
            && (r.Ok? && r.value.Abstain? ==>
                  (StartsWith(r.value.reason, ESCALATION) <==>
                     Consults(first, hasFallback) && !Abstains(reply) && !exists id :: Picks(space, reply, id)))
  {
    LocalChoiceOnMenu(space, emptyGoal, history, ids, ev);
    LocalReasonsAreUnmarked(space, emptyGoal, history, ids, ev);
    ReplyIsExact(space, reply);
    hide Policy.Decide, ParseReply, Picks, Abstains, StartsWith, OnMenu, Ambiguous, SoundSpace;
  }
}
