/** From a choice on the menu to the operation sent: nothing is missing, and the gate is the observed one. */
module Dispatch {
  import opened Ordering
  import opened UiForest
  import opened Protocol
  import opened ActionSpace
  import opened Policy

  function BindingOf(kbs: seq<KeybindingInfo>, id: string): Option<KeybindingInfo>
  {
    if kbs == [] then None else if kbs[0].id == id then Some(kbs[0]) else BindingOf(kbs[1..], id)
  }

  function Text(payload: Option<string>): string { if payload.Some? then payload.value else "" }

  /** `args` resolves the arguments of an invoke, or says why it cannot. */
  function OpFor(d: Decision, a: OfferedAction, payload: Option<string>, kbs: seq<KeybindingInfo>,
                 args: string -> Result<Value>): Result<Op>
  {
    if IsControl(d.kind) then Err("cannot dispatch kind " + KindName(d.kind))
    else if a.target.None? then Err(d.actionId + " has no dispatch target")
    else if d.kind.KKeybinding? then
      match BindingOf(kbs, a.target.value)
      case None => Err("keybinding not in catalog")
      case Some(kb) => Ok(Keybinding(kb.id, Some(kb.chord), false))
    else if d.kind.KInvoke? then
      match args(a.target.value) case Err(e) => Err(e) case Ok(v) => Ok(Invoke(a.target.value, v))
    else if d.kind.KKey? && KeyOf(a).None? then Err("malformed key id")
    else if a.fingerprint.None? then Err(d.actionId + " has no fingerprint")
    else if d.kind.KClick? then Ok(Click(a.target.value, a.fingerprint))
    else if d.kind.KType? then Ok(Type(a.target.value, Text(payload), a.fingerprint))
    else if d.kind.KSetValue? then Ok(SetValue(a.target.value, Text(payload), a.fingerprint))
    else Ok(Key(a.target.value, KeyOf(a).value, a.fingerprint))
  }

  /** The operation acts on `x` as the kind says. */
  predicate ActsOn(o: Op, k: ActionKind, x: string, payload: Option<string>, gate: Option<nat>)
  {
    match k
    case KClick => o == Click(x, gate)
    case KType => o == Type(x, Text(payload), gate)
    case KSetValue => o == SetValue(x, Text(payload), gate)
    case KKey => o == Key(x, "Enter", gate)
    case _ => false
  }

  lemma {:induction false} BindingIsFound(kbs: seq<KeybindingInfo>, kb: KeybindingInfo)
    requires kb in kbs
    ensures BindingOf(kbs, kb.id).Some? && BindingOf(kbs, kb.id).value in kbs && BindingOf(kbs, kb.id).value.id == kb.id
  {
    if kbs[0].id != kb.id { BindingIsFound(kbs[1..], kb); }
  }

  /** A node-bound choice names one observed node and is gated by the fingerprint it was chosen under. */
  lemma {:induction false} NodeChoiceDispatches(f: Forest, kbs: seq<KeybindingInfo>, fp: Fingerprint, space: Space,
                                                d: Decision,
                             payload: Option<string>, args: string -> Result<Value>) returns (x: string)
    requires Menu(f, kbs, fp, space) && Unique(f) && OnMenu(space, d) && IsNodeBound(d.kind)
    ensures x in Ids(f) && d.actionId == NodeActionId(d.kind, x)
    ensures var r := OpFor(d, space[d.actionId], payload, kbs, args);
            r.Ok? && ActsOn(r.value, d.kind, x, payload, Some(fp(x, Flat(f, x).value)))
  {
    var a := space[d.actionId];
    x := a.target.value;
    assert WellFormed(f, kbs, fp, a);
    if d.kind.KKey? { KeyReadsBack(kbs, a); }
    hide NodeActionId, KeyOf, Flat, Menu, Unique;
  }

  /** Every choice on a menu can be dispatched, but for an invoke whose arguments do not resolve. */
  lemma {:induction false} ChoiceDispatches(f: Forest, kbs: seq<KeybindingInfo>, fp: Fingerprint, space: Space,
                                            d: Decision,
                         payload: Option<string>, args: string -> Result<Value>)
    requires Menu(f, kbs, fp, space) && OnMenu(space, d) && !IsControl(d.kind)
    ensures var r := OpFor(d, space[d.actionId], payload, kbs, args);
            r.Ok? <==> (d.kind.KInvoke? ==> args(space[d.actionId].target.value).Ok?)
  {
    var a := space[d.actionId];
    assert Spelt(kbs, a) by { assert WellFormed(f, kbs, fp, a); }
    if IsNodeBound(d.kind) {
      if d.kind.KKey? { KeyReadsBack(kbs, a); }
      hide NodeActionId, KeyOf, Menu;
    } else if d.kind.KKeybinding? {
      var kb :| kb in kbs && kb.id == a.target.value;
      BindingIsFound(kbs, kb);
      hide Menu, Spelt;
    } else {
      hide Menu;
    }
  }

  // ----- no dangerous binding is sent

  lemma {:induction false} BindingIdsInjective(x: string, y: string)
    requires "KEYBINDING:" + x == "KEYBINDING:" + y
    ensures x == y
  {
    SameTail("KEYBINDING:", x, y);
  }

  lemma {:induction false} FirstBindingIsOffered(s: Space, kbs: seq<KeybindingInfo>, risky: string -> bool, x: string)
    requires BindingOf(kbs, x).Some? && "KEYBINDING:" + x !in s
    ensures var t := OfferBindings(s, kbs, risky);
            "KEYBINDING:" + x in t && t["KEYBINDING:" + x] == BindingAction(BindingOf(kbs, x).value, risky)
    decreases kbs
  {
    var next := Offer(s, BindingAction(kbs[0], risky));
    if kbs[0].id == x {
      BindingsKeepOffer(next, kbs[1..], risky, "KEYBINDING:" + x);
    } else {
      if "KEYBINDING:" + kbs[0].id == "KEYBINDING:" + x { BindingIdsInjective(kbs[0].id, x); }
      FirstBindingIsOffered(next, kbs[1..], risky, x);
    }
  }

  lemma {:induction false} NotABinding(a: OfferedAction, x: string)
    requires Spelt([], a)
    ensures a.id != "KEYBINDING:" + x
  {
    var id := "KEYBINDING:" + x;
    assert id[0] == 'K' && id[3] == 'B';
    if a.kind.KKey? {
      assert a.id[3] == ':';
    } else {
      assert a.id[0] == KindName(a.kind)[0];
    }
  }

  /** No node action spells a keybinding's id. */
  lemma {:induction false} NodesLeaveBindings(f: Forest, fp: Fingerprint, x: string)
    ensures "KEYBINDING:" + x !in Collect(map[], f, None, true, fp)
  {
    var nodes := Collect(map[], f, None, true, fp);
    CollectKeepsMenu(f, [], fp, map[], f, None, true);
    forall id | id in nodes ensures id != "KEYBINDING:" + x {
      NotABinding(nodes[id], x);
    }
  }

  lemma {:induction false} OfferedBindingIsFirst(f: Forest, kbs: seq<KeybindingInfo>, invokes: seq<OfferedInvoke>,
                                                 fp: Fingerprint,
                              risky: string -> bool, x: string)
    requires BindingOf(kbs, x).Some?
    ensures var s := FromTree(f, kbs, invokes, fp, risky);
            "KEYBINDING:" + x in s && s["KEYBINDING:" + x] == BindingAction(BindingOf(kbs, x).value, risky)
  {
    var nodes := Collect(map[], f, None, true, fp);
    NodesLeaveBindings(f, fp, x);
    FirstBindingIsOffered(nodes, kbs, risky, x);
    InvokesKeepOffer(OfferBindings(nodes, kbs, risky), invokes, "KEYBINDING:" + x);
    hide Collect, OfferBindings, OfferInvokes, BindingOf, KindName, BindingAction, Unique;
  }

  lemma {:induction false} BindingChosen(f: Forest, kbs: seq<KeybindingInfo>, invokes: seq<OfferedInvoke>,
                                         fp: Fingerprint,
                      risky: string -> bool, d: Decision) returns (x: string)
    requires OnMenu(FromTree(f, kbs, invokes, fp, risky), d) && d.kind.KKeybinding?
    ensures d.actionId == "KEYBINDING:" + x && BindingOf(kbs, x).Some? && BindingOf(kbs, x).value in kbs
    ensures FromTree(f, kbs, invokes, fp, risky)[d.actionId].target == Some(x)
  {
    SpaceIsMenu(f, kbs, invokes, fp, risky);
    var a := FromTree(f, kbs, invokes, fp, risky)[d.actionId];
    assert a.id == d.actionId && WellFormed(f, kbs, fp, a);
    x := a.target.value;
    var listed :| listed in kbs && listed.id == x;
    hide *;
    BindingIsFound(kbs, listed);
  }

  /** The binding that is sent is the one whose danger the menu shows: one marked dangerous, and one that
      quits the application, is never sent on a choice from the menu. */
  lemma {:induction false} SentBindingIsSafe(f: Forest, kbs: seq<KeybindingInfo>, invokes: seq<OfferedInvoke>,
                                             fp: Fingerprint,
                          risky: string -> bool, d: Decision, args: string -> Result<Value>)
    requires OnMenu(FromTree(f, kbs, invokes, fp, risky), d) && d.kind.KKeybinding?
    ensures var r := OpFor(d, FromTree(f, kbs, invokes, fp, risky)[d.actionId], None, kbs, args);
            r.Ok? && exists kb :: kb in kbs && r.value == Keybinding(kb.id, Some(kb.chord), false)
                                  && !kb.dangerous && !risky(kb.id) && !risky(kb.chord)
  {
    var s := FromTree(f, kbs, invokes, fp, risky);
    var x := BindingChosen(f, kbs, invokes, fp, risky, d);
    OfferedBindingIsFirst(f, kbs, invokes, fp, risky, x);
    hide FromTree, BindingOf, KindName, Unique, KeyOf, Spaced;
  }

  /** A listed binding whose id no other has is offered, marked dangerous exactly if it says so or quits the
      application. */
  lemma {:induction false} EveryBindingIsOffered(f: Forest, kbs: seq<KeybindingInfo>, invokes: seq<OfferedInvoke>,
                                                 fp: Fingerprint, risky: string -> bool, kb: KeybindingInfo)
    requires kb in kbs && forall other :: other in kbs && other.id == kb.id ==> other == kb
    ensures var s := FromTree(f, kbs, invokes, fp, risky);
            && "KEYBINDING:" + kb.id in s && s["KEYBINDING:" + kb.id].kind.KKeybinding?
            && s["KEYBINDING:" + kb.id].target == Some(kb.id)
            && (s["KEYBINDING:" + kb.id].dangerous <==> kb.dangerous || risky(kb.id) || risky(kb.chord))
  {
    hide FromTree, BindingOf, Spaced;
    BindingIsFound(kbs, kb);
    OfferedBindingIsFirst(f, kbs, invokes, fp, risky, kb.id);
  }

  // ----- every listed invoke is offered, and no dangerous one is sent

  function InvokeOf(invokes: seq<OfferedInvoke>, name: string): Option<OfferedInvoke>
  {
    if invokes == [] then None else if invokes[0].name == name then Some(invokes[0]) else InvokeOf(invokes[1..], name)
  }

  /** No action of the menu spells the id of an invoke. */
  ghost predicate InvokeFree(s: Space) { forall id :: id in s ==> id != [] && id[0] != 'I' }

  lemma {:induction false} CollectIsInvokeFree(s: Space, f: Forest, parent: Option<Node>, viable: bool, fp: Fingerprint)
    requires InvokeFree(s)
    ensures InvokeFree(Collect(s, f, parent, viable, fp))
    decreases f
  {
    if f != [] {
      var here := viable && f[0].attrs.enabled && f[0].attrs.visible;
      var own := if here then OfferNode(s, f[0], parent, fp) else s;
      assert InvokeFree(own);
      hide InvokeFree, OfferNode;
      CollectIsInvokeFree(own, f[0].children, Some(f[0]), here, fp);
      CollectIsInvokeFree(Collect(own, f[0].children, Some(f[0]), here, fp), f[1..], parent, viable, fp);
    }
  }

  lemma {:induction false} BindingsAreInvokeFree(s: Space, kbs: seq<KeybindingInfo>, risky: string -> bool)
    requires InvokeFree(s)
    ensures InvokeFree(OfferBindings(s, kbs, risky))
    decreases kbs
  {
    if kbs != [] {
      assert ("KEYBINDING:" + kbs[0].id)[0] == 'K';
      assert InvokeFree(Offer(s, BindingAction(kbs[0], risky)));
      hide InvokeFree;
      BindingsAreInvokeFree(Offer(s, BindingAction(kbs[0], risky)), kbs[1..], risky);
    }
  }

  lemma {:induction false} FirstInvokeIsOffered(s: Space, invokes: seq<OfferedInvoke>, x: string)
    requires InvokeOf(invokes, x).Some? && "INVOKE:" + x !in s
    ensures var t := OfferInvokes(s, invokes);
            "INVOKE:" + x in t && t["INVOKE:" + x] == InvokeAction(InvokeOf(invokes, x).value)
    decreases invokes
  {
    var next := Offer(s, InvokeAction(invokes[0]));
    if invokes[0].name == x {
      InvokesKeepOffer(next, invokes[1..], "INVOKE:" + x);
    } else {
      if "INVOKE:" + invokes[0].name == "INVOKE:" + x { SameTail("INVOKE:", invokes[0].name, x); }
      FirstInvokeIsOffered(next, invokes[1..], x);
    }
  }

  /** Every listed invoke is offered under its name, and is marked dangerous exactly if the first of that name is. */
  lemma {:induction false} EveryInvokeIsOffered(f: Forest, kbs: seq<KeybindingInfo>, invokes: seq<OfferedInvoke>,
                                                fp: Fingerprint, risky: string -> bool, x: string)
    ensures (exists i :: i in invokes && i.name == x) <==> InvokeOf(invokes, x).Some?
    ensures var s := FromTree(f, kbs, invokes, fp, risky);
            InvokeOf(invokes, x).Some? ==>
              && "INVOKE:" + x in s && s["INVOKE:" + x].kind.KInvoke? && s["INVOKE:" + x].target == Some(x)
              && (s["INVOKE:" + x].dangerous <==> InvokeOf(invokes, x).value.dangerous)
  {
    hide FromTree, InvokeOf, Spaced;
    InvokeIsListed(invokes, x);
    if InvokeOf(invokes, x).Some? {
      FirstIsListed(invokes, x);
      OfferedInvokeIsFirst(f, kbs, invokes, fp, risky, x);
    }
  }

  lemma {:induction false} InvokeIsListed(invokes: seq<OfferedInvoke>, x: string)
    ensures (exists i :: i in invokes && i.name == x) <==> InvokeOf(invokes, x).Some?
  {
    if invokes != [] {
      InvokeIsListed(invokes[1..], x);
      assert invokes == [invokes[0]] + invokes[1..];
      assert invokes[0] in invokes;
    }
  }

  lemma {:induction false} OfferedInvokeIsFirst(f: Forest, kbs: seq<KeybindingInfo>, invokes: seq<OfferedInvoke>,
                                                fp: Fingerprint, risky: string -> bool, x: string)
    requires InvokeOf(invokes, x).Some?
    ensures var s := FromTree(f, kbs, invokes, fp, risky);
            "INVOKE:" + x in s && s["INVOKE:" + x] == InvokeAction(InvokeOf(invokes, x).value)
  {
    var nodes := Collect(map[], f, None, true, fp);
    var bound := OfferBindings(nodes, kbs, risky);
    CollectIsInvokeFree(map[], f, None, true, fp);
    BindingsAreInvokeFree(nodes, kbs, risky);
    assert "INVOKE:" + x !in bound by { assert ("INVOKE:" + x)[0] == 'I'; }
    FirstInvokeIsOffered(bound, invokes, x);
    hide Collect, OfferBindings, OfferInvokes, InvokeOf, InvokeAction, KindName;
  }

  /** A choice of an invoke from the menu sends that invoke, with the arguments resolved for it, and never one that
      is marked dangerous. */
  lemma {:induction false} SentInvokeIsSafe(f: Forest, kbs: seq<KeybindingInfo>, invokes: seq<OfferedInvoke>,
                                            fp: Fingerprint, risky: string -> bool, d: Decision,
                                            args: string -> Result<Value>) returns (i: OfferedInvoke)
    requires OnMenu(FromTree(f, kbs, invokes, fp, risky), d) && d.kind.KInvoke?
    ensures i in invokes && !i.dangerous && d.actionId == "INVOKE:" + i.name
    ensures OpFor(d, FromTree(f, kbs, invokes, fp, risky)[d.actionId], None, kbs, args) ==
              match args(i.name) case Ok(v) => Ok(Invoke(i.name, v)) case Err(e) => Err(e)
  {
    hide FromTree, KeyOf, BindingOf, InvokeOf;
    var listed := InvokeChosen(f, kbs, invokes, fp, risky, d);
    EveryInvokeIsOffered(f, kbs, invokes, fp, risky, listed.name);
    i := InvokeOf(invokes, listed.name).value;
    FirstIsListed(invokes, listed.name);
  }

  lemma {:induction false} InvokeChosen(f: Forest, kbs: seq<KeybindingInfo>, invokes: seq<OfferedInvoke>,
                                        fp: Fingerprint, risky: string -> bool, d: Decision)
    returns (i: OfferedInvoke)
    requires OnMenu(FromTree(f, kbs, invokes, fp, risky), d) && d.kind.KInvoke?
    ensures i in invokes && d.actionId == "INVOKE:" + i.name
  {
    var s := FromTree(f, kbs, invokes, fp, risky);
    SpaceIsMenu(f, kbs, invokes, fp, risky);
    var a := s[d.actionId];
    assert a.id == d.actionId && WellFormed(f, kbs, fp, a);
    hide Menu, FromTree, KindName;
    assert d.actionId[0] == 'I' by { assert ("INVOKE:" + a.target.value)[0] == 'I'; }
    i := InvokeIdIsListed(f, kbs, invokes, fp, risky, d.actionId);
  }

  lemma {:induction false} FirstIsListed(invokes: seq<OfferedInvoke>, x: string)
    requires InvokeOf(invokes, x).Some?
    ensures InvokeOf(invokes, x).value in invokes && InvokeOf(invokes, x).value.name == x
  {
    if invokes[0].name != x { FirstIsListed(invokes[1..], x); }
  }

  lemma {:induction false} InvokeIdIsListed(f: Forest, kbs: seq<KeybindingInfo>, invokes: seq<OfferedInvoke>,
                                            fp: Fingerprint, risky: string -> bool, id: string)
    returns (i: OfferedInvoke)
    requires id in FromTree(f, kbs, invokes, fp, risky) && id != [] && id[0] == 'I'
    ensures i in invokes && id == "INVOKE:" + i.name
  {
    var nodes := Collect(map[], f, None, true, fp);
    var bound := OfferBindings(nodes, kbs, risky);
    CollectIsInvokeFree(map[], f, None, true, fp);
    BindingsAreInvokeFree(nodes, kbs, risky);
    assert id !in bound;
    hide Collect, OfferBindings, OfferInvokes;
    ControlsAreNoInvokes(OfferInvokes(bound, invokes), id);
    i := InvokeAmongThem(bound, invokes, id);
  }

  lemma {:induction false} ControlsAreNoInvokes(s: Space, id: string)
    requires id != [] && id[0] == 'I'
    requires id in Offer(Offer(Offer(s, ControlAction(KDone)), ControlAction(KBlocked)), ControlAction(KWait))
    ensures id in s
  {
    forall k | IsControl(k) ensures KindName(k)[0] != 'I' { }
  }

  lemma {:induction false} InvokeAmongThem(s: Space, invokes: seq<OfferedInvoke>, id: string) returns (i: OfferedInvoke)
    requires id in OfferInvokes(s, invokes) && id !in s
    ensures i in invokes && id == "INVOKE:" + i.name
    decreases invokes
  {
    if id == "INVOKE:" + invokes[0].name {
      i := invokes[0];
    } else {
      i := InvokeAmongThem(Offer(s, InvokeAction(invokes[0])), invokes[1..], id);
    }
  }
}
