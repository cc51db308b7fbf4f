/** The closed menu: every action offered for one observation. */
module ActionSpace {
  import opened Ordering
  import opened UiForest
  import opened Prune

  datatype ActionKind = KClick | KType | KSetValue | KKey | KKeybinding | KInvoke | KDone | KBlocked | KWait

  function KindName(k: ActionKind): string
  {
    match k
    case KClick => "CLICK"
    case KType => "TYPE"
    case KSetValue => "SET_VALUE"
    case KKey => "KEY"
    case KKeybinding => "KEYBINDING"
    case KInvoke => "INVOKE"
    case KDone => "DONE"
    case KBlocked => "BLOCKED"
    case KWait => "WAIT"
  }

  predicate IsControl(k: ActionKind) { k.KDone? || k.KBlocked? || k.KWait? }

  predicate IsNodeBound(k: ActionKind) { k.KClick? || k.KType? || k.KSetValue? || k.KKey? }

  datatype OfferedAction = OfferedAction(id: string, kind: ActionKind, target: Option<string>, title: string,
                                         role: Option<string>, dangerous: bool, fingerprint: Option<nat>)

  datatype KeybindingInfo = KeybindingInfo(id: string, chord: string, dangerous: bool)

  datatype OfferedInvoke = OfferedInvoke(name: string, description: string, dangerous: bool)

  type Space = map<string, OfferedAction>

  /** The first offer of an id wins. */
  function Offer(s: Space, a: OfferedAction): Space
  {
    if a.id in s then s else s[a.id := a]
  }

  function NodeActionId(k: ActionKind, target: string): string
  {
    if k.KKey? then "KEY:" + target + ":Enter" else KindName(k) + ":" + target
  }

  predicate Clickable(n: Node, parent: Option<Node>)
  {
    || n.attrs.role in {"button", "link", "tab", "checkbox", "switch"}
    || (n.attrs.role == "listitem" && parent.Some? && parent.value.attrs.role == "navigation")
  }

  function ParentId(parent: Option<Node>): Option<string>
  {
    if parent.Some? then Some(parent.value.id) else None
  }

  function NodeAction(k: ActionKind, n: Node, parent: Option<Node>, fp: Fingerprint): OfferedAction
  {
    OfferedAction(NodeActionId(k, n.id), k, Some(n.id),
                  if k.KKey? then n.attrs.name + " submit" else n.attrs.name,
                  Some(n.attrs.role), false, Some(fp(n.id, Row(n.attrs, ParentId(parent)))))
  }

  function OfferNode(s: Space, n: Node, parent: Option<Node>, fp: Fingerprint): Space
  {
    var clicked := if Clickable(n, parent) then Offer(s, NodeAction(KClick, n, parent, fp)) else s;
    if n.attrs.role == "textbox" then
      Offer(Offer(Offer(clicked, NodeAction(KType, n, parent, fp)), NodeAction(KSetValue, n, parent, fp)),
            NodeAction(KKey, n, parent, fp))
    else clicked
  }

  /** Walks a forest; nothing below a hidden or disabled node is offered. */
  function Collect(s: Space, f: Forest, parent: Option<Node>, viable: bool, fp: Fingerprint): Space
    decreases f
  {
    if f == [] then s
    else
      var here := viable && f[0].attrs.enabled && f[0].attrs.visible;
      var own := if here then OfferNode(s, f[0], parent, fp) else s;
      Collect(Collect(own, f[0].children, Some(f[0]), here, fp), f[1..], parent, viable, fp)
  }

  /** Separators become blanks, everything else stays where it is. */
  function Spaced(name: string): (title: string)
    ensures |title| == |name|
    ensures forall i :: 0 <= i < |name| ==>
              title[i] == if name[i] in {'.', '-', '_', '/', ':'} then ' ' else name[i]
  {
    if name == [] then []
    else [if name[0] in {'.', '-', '_', '/', ':'} then ' ' else name[0]] + Spaced(name[1..])
  }

  function BindingAction(kb: KeybindingInfo, risky: string -> bool): OfferedAction
  {
    OfferedAction("KEYBINDING:" + kb.id, KKeybinding, Some(kb.id), Spaced(kb.id) + " " + kb.chord,
                  Some("keybinding"), kb.dangerous || risky(kb.id) || risky(kb.chord), None)
  }

  function OfferBindings(s: Space, kbs: seq<KeybindingInfo>, risky: string -> bool): Space
    decreases kbs
  {
    if kbs == [] then s else OfferBindings(Offer(s, BindingAction(kbs[0], risky)), kbs[1..], risky)
  }

  function InvokeAction(i: OfferedInvoke): OfferedAction
  {
    OfferedAction("INVOKE:" + i.name, KInvoke, Some(i.name), Spaced(i.name) + " " + i.description,
                  Some("invoke"), i.dangerous, None)
  }

  function OfferInvokes(s: Space, invokes: seq<OfferedInvoke>): Space
    decreases invokes
  {
    if invokes == [] then s else OfferInvokes(Offer(s, InvokeAction(invokes[0])), invokes[1..])
  }

  function ControlAction(k: ActionKind): OfferedAction
    requires IsControl(k)
  {
    var title := match k
      case KDone => "Every requirement is satisfied"
      case KBlocked => "No supported operation can progress"
      case _ => "Wait briefly for the app to settle";
    OfferedAction(KindName(k), k, None, title, None, false, None)
  }

  /** `risky` stands for the quit-binding and quit-chord tests. */
  function FromTree(f: Forest, kbs: seq<KeybindingInfo>, invokes: seq<OfferedInvoke>,
                    fp: Fingerprint, risky: string -> bool): Space
  {
    var s := OfferInvokes(OfferBindings(Collect(map[], f, None, true, fp), kbs, risky), invokes);
    Offer(Offer(Offer(s, ControlAction(KDone)), ControlAction(KBlocked)), ControlAction(KWait))
  }

  // ----- what an offered action is

  /** It shows the name and the role of the node it targets, and carries the fingerprint of its row. */
  ghost predicate Observed(f: Forest, fp: Fingerprint, a: OfferedAction)
  {
    && a.target.Some? && a.fingerprint.Some?
    && Flat(f, a.target.value).Some?
    && (var row := Flat(f, a.target.value).value;
        && a.fingerprint.value == fp(a.target.value, row)
        && a.role == Some(row.attrs.role)
        && a.title == if a.kind.KKey? then row.attrs.name + " submit" else row.attrs.name)
  }

  /** Its id is the one its kind and target spell, and what dispatch needs is there. */
  ghost predicate Spelt(kbs: seq<KeybindingInfo>, a: OfferedAction)
  {
    match a.kind
    case KKeybinding => a.target.Some? && a.fingerprint.None? && a.id == "KEYBINDING:" + a.target.value
                        && exists kb :: kb in kbs && kb.id == a.target.value
    case KInvoke => a.target.Some? && a.fingerprint.None? && a.id == "INVOKE:" + a.target.value
    case KDone | KBlocked | KWait => a.id == KindName(a.kind) && a.fingerprint.None? && !a.dangerous
    case _ => a.target.Some? && a.fingerprint.Some? && a.id == NodeActionId(a.kind, a.target.value) && !a.dangerous
  }

  /** Node actions carry the row of their target, if ids are unique. */
  ghost predicate WellFormed(f: Forest, kbs: seq<KeybindingInfo>, fp: Fingerprint, a: OfferedAction)
  {
    Spelt(kbs, a) && (Unique(f) && IsNodeBound(a.kind) ==> Observed(f, fp, a))
  }

  ghost predicate Menu(f: Forest, kbs: seq<KeybindingInfo>, fp: Fingerprint, s: Space)
  {
    forall id :: id in s ==> s[id].id == id && WellFormed(f, kbs, fp, s[id])
  }

  lemma {:induction false} OfferKeepsMenu(f: Forest, kbs: seq<KeybindingInfo>, fp: Fingerprint, s: Space,
                                          a: OfferedAction)
    requires Menu(f, kbs, fp, s) && WellFormed(f, kbs, fp, a)
    ensures Menu(f, kbs, fp, Offer(s, a))
  {
  }

  lemma {:induction false} NodeKeepsMenu(f: Forest, kbs: seq<KeybindingInfo>, fp: Fingerprint, s: Space, n: Node,
                                         parent: Option<Node>)
    requires Menu(f, kbs, fp, s) && (Unique(f) ==> Flat(f, n.id) == Some(Row(n.attrs, ParentId(parent))))
    ensures Menu(f, kbs, fp, OfferNode(s, n, parent, fp))
  {
    var clicked := if Clickable(n, parent) then Offer(s, NodeAction(KClick, n, parent, fp)) else s;
    forall k | IsNodeBound(k) ensures WellFormed(f, kbs, fp, NodeAction(k, n, parent, fp)) { hide Unique; }
    hide Menu, WellFormed, NodeAction;
    if Clickable(n, parent) { OfferKeepsMenu(f, kbs, fp, s, NodeAction(KClick, n, parent, fp)); }
    if n.attrs.role == "textbox" {
      var typed := Offer(clicked, NodeAction(KType, n, parent, fp));
      OfferKeepsMenu(f, kbs, fp, clicked, NodeAction(KType, n, parent, fp));
      OfferKeepsMenu(f, kbs, fp, typed, NodeAction(KSetValue, n, parent, fp));
      OfferKeepsMenu(f, kbs, fp, Offer(typed, NodeAction(KSetValue, n, parent, fp)), NodeAction(KKey, n, parent, fp));
    }
  }

  /** `g` lies in `f` under `parent`. */
  ghost predicate LiesIn(f: Forest, g: Forest, parent: Option<Node>)
  {
    Unique(g) && forall x :: x in Ids(g) ==> Flat(f, x) == RowAt(g, ParentId(parent), x)
  }

  lemma {:induction false} PartsLieIn(f: Forest, g: Forest, parent: Option<Node>)
    requires g != [] && LiesIn(f, g, parent)
    ensures Flat(f, g[0].id) == Some(Row(g[0].attrs, ParentId(parent)))
    ensures LiesIn(f, g[0].children, Some(g[0])) && LiesIn(f, g[1..], parent)
  {
    assert g[0].id in Ids(g);
    assert forall x :: x in Ids(g[0].children) ==> Flat(f, x) == RowAt(g[0].children, ParentId(Some(g[0])), x);
    assert forall x :: x in Ids(g[1..]) ==> Flat(f, x) == RowAt(g[1..], ParentId(parent), x);
  }

  /** Offered node actions carry the row the whole tree has for their target. */
  lemma {:induction false} CollectKeepsMenu(f: Forest, kbs: seq<KeybindingInfo>, fp: Fingerprint, s: Space,
                                            g: Forest, parent: Option<Node>, viable: bool)
    requires Menu(f, kbs, fp, s) && (Unique(f) ==> LiesIn(f, g, parent))
    ensures Menu(f, kbs, fp, Collect(s, g, parent, viable, fp))
    decreases g
  {
    if g != [] {
      var here := viable && g[0].attrs.enabled && g[0].attrs.visible;
      var own := if here then OfferNode(s, g[0], parent, fp) else s;
      if Unique(f) { PartsLieIn(f, g, parent); }
      hide LiesIn, Unique, Menu, OfferNode;
      if here { NodeKeepsMenu(f, kbs, fp, s, g[0], parent); }
      CollectKeepsMenu(f, kbs, fp, own, g[0].children, Some(g[0]), here);
      CollectKeepsMenu(f, kbs, fp, Collect(own, g[0].children, Some(g[0]), here, fp), g[1..], parent, viable);
    }
  }

  lemma {:induction false} BindingsKeepMenu(f: Forest, kbs: seq<KeybindingInfo>, fp: Fingerprint, s: Space,
                                            rest: seq<KeybindingInfo>, risky: string -> bool)
    requires Menu(f, kbs, fp, s) && forall kb :: kb in rest ==> kb in kbs
    ensures Menu(f, kbs, fp, OfferBindings(s, rest, risky))
    decreases rest
  {
    if rest != [] {
      OfferKeepsMenu(f, kbs, fp, s, BindingAction(rest[0], risky));
      BindingsKeepMenu(f, kbs, fp, Offer(s, BindingAction(rest[0], risky)), rest[1..], risky);
    }
  }

  lemma {:induction false} InvokesKeepMenu(f: Forest, kbs: seq<KeybindingInfo>, fp: Fingerprint, s: Space,
                                           invokes: seq<OfferedInvoke>)
    requires Menu(f, kbs, fp, s)
    ensures Menu(f, kbs, fp, OfferInvokes(s, invokes))
    decreases invokes
  {
    if invokes != [] {
      OfferKeepsMenu(f, kbs, fp, s, InvokeAction(invokes[0]));
      InvokesKeepMenu(f, kbs, fp, Offer(s, InvokeAction(invokes[0])), invokes[1..]);
    }
  }

  /** No other action can spell a control's id: kinds differ in their first letter. */
  lemma {:induction false} ControlIdIsControl(kbs: seq<KeybindingInfo>, a: OfferedAction, k: ActionKind)
    requires Spelt(kbs, a) && IsControl(k) && a.id == KindName(k)
    ensures a.kind == k
  {
    assert a.id[0] == KindName(a.kind)[0];
  }

  /** The space built from an observation is a menu of dispatchable actions, with the controls in it. */
  lemma {:induction false} SpaceIsMenu(f: Forest, kbs: seq<KeybindingInfo>, invokes: seq<OfferedInvoke>,
                                       fp: Fingerprint, risky: string -> bool)
    ensures var s := FromTree(f, kbs, invokes, fp, risky);
            && Menu(f, kbs, fp, s)
            && forall k :: IsControl(k) ==> KindName(k) in s && s[KindName(k)].kind == k
  {
    CollectKeepsMenu(f, kbs, fp, map[], f, None, true);
    var nodes := Collect(map[], f, None, true, fp);
    BindingsKeepMenu(f, kbs, fp, nodes, kbs, risky);
    var bound := OfferBindings(nodes, kbs, risky);
    InvokesKeepMenu(f, kbs, fp, bound, invokes);
    ControlsComplete(f, kbs, fp, OfferInvokes(bound, invokes));
  }

  lemma {:induction false} ControlsComplete(f: Forest, kbs: seq<KeybindingInfo>, fp: Fingerprint, s: Space)
    requires Menu(f, kbs, fp, s)
    ensures var t := Offer(Offer(Offer(s, ControlAction(KDone)), ControlAction(KBlocked)), ControlAction(KWait));
            && Menu(f, kbs, fp, t)
            && forall k :: IsControl(k) ==> KindName(k) in t && t[KindName(k)].kind == k
  {
    var d := Offer(s, ControlAction(KDone));
    var b := Offer(d, ControlAction(KBlocked));
    var t := Offer(b, ControlAction(KWait));
    OfferKeepsMenu(f, kbs, fp, s, ControlAction(KDone));
    OfferKeepsMenu(f, kbs, fp, d, ControlAction(KBlocked));
    OfferKeepsMenu(f, kbs, fp, b, ControlAction(KWait));
    forall k | IsControl(k) ensures KindName(k) in t && t[KindName(k)].kind == k {
      assert KindName(k) in t;
      ControlIdIsControl(kbs, t[KindName(k)], k);
    }
  }

  lemma {:induction false} BindingsKeepOffer(s: Space, kbs: seq<KeybindingInfo>, risky: string -> bool, id: string)
    requires id in s
    ensures id in OfferBindings(s, kbs, risky) && OfferBindings(s, kbs, risky)[id] == s[id]
    decreases kbs
  {
    if kbs != [] { BindingsKeepOffer(Offer(s, BindingAction(kbs[0], risky)), kbs[1..], risky, id); }
  }

  lemma {:induction false} InvokesKeepOffer(s: Space, invokes: seq<OfferedInvoke>, id: string)
    requires id in s
    ensures id in OfferInvokes(s, invokes) && OfferInvokes(s, invokes)[id] == s[id]
    decreases invokes
  {
    if invokes != [] { InvokesKeepOffer(Offer(s, InvokeAction(invokes[0])), invokes[1..], id); }
  }

  // ----- the key in a KEY id

  /** Splits at the last colon. */
  function AfterLastColon(s: string): Option<string>
  {
    if s == [] then None
    else if s[|s| - 1] == ':' then Some([])
    else match AfterLastColon(s[..|s| - 1]) case None => None case Some(t) => Some(t + [s[|s| - 1]])
  }

  function KeyOf(a: OfferedAction): Option<string>
  {
    if |a.id| < 4 || a.id[..4] != "KEY:" then None else AfterLastColon(a.id[4..])
  }

  lemma {:induction false} LastColonSplits(s: string, t: string)
    requires forall i :: 0 <= i < |t| ==> t[i] != ':'
    ensures AfterLastColon(s + ":" + t) == Some(t)
    decreases |t|
  {
    var all := s + ":" + t;
    if t == [] {
      assert all[|all| - 1] == ':';
    } else {
      assert all[..|all| - 1] == s + ":" + t[..|t| - 1];
      LastColonSplits(s, t[..|t| - 1]);
      assert t[..|t| - 1] + [t[|t| - 1]] == t;
    }
  }

  /** The key of every offered KEY action reads back as Enter, whatever colons its node id holds. */
  lemma {:induction false} KeyReadsBack(kbs: seq<KeybindingInfo>, a: OfferedAction)
    requires Spelt(kbs, a) && a.kind.KKey?
    ensures KeyOf(a) == Some("Enter")
  {
    var t := a.target.value;
    assert a.id == "KEY:" + (t + ":" + "Enter");
    assert a.id[..4] == "KEY:" && a.id[4..] == t + ":" + "Enter";
    LastColonSplits(t, "Enter");
  }

  // ----- which node actions are offered

  /** Hidden or disabled nodes. */
  function Unviable(f: Forest): set<string>
  {
    set x | x in Ids(f) && !(Flat(f, x).value.attrs.enabled && Flat(f, x).value.attrs.visible)
  }

  /** A node of this role, under a parent of that role, takes this kind of action. */
  predicate Suits(k: ActionKind, role: string, parentRole: Option<string>)
  {
    if k.KClick? then
      role in {"button", "link", "tab", "checkbox", "switch"}
      || (role == "listitem" && parentRole == Some("navigation"))
    else role == "textbox"
  }

  function RoleOf(parent: Option<Node>): Option<string>
  {
    if parent.Some? then Some(parent.value.attrs.role) else None
  }

  function ParentRole(f: Forest, x: string): Option<string>
    requires x in Ids(f)
  {
    var p := Flat(f, x).value.parent;
    if p.Some? && p.value in Ids(f) then Some(Flat(f, p.value).value.attrs.role) else None
  }

  lemma {:induction false} SameTail(a: string, x: string, y: string)
    requires a + x == a + y
    ensures x == y
  {
    assert (a + x)[|a|..] == x && (a + y)[|a|..] == y;
  }

  /** Node action ids are injective in kind and node. */
  lemma {:induction false} NodeIdsInjective(k: ActionKind, x: string, m: ActionKind, y: string)
    requires IsNodeBound(k) && IsNodeBound(m) && NodeActionId(k, x) == NodeActionId(m, y)
    ensures k == m && x == y
  {
    assert NodeActionId(k, x)[0] == KindName(k)[0] && NodeActionId(m, y)[0] == KindName(m)[0];
    if k.KKey? {
      assert NodeActionId(k, x) == "KEY:" + (x + ":Enter") && NodeActionId(m, y) == "KEY:" + (y + ":Enter");
      SameTail("KEY:", x + ":Enter", y + ":Enter");
      assert (x + ":Enter")[..|x|] == x && (y + ":Enter")[..|y|] == y;
    } else {
      assert NodeActionId(k, x) == (KindName(k) + ":") + x && NodeActionId(m, y) == (KindName(k) + ":") + y;
      SameTail(KindName(k) + ":", x, y);
    }
  }

  lemma {:induction false} OfferNodeMembers(s: Space, n: Node, parent: Option<Node>, fp: Fingerprint, k: ActionKind,
                                            x: string)
    requires IsNodeBound(k)
    ensures NodeActionId(k, x) in OfferNode(s, n, parent, fp) <==>
              NodeActionId(k, x) in s || (x == n.id && Suits(k, n.attrs.role, RoleOf(parent)))
  {
    forall m | IsNodeBound(m) ensures NodeActionId(m, n.id) == NodeActionId(k, x) ==> m == k && x == n.id {
      if NodeActionId(m, n.id) == NodeActionId(k, x) { NodeIdsInjective(m, n.id, k, x); }
    }
    assert IsNodeBound(KClick) && IsNodeBound(KType) && IsNodeBound(KSetValue) && IsNodeBound(KKey);
    hide NodeActionId;
  }

  /** `g` lies in `f` under `parent`, and `hidden` marks its unviable nodes. */
  ghost predicate Placed(f: Forest, g: Forest, parent: Option<Node>, hidden: set<string>)
  {
    && Unique(g)
    && (parent.Some? ==> parent.value.id in Ids(f) && Flat(f, parent.value.id).value.attrs == parent.value.attrs)
    && (forall x :: x in Ids(g) ==> Flat(f, x) == RowAt(g, ParentId(parent), x))
    && (forall x :: x in Ids(g) ==>
          var attrs := RowAt(g, ParentId(parent), x).value.attrs;
          (x in hidden <==> !(attrs.enabled && attrs.visible)))
  }

  lemma {:induction false} PlacedParts(f: Forest, g: Forest, parent: Option<Node>, hidden: set<string>)
    requires Placed(f, g, parent, hidden) && g != []
    ensures Placed(f, g[0].children, Some(g[0]), hidden) && Placed(f, g[1..], parent, hidden)
    ensures g[0].id in Ids(f) && Flat(f, g[0].id) == Some(Row(g[0].attrs, ParentId(parent)))
    ensures g[0].id in hidden <==> !(g[0].attrs.enabled && g[0].attrs.visible)
    ensures ParentRole(f, g[0].id) == RoleOf(parent)
  {
    assert g[0].id in Ids(g);
    assert RowAt(g, ParentId(parent), g[0].id) == Some(Row(g[0].attrs, ParentId(parent)));
    assert forall x :: x in Ids(g[0].children) ==>
        RowAt(g, ParentId(parent), x) == RowAt(g[0].children, Some(g[0].id), x);
    assert forall x :: x in Ids(g[1..]) ==> RowAt(g, ParentId(parent), x) == RowAt(g[1..], ParentId(parent), x);
    assert forall x :: x in Ids(g[0].children) || x in Ids(g[1..]) ==> x in Ids(g);
  }

  lemma {:induction false} CollectMembers(s: Space, f: Forest, g: Forest, parent: Option<Node>, viable: bool,
                                          fp: Fingerprint, hidden: set<string>, k: ActionKind, x: string)
    requires IsNodeBound(k) && Placed(f, g, parent, hidden)
    ensures NodeActionId(k, x) in Collect(s, g, parent, viable, fp) <==>
              NodeActionId(k, x) in s
              || (viable && x in Ids(Cut(g, hidden)) && x in Ids(f)
                  && Suits(k, Flat(f, x).value.attrs.role, ParentRole(f, x)))
    decreases g
  {
    if g != [] {
      PlacedParts(f, g, parent, hidden);
      var here := viable && g[0].attrs.enabled && g[0].attrs.visible;
      var own := if here then OfferNode(s, g[0], parent, fp) else s;
      if here { OfferNodeMembers(s, g[0], parent, fp, k, x); }
      CollectMembers(own, f, g[0].children, Some(g[0]), here, fp, hidden, k, x);
      CollectMembers(Collect(own, g[0].children, Some(g[0]), here, fp), f, g[1..], parent, viable, fp, hidden, k, x);
      hide Placed, Suits, ParentRole, NodeActionId, OfferNode;
    }
  }

  /** A node action is offered exactly for a node of a suitable role that is neither hidden nor
      disabled nor below such a node. */
  lemma {:induction false} OfferedIffViable(f: Forest, fp: Fingerprint, k: ActionKind, x: string)
    requires Unique(f) && IsNodeBound(k)
    ensures NodeActionId(k, x) in Collect(map[], f, None, true, fp) <==>
              x in Ids(Cut(f, Unviable(f))) && x in Ids(f) && Suits(k, Flat(f, x).value.attrs.role, ParentRole(f, x))
  {
    assert Placed(f, f, None, Unviable(f));
    CollectMembers(map[], f, f, None, true, fp, Unviable(f), k, x);
  }

  // ----- the whole menu

  /** A node of a suitable role that is neither hidden nor disabled nor below such a node. */
  ghost predicate TakesAction(f: Forest, k: ActionKind, x: string)
  {
    && IsNodeBound(k) && x in Ids(Cut(f, Unviable(f))) && x in Ids(f)
    && Suits(k, Flat(f, x).value.attrs.role, ParentRole(f, x))
  }

  predicate NodeActions(s: Space)
  {
    forall id :: id in s ==>
      IsNodeBound(s[id].kind) && s[id].target.Some? && id == NodeActionId(s[id].kind, s[id].target.value)
  }

  lemma {:induction false} NodeHoldsNodeActions(s: Space, n: Node, parent: Option<Node>, fp: Fingerprint)
    requires NodeActions(s)
    ensures NodeActions(OfferNode(s, n, parent, fp))
  {
    hide NodeActionId;
  }

  lemma {:induction false} CollectHoldsNodeActions(s: Space, f: Forest, parent: Option<Node>, viable: bool,
                                                   fp: Fingerprint)
    requires NodeActions(s)
    ensures NodeActions(Collect(s, f, parent, viable, fp))
    decreases f
  {
    if f != [] {
      var here := viable && f[0].attrs.enabled && f[0].attrs.visible;
      var own := if here then OfferNode(s, f[0], parent, fp) else s;
      hide NodeActions, OfferNode;
      if here { NodeHoldsNodeActions(s, f[0], parent, fp); }
      CollectHoldsNodeActions(own, f[0].children, Some(f[0]), here, fp);
      CollectHoldsNodeActions(Collect(own, f[0].children, Some(f[0]), here, fp), f[1..], parent, viable, fp);
    }
  }

  lemma {:induction false} BindingMembers(s: Space, kbs: seq<KeybindingInfo>, risky: string -> bool, id: string)
    ensures id in OfferBindings(s, kbs, risky) <==>
              id in s || exists kb :: kb in kbs && id == "KEYBINDING:" + kb.id
    decreases kbs
  {
    if kbs != [] {
      BindingMembers(Offer(s, BindingAction(kbs[0], risky)), kbs[1..], risky, id);
      assert kbs == [kbs[0]] + kbs[1..] && kbs[0] in kbs;
    }
  }

  lemma {:induction false} InvokeMembers(s: Space, invokes: seq<OfferedInvoke>, id: string)
    ensures id in OfferInvokes(s, invokes) <==> id in s || exists i :: i in invokes && id == "INVOKE:" + i.name
    decreases invokes
  {
    if invokes != [] {
      InvokeMembers(Offer(s, InvokeAction(invokes[0])), invokes[1..], id);
      assert invokes == [invokes[0]] + invokes[1..] && invokes[0] in invokes;
    }
  }

  lemma {:induction false} NodeMembers(f: Forest, fp: Fingerprint, id: string)
    requires Unique(f)
    ensures id in Collect(map[], f, None, true, fp) <==>
              exists k, x :: TakesAction(f, k, x) && id == NodeActionId(k, x)
  {
    var nodes := Collect(map[], f, None, true, fp);
    CollectHoldsNodeActions(map[], f, None, true, fp);
    hide Collect, NodeActionId, Cut, Unviable, Suits, Unique;
    if id in nodes {
      OfferedIffViable(f, fp, nodes[id].kind, nodes[id].target.value);
      assert TakesAction(f, nodes[id].kind, nodes[id].target.value);
    }
    if k, x :| TakesAction(f, k, x) && id == NodeActionId(k, x) { OfferedIffViable(f, fp, k, x); }
  }

  /** The menu of an observation, exactly: every action some node takes, every listed binding and invoke, and the
      three controls. */
  lemma {:induction false} MenuIsExact(f: Forest, kbs: seq<KeybindingInfo>, invokes: seq<OfferedInvoke>,
                                       fp: Fingerprint, risky: string -> bool, id: string)
    requires Unique(f)
    ensures id in FromTree(f, kbs, invokes, fp, risky) <==>
              || (exists k, x :: TakesAction(f, k, x) && id == NodeActionId(k, x))
              || (exists kb :: kb in kbs && id == "KEYBINDING:" + kb.id)
              || (exists i :: i in invokes && id == "INVOKE:" + i.name)
              || id == "DONE" || id == "BLOCKED" || id == "WAIT"
  {
    var nodes := Collect(map[], f, None, true, fp);
    var bound := OfferBindings(nodes, kbs, risky);
    ControlMembers(OfferInvokes(bound, invokes), id);
    NodeMembers(f, fp, id);
    BindingMembers(nodes, kbs, risky, id);
    InvokeMembers(bound, invokes, id);
    hide Collect, OfferBindings, OfferInvokes, TakesAction, NodeActionId, ControlAction, Unique;
  }

  lemma {:induction false} ControlMembers(s: Space, id: string)
    ensures id in Offer(Offer(Offer(s, ControlAction(KDone)), ControlAction(KBlocked)), ControlAction(KWait)) <==>
              id in s || id == "DONE" || id == "BLOCKED" || id == "WAIT"
  {
  }
}
