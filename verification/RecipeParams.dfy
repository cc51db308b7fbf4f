/** Recipe parameters: collection, validation and substitution over whole operations. */
module RecipeParams {
  import opened Chars
  import opened Ordering
  import opened Protocol
  import opened Placeholder
  import opened Waves

  const RECIPE_FORMAT_VERSION: nat := 1
  const MAX_RECIPE_STEPS: nat := 256

  type Given = map<string, string>

  function Holes(s: string): set<string> { Names(Segments(s)) }

  function HolesIn(s: Option<string>): set<string> { if s.Some? then Holes(s.value) else {} }

  // ----- collection

  function ValueHoles(v: Value): set<string>
  {
    match v
    case VString(s) => Holes(s)
    case VArray(items) => ItemHoles(items)
    case VObject(fields) => FieldHoles(fields)
    case _ => {}
  }

  function ItemHoles(items: seq<Value>): set<string>
  {
    if items == [] then {} else ValueHoles(items[0]) + ItemHoles(items[1..])
  }

  function FieldHoles(fields: seq<Member>): set<string>
  {
    if fields == [] then {} else ValueHoles(fields[0].value) + FieldHoles(fields[1..])
  }

  function SpecHoles(spec: AssertSpec): set<string>
  {
    Holes(spec.target) + HolesIn(spec.name) + HolesIn(spec.value) + HolesIn(spec.role)
  }

  /** The names an operation's string fields mention. */
  function OpHoles(op: Op): set<string>
  {
    match op
    case Hello | Snapshot(_) | Shutdown | Wait(_) | Keybindings | Events(_) | Revision => {}
    case WaitUntil(_, spec) => SpecHoles(spec)
    case Assert(spec) => SpecHoles(spec)
    case Click(target, _) => Holes(target)
    case Type(target, text, _) => Holes(target) + Holes(text)
    case SetValue(target, content, _) => Holes(target) + Holes(content)
    case Key(target, key, _) => Holes(target) + Holes(key)
    case Keybinding(binding, chord, _) => Holes(binding) + HolesIn(chord)
    case Invoke(name, args) => Holes(name) + ValueHoles(args)
    case Screenshot(path, _, area) => HolesIn(path) + HolesIn(area)
  }

  // ----- substitution

  function Subst(s: string, given: Given): Result<string> { Fill(Segments(s), given) }

  function SubstOption(s: Option<string>, given: Given): Result<Option<string>>
  {
    match s
    case None => Ok(None)
    case Some(t) => match Subst(t, given) case Ok(u) => Ok(Some(u)) case Err(e) => Err(e)
  }

  function SubstValue(v: Value, given: Given): Result<Value>
  {
    match v
    case VString(s) => (match Subst(s, given) case Ok(t) => Ok(VString(t)) case Err(e) => Err(e))
    case VArray(items) => (match SubstItems(items, given) case Ok(xs) => Ok(VArray(xs)) case Err(e) => Err(e))
    case VObject(fields) => (match SubstFields(fields, given) case Ok(fs) => Ok(VObject(fs)) case Err(e) => Err(e))
    case _ => Ok(v)
  }

  function SubstItems(items: seq<Value>, given: Given): Result<seq<Value>>
  {
    if items == [] then Ok([])
    else match SubstValue(items[0], given)
      case Err(e) => Err(e)
      case Ok(x) => match SubstItems(items[1..], given) case Err(e) => Err(e) case Ok(xs) => Ok([x] + xs)
  }

  /** Values are substituted; object keys are not. */
  function SubstFields(fields: seq<Member>, given: Given): Result<seq<Member>>
  {
    if fields == [] then Ok([])
    else match SubstValue(fields[0].value, given)
      case Err(e) => Err(e)
      case Ok(x) => match SubstFields(fields[1..], given)
        case Err(e) => Err(e)
        case Ok(fs) => Ok([Member(fields[0].key, x)] + fs)
  }

  /** Two substitutions in order; the first failure wins. */
  function Both<A, B>(a: Result<A>, b: Result<B>): Result<(A, B)>
  {
    match a
    case Err(e) => Err(e)
    case Ok(x) => match b case Err(e) => Err(e) case Ok(y) => Ok((x, y))
  }

  function SubstSpec(spec: AssertSpec, given: Given): Result<AssertSpec>
  {
    match Both(Both(Subst(spec.target, given), SubstOption(spec.name, given)),
               Both(SubstOption(spec.value, given), SubstOption(spec.role, given)))
    case Err(e) => Err(e)
    case Ok(((target, name), (value, role))) => Ok(AssertSpec(target, name, value, role))
  }

  function SubstOp(op: Op, given: Given): Result<Op>
  {
    match op
    case Hello | Snapshot(_) | Shutdown | Wait(_) | Keybindings | Events(_) | Revision => Ok(op)
    case WaitUntil(limit, spec) =>
      (match SubstSpec(spec, given) case Err(e) => Err(e) case Ok(s) => Ok(WaitUntil(limit, s)))
    case Assert(spec) => (match SubstSpec(spec, given) case Err(e) => Err(e) case Ok(s) => Ok(Assert(s)))
    case Click(target, gate) =>
      (match Subst(target, given) case Err(e) => Err(e) case Ok(t) => Ok(Click(t, gate)))
    case Type(target, text, gate) =>
      (match Both(Subst(target, given), Subst(text, given))
       case Err(e) => Err(e) case Ok((t, u)) => Ok(Type(t, u, gate)))
    case SetValue(target, content, gate) =>
      (match Both(Subst(target, given), Subst(content, given))
       case Err(e) => Err(e) case Ok((t, u)) => Ok(SetValue(t, u, gate)))
    case Key(target, key, gate) =>
      (match Both(Subst(target, given), Subst(key, given))
       case Err(e) => Err(e) case Ok((t, u)) => Ok(Key(t, u, gate)))
    case Keybinding(binding, chord, confirm) =>
      (match Both(Subst(binding, given), SubstOption(chord, given))
       case Err(e) => Err(e) case Ok((b, c)) => Ok(Keybinding(b, c, confirm)))
    case Invoke(name, args) =>
      (match Both(Subst(name, given), SubstValue(args, given))
       case Err(e) => Err(e) case Ok((n, a)) => Ok(Invoke(n, a)))
    case Screenshot(path, scrolled, area) =>
      (match Both(SubstOption(path, given), SubstOption(area, given))
       case Err(e) => Err(e) case Ok((p, a)) => Ok(Screenshot(p, scrolled, a)))
  }

  // ----- collection and substitution visit the same text

  ghost predicate Exactly<A>(r: Result<A>, holes: set<string>, given: Given, same: A)
  {
    (r.Ok? <==> holes <= given.Keys) && (holes == {} ==> r == Ok(same))
  }

  lemma {:induction false} StringExact(s: string, given: Given)
    ensures Exactly(Subst(s, given), Holes(s), given, s)
  {
    FillIffGiven(Segments(s), given);
    if Holes(s) == {} { NothingCollectedNothingChanged(s, given); }
  }

  lemma {:induction false} OptionExact(s: Option<string>, given: Given)
    ensures Exactly(SubstOption(s, given), HolesIn(s), given, s)
  {
    if s.Some? { StringExact(s.value, given); }
  }

  lemma {:induction false} ValueExact(v: Value, given: Given)
    ensures Exactly(SubstValue(v, given), ValueHoles(v), given, v)
  {
    match v
    case VString(s) => StringExact(s, given);
    case VArray(items) => ItemsExact(items, given);
    case VObject(fields) => FieldsExact(fields, given);
    case _ =>
  }

  lemma {:induction false} ItemsExact(items: seq<Value>, given: Given)
    ensures Exactly(SubstItems(items, given), ItemHoles(items), given, items)
  {
    if items != [] {
      ValueExact(items[0], given);
      ItemsExact(items[1..], given);
      assert [items[0]] + items[1..] == items;
    }
  }

  lemma {:induction false} FieldsExact(fields: seq<Member>, given: Given)
    ensures Exactly(SubstFields(fields, given), FieldHoles(fields), given, fields)
  {
    if fields != [] {
      ValueExact(fields[0].value, given);
      FieldsExact(fields[1..], given);
      assert [Member(fields[0].key, fields[0].value)] + fields[1..] == fields;
    }
  }

  lemma {:induction false} SpecExact(spec: AssertSpec, given: Given)
    ensures Exactly(SubstSpec(spec, given), SpecHoles(spec), given, spec)
  {
    StringExact(spec.target, given);
    OptionExact(spec.name, given);
    OptionExact(spec.value, given);
    OptionExact(spec.role, given);
    hide Subst, SubstOption, Holes, HolesIn;
  }

  lemma {:induction false} WaitUntilExact(limit: nat, spec: AssertSpec, given: Given)
    ensures var op := WaitUntil(limit, spec); Exactly(SubstOp(op, given), OpHoles(op), given, op)
  {
    SpecExact(spec, given);
    hide SubstSpec, SpecHoles;
  }

  lemma {:induction false} AssertExact(spec: AssertSpec, given: Given)
    ensures var op := Assert(spec); Exactly(SubstOp(op, given), OpHoles(op), given, op)
  {
    SpecExact(spec, given);
    hide SubstSpec, SpecHoles;
  }

  /** A result built from an exact one, over the same holes, is exact. */
  lemma {:induction false} BuiltExact<A, B>(both: Result<A>, built: Result<B>, holes: set<string>, given: Given, x: A,
                                            op: B)
    requires Exactly(both, holes, given, x)
    requires both.Ok? <==> built.Ok?
    requires both == Ok(x) ==> built == Ok(op)
    ensures Exactly(built, holes, given, op)
  {
  }

  lemma {:induction false} PairExact<A, B>(a: Result<A>, b: Result<B>, ah: set<string>, bh: set<string>, given: Given,
                                           x: A, y: B)
    requires Exactly(a, ah, given, x) && Exactly(b, bh, given, y)
    ensures Exactly(Both(a, b), ah + bh, given, (x, y))
  {
  }

  lemma {:induction false} TargetOpExact(op: Op, given: Given)
    requires op.Click? || op.Type? || op.SetValue? || op.Key?
    ensures Exactly(SubstOp(op, given), OpHoles(op), given, op)
  {
    StringExact(op.target, given);
    var t, th := Subst(op.target, given), Holes(op.target);
    match op
    case Click(_, _) => hide Subst, Holes;
    case Type(_, u, _) =>
      StringExact(u, given);
      PairExact(t, Subst(u, given), th, Holes(u), given, op.target, u);
      hide Subst, Holes, Both;
    case SetValue(_, u, _) =>
      StringExact(u, given);
      PairExact(t, Subst(u, given), th, Holes(u), given, op.target, u);
      hide Subst, Holes, Both;
    case Key(_, u, _) =>
      StringExact(u, given);
      PairExact(t, Subst(u, given), th, Holes(u), given, op.target, u);
      hide Subst, Holes, Both;
  }

  lemma {:induction false} KeybindingExact(b: string, c: Option<string>, confirm: bool, given: Given)
    ensures var op := Keybinding(b, c, confirm); Exactly(SubstOp(op, given), OpHoles(op), given, op)
  {
    hide Exactly, Subst, SubstOption, SubstValue, SubstSpec, Holes, HolesIn, ValueHoles, SpecHoles;
    StringExact(b, given);
    OptionExact(c, given);
    var op, both := Keybinding(b, c, confirm), Both(Subst(b, given), SubstOption(c, given));
    PairExact(Subst(b, given), SubstOption(c, given), Holes(b), HolesIn(c), given, b, c);
    assert OpHoles(op) == Holes(b) + HolesIn(c);
    assert both.Ok? <==> SubstOp(op, given).Ok?;
    assert both == Ok((b, c)) ==> SubstOp(op, given) == Ok(op);
    hide *;
    BuiltExact(both, SubstOp(op, given), OpHoles(op), given, (b, c), op);
  }

  lemma {:induction false} InvokeExact(n: string, args: Value, given: Given)
    ensures var op := Invoke(n, args); Exactly(SubstOp(op, given), OpHoles(op), given, op)
  {
    hide Exactly, Subst, SubstOption, SubstValue, SubstSpec, Holes, HolesIn, ValueHoles, SpecHoles;
    StringExact(n, given);
    ValueExact(args, given);
    var op, both := Invoke(n, args), Both(Subst(n, given), SubstValue(args, given));
    PairExact(Subst(n, given), SubstValue(args, given), Holes(n), ValueHoles(args), given, n, args);
    assert OpHoles(op) == Holes(n) + ValueHoles(args);
    assert both.Ok? <==> SubstOp(op, given).Ok?;
    assert both == Ok((n, args)) ==> SubstOp(op, given) == Ok(op);
    hide *;
    BuiltExact(both, SubstOp(op, given), OpHoles(op), given, (n, args), op);
  }

  lemma {:induction false} ScreenshotExact(p: Option<string>, scrolled: bool, a: Option<string>, given: Given)
    ensures var op := Screenshot(p, scrolled, a); Exactly(SubstOp(op, given), OpHoles(op), given, op)
  {
    hide Exactly, Subst, SubstOption, SubstValue, SubstSpec, Holes, HolesIn, ValueHoles, SpecHoles;
    OptionExact(p, given);
    OptionExact(a, given);
    var op, both := Screenshot(p, scrolled, a), Both(SubstOption(p, given), SubstOption(a, given));
    PairExact(SubstOption(p, given), SubstOption(a, given), HolesIn(p), HolesIn(a), given, p, a);
    assert OpHoles(op) == HolesIn(p) + HolesIn(a);
    assert both.Ok? <==> SubstOp(op, given).Ok?;
    assert both == Ok((p, a)) ==> SubstOp(op, given) == Ok(op);
    hide *;
    BuiltExact(both, SubstOp(op, given), OpHoles(op), given, (p, a), op);
  }

  /** Substituting into an operation succeeds exactly when the collected names are all given, and
      changes nothing when none is collected: no string field is visited by only one of the two. */
  lemma {:induction false} OpExact(op: Op, given: Given)
    ensures Exactly(SubstOp(op, given), OpHoles(op), given, op)
  {
    match op
    case WaitUntil(limit, spec) => WaitUntilExact(limit, spec, given); hide *;
    case Assert(spec) => AssertExact(spec, given); hide *;
    case Click(_, _) => TargetOpExact(op, given); hide *;
    case Type(_, _, _) => TargetOpExact(op, given); hide *;
    case SetValue(_, _, _) => TargetOpExact(op, given); hide *;
    case Key(_, _, _) => TargetOpExact(op, given); hide *;
    case Keybinding(b, c, confirm) => KeybindingExact(b, c, confirm, given); hide *;
    case Invoke(n, args) => InvokeExact(n, args, given); hide *;
    case Screenshot(p, scrolled, a) => ScreenshotExact(p, scrolled, a, given); hide *;
    case _ =>
  }

  // ----- what substitution returns

  function OptionLeaf(s: Option<string>): seq<string> { if s.Some? then [s.value] else [] }

  function ValueLeaves(v: Value): seq<string>
  {
    match v
    case VString(s) => [s]
    case VArray(items) => ItemLeaves(items)
    case VObject(fields) => FieldLeaves(fields)
    case _ => []
  }

  function ItemLeaves(items: seq<Value>): seq<string>
  {
    if items == [] then [] else ValueLeaves(items[0]) + ItemLeaves(items[1..])
  }

  function FieldLeaves(fields: seq<Member>): seq<string>
  {
    if fields == [] then [] else ValueLeaves(fields[0].value) + FieldLeaves(fields[1..])
  }

  function SpecLeaves(spec: AssertSpec): seq<string>
  {
    [spec.target] + OptionLeaf(spec.name) + OptionLeaf(spec.value) + OptionLeaf(spec.role)
  }

  /** Every text an operation holds, object keys excepted, in field order. */
  function Leaves(op: Op): seq<string>
  {
    match op
    case WaitUntil(_, spec) => SpecLeaves(spec)
    case Assert(spec) => SpecLeaves(spec)
    case Click(target, _) => [target]
    case Type(target, text, _) => [target, text]
    case SetValue(target, content, _) => [target, content]
    case Key(target, key, _) => [target, key]
    case Keybinding(binding, chord, _) => [binding] + OptionLeaf(chord)
    case Invoke(name, args) => [name] + ValueLeaves(args)
    case Screenshot(path, _, area) => OptionLeaf(path) + OptionLeaf(area)
    case Hello | Snapshot(_) | Shutdown | Wait(_) | Keybindings | Events(_) | Revision => []
  }

  function BlankOption(s: Option<string>): Option<string> { if s.Some? then Some("") else None }

  function BlankValue(v: Value): Value
  {
    match v
    case VString(_) => VString("")
    case VArray(items) => VArray(BlankItems(items))
    case VObject(fields) => VObject(BlankFields(fields))
    case _ => v
  }

  function BlankItems(items: seq<Value>): seq<Value>
  {
    if items == [] then [] else [BlankValue(items[0])] + BlankItems(items[1..])
  }

  function BlankFields(fields: seq<Member>): seq<Member>
  {
    if fields == [] then [] else [Member(fields[0].key, BlankValue(fields[0].value))] + BlankFields(fields[1..])
  }

  function BlankSpec(spec: AssertSpec): AssertSpec
  {
    AssertSpec("", BlankOption(spec.name), BlankOption(spec.value), BlankOption(spec.role))
  }

  /** An operation without its texts. */
  function Blanked(op: Op): Op
  {
    match op
    case WaitUntil(limit, spec) => WaitUntil(limit, BlankSpec(spec))
    case Assert(spec) => Assert(BlankSpec(spec))
    case Click(_, gate) => Click("", gate)
    case Type(_, _, gate) => Type("", "", gate)
    case SetValue(_, _, gate) => SetValue("", "", gate)
    case Key(_, _, gate) => Key("", "", gate)
    case Keybinding(_, chord, confirm) => Keybinding("", BlankOption(chord), confirm)
    case Invoke(_, args) => Invoke("", BlankValue(args))
    case Screenshot(path, scrolled, area) => Screenshot(BlankOption(path), scrolled, BlankOption(area))
    case Hello | Snapshot(_) | Shutdown | Wait(_) | Keybindings | Events(_) | Revision => op
  }

  /** The texts `b` are the texts `a` with their holes filled, one by one. */
  predicate Filled(a: seq<string>, b: seq<string>, given: Given)
  {
    |a| == |b| && forall k :: 0 <= k < |a| ==> Fill(Segments(a[k]), given) == Ok(b[k])
  }

  /** `b` is `a` with every text filled and nothing else touched. */
  predicate FilledOp(a: Op, b: Op, given: Given)
  {
    Blanked(a) == Blanked(b) && Filled(Leaves(a), Leaves(b), given)
  }

  lemma {:induction false} FilledJoin(a: seq<string>, b: seq<string>, c: seq<string>, d: seq<string>, given: Given)
    requires Filled(a, b, given) && Filled(c, d, given)
    ensures Filled(a + c, b + d, given)
  {
    hide Fill, Segments;
  }

  lemma {:induction false} OptionFills(s: Option<string>, given: Given)
    requires SubstOption(s, given).Ok?
    ensures var r := SubstOption(s, given).value;
            BlankOption(s) == BlankOption(r) && Filled(OptionLeaf(s), OptionLeaf(r), given)
  {
    hide Fill, Segments;
  }

  lemma {:induction false} ValueFills(v: Value, given: Given)
    requires SubstValue(v, given).Ok?
    ensures var r := SubstValue(v, given).value;
            BlankValue(v) == BlankValue(r) && Filled(ValueLeaves(v), ValueLeaves(r), given)
  {
    hide Fill, Segments;
    match v
    case VArray(items) => ItemsFill(items, given);
    case VObject(fields) => FieldsFill(fields, given);
    case _ =>
  }

  lemma {:induction false} ItemsFill(items: seq<Value>, given: Given)
    requires SubstItems(items, given).Ok?
    ensures var r := SubstItems(items, given).value;
            BlankItems(items) == BlankItems(r) && Filled(ItemLeaves(items), ItemLeaves(r), given)
  {
    if items != [] {
      ValueFills(items[0], given);
      ItemsFill(items[1..], given);
      var x, xs := SubstValue(items[0], given).value, SubstItems(items[1..], given).value;
      assert ([x] + xs)[1..] == xs;
      hide SubstValue, SubstItems, BlankValue, ValueLeaves, Filled;
      FilledJoin(ValueLeaves(items[0]), ValueLeaves(x), ItemLeaves(items[1..]), ItemLeaves(xs), given);
    }
  }

  lemma {:induction false} FieldsFill(fields: seq<Member>, given: Given)
    requires SubstFields(fields, given).Ok?
    ensures var r := SubstFields(fields, given).value;
            BlankFields(fields) == BlankFields(r) && Filled(FieldLeaves(fields), FieldLeaves(r), given)
  {
    if fields != [] {
      ValueFills(fields[0].value, given);
      FieldsFill(fields[1..], given);
      var x, xs := SubstValue(fields[0].value, given).value, SubstFields(fields[1..], given).value;
      assert ([Member(fields[0].key, x)] + xs)[1..] == xs;
      assert SubstFields(fields, given).value == [Member(fields[0].key, x)] + xs;
      hide SubstValue, SubstFields, BlankValue, ValueLeaves, Filled;
      FilledJoin(ValueLeaves(fields[0].value), ValueLeaves(x), FieldLeaves(fields[1..]), FieldLeaves(xs), given);
    }
  }

  lemma {:induction false} SpecFills(spec: AssertSpec, given: Given)
    requires SubstSpec(spec, given).Ok?
    ensures var r := SubstSpec(spec, given).value;
            BlankSpec(spec) == BlankSpec(r) && Filled(SpecLeaves(spec), SpecLeaves(r), given)
  {
    var r := SubstSpec(spec, given).value;
    assert Filled([spec.target], [r.target], given);
    OptionFills(spec.name, given);
    OptionFills(spec.value, given);
    OptionFills(spec.role, given);
    assert SubstOption(spec.name, given) == Ok(r.name) && SubstOption(spec.value, given) == Ok(r.value)
        && SubstOption(spec.role, given) == Ok(r.role);
    hide Subst, SubstOption, OptionLeaf, Filled, BlankOption, SubstSpec;
    FilledJoin([spec.target], [r.target], OptionLeaf(spec.name), OptionLeaf(r.name), given);
    FilledJoin([spec.target] + OptionLeaf(spec.name), [r.target] + OptionLeaf(r.name),
               OptionLeaf(spec.value), OptionLeaf(r.value), given);
    FilledJoin([spec.target] + OptionLeaf(spec.name) + OptionLeaf(spec.value),
               [r.target] + OptionLeaf(r.name) + OptionLeaf(r.value), OptionLeaf(spec.role), OptionLeaf(r.role), given);
  }

  lemma {:induction false} CompoundFills(op: Op, given: Given)
    requires op.Keybinding? || op.Invoke? || op.Screenshot?
    requires SubstOp(op, given).Ok?
    ensures FilledOp(op, SubstOp(op, given).value, given)
  {
    var r := SubstOp(op, given).value;
    match op
    case Keybinding(b, c, _) =>
      assert Filled([b], [r.binding], given) && SubstOption(c, given) == Ok(r.chord);
      OptionFills(c, given);
      hide Subst, SubstOption, OptionLeaf, Filled, BlankOption;
      FilledJoin([b], [r.binding], OptionLeaf(c), OptionLeaf(r.chord), given);
    case Invoke(n, args) =>
      assert Filled([n], [r.name], given) && SubstValue(args, given) == Ok(r.args);
      ValueFills(args, given);
      hide Subst, SubstValue, ValueLeaves, Filled, BlankValue;
      FilledJoin([n], [r.name], ValueLeaves(args), ValueLeaves(r.args), given);
    case Screenshot(p, _, a) =>
      assert SubstOption(p, given) == Ok(r.path) && SubstOption(a, given) == Ok(r.area);
      OptionFills(p, given);
      OptionFills(a, given);
      hide Subst, SubstOption, OptionLeaf, Filled, BlankOption;
      FilledJoin(OptionLeaf(p), OptionLeaf(r.path), OptionLeaf(a), OptionLeaf(r.area), given);
  }

  lemma {:induction false} SimpleFills(op: Op, given: Given)
    requires op.Click? || op.Type? || op.SetValue? || op.Key?
    requires SubstOp(op, given).Ok?
    ensures FilledOp(op, SubstOp(op, given).value, given)
  {
    hide Fill, Segments;
  }

  /** Substitution fills every text of an operation, each by itself, and touches nothing else. */
  lemma {:induction false} SubstitutionFills(op: Op, given: Given)
    requires SubstOp(op, given).Ok?
    ensures FilledOp(op, SubstOp(op, given).value, given)
  {
    match op
    case WaitUntil(_, spec) => SpecFills(spec, given); hide SubstSpec, SpecLeaves, BlankSpec, Filled;
    case Assert(spec) => SpecFills(spec, given); hide SubstSpec, SpecLeaves, BlankSpec, Filled;
    case Click(_, _) => SimpleFills(op, given); hide *;
    case Type(_, _, _) => SimpleFills(op, given); hide *;
    case SetValue(_, _, _) => SimpleFills(op, given); hide *;
    case Key(_, _, _) => SimpleFills(op, given); hide *;
    case Keybinding(_, _, _) => CompoundFills(op, given); hide *;
    case Invoke(_, _) => CompoundFills(op, given); hide *;
    case Screenshot(_, _, _) => CompoundFills(op, given); hide *;
    case _ =>
  }

  /** A name is collected from an operation exactly if one of its texts has a hole of that name. */
  predicate HoleAmong(leaves: seq<string>, h: string)
  {
    exists k :: 0 <= k < |leaves| && h in Holes(leaves[k])
  }

  lemma {:induction false} AmongJoin(a: seq<string>, b: seq<string>, h: string)
    ensures HoleAmong(a + b, h) <==> HoleAmong(a, h) || HoleAmong(b, h)
  {
    hide Holes;
    if k :| 0 <= k < |a| && h in Holes(a[k]) { assert (a + b)[k] == a[k]; }
    if k :| 0 <= k < |b| && h in Holes(b[k]) { assert (a + b)[|a| + k] == b[k]; }
  }

  lemma {:induction false} OptionAmong(s: Option<string>, h: string)
    ensures h in HolesIn(s) <==> HoleAmong(OptionLeaf(s), h)
  {
    hide Holes;
    if s.Some? { assert OptionLeaf(s)[0] == s.value; }
  }

  lemma {:induction false} OneAmong(s: string, h: string)
    ensures h in Holes(s) <==> HoleAmong([s], h)
  {
    hide Holes;
    assert [s][0] == s;
  }

  lemma {:induction false} ValueAmong(v: Value, h: string)
    ensures h in ValueHoles(v) <==> HoleAmong(ValueLeaves(v), h)
  {
    match v
    case VString(s) => OneAmong(s, h);
    case VArray(items) => ItemsAmong(items, h);
    case VObject(fields) => FieldsAmong(fields, h);
    case _ =>
  }

  lemma {:induction false} ItemsAmong(items: seq<Value>, h: string)
    ensures h in ItemHoles(items) <==> HoleAmong(ItemLeaves(items), h)
  {
    if items != [] {
      ValueAmong(items[0], h);
      ItemsAmong(items[1..], h);
      AmongJoin(ValueLeaves(items[0]), ItemLeaves(items[1..]), h);
      hide HoleAmong;
    }
  }

  lemma {:induction false} FieldsAmong(fields: seq<Member>, h: string)
    ensures h in FieldHoles(fields) <==> HoleAmong(FieldLeaves(fields), h)
  {
    if fields != [] {
      ValueAmong(fields[0].value, h);
      FieldsAmong(fields[1..], h);
      AmongJoin(ValueLeaves(fields[0].value), FieldLeaves(fields[1..]), h);
      hide HoleAmong;
    }
  }

  lemma {:induction false} SpecAmong(spec: AssertSpec, h: string)
    ensures h in SpecHoles(spec) <==> HoleAmong(SpecLeaves(spec), h)
  {
    OneAmong(spec.target, h);
    OptionAmong(spec.name, h);
    OptionAmong(spec.value, h);
    OptionAmong(spec.role, h);
    hide Holes, HolesIn, HoleAmong, OptionLeaf;
    AmongJoin([spec.target], OptionLeaf(spec.name), h);
    AmongJoin([spec.target] + OptionLeaf(spec.name), OptionLeaf(spec.value), h);
    AmongJoin([spec.target] + OptionLeaf(spec.name) + OptionLeaf(spec.value), OptionLeaf(spec.role), h);
  }

  lemma {:induction false} PairAmong(a: string, b: string, h: string)
    ensures h in Holes(a) + Holes(b) <==> HoleAmong([a, b], h)
  {
    OneAmong(a, h);
    OneAmong(b, h);
    AmongJoin([a], [b], h);
    assert [a] + [b] == [a, b];
    hide Holes, HoleAmong;
  }

  lemma {:induction false} CollectedIffInText(op: Op, h: string)
    ensures h in OpHoles(op) <==> HoleAmong(Leaves(op), h)
  {
    hide Holes, HolesIn, HoleAmong, OptionLeaf, ValueLeaves, ValueHoles, SpecHoles, SpecLeaves;
    match op
    case WaitUntil(_, spec) => SpecAmong(spec, h);
    case Assert(spec) => SpecAmong(spec, h);
    case Click(t, _) => OneAmong(t, h);
    case Type(t, u, _) => PairAmong(t, u, h);
    case SetValue(t, u, _) => PairAmong(t, u, h);
    case Key(t, u, _) => PairAmong(t, u, h);
    case Keybinding(b, c, _) => OneAmong(b, h); OptionAmong(c, h); AmongJoin([b], OptionLeaf(c), h);
    case Invoke(n, args) => OneAmong(n, h); ValueAmong(args, h); AmongJoin([n], ValueLeaves(args), h);
    case Screenshot(p, _, a) => OptionAmong(p, h); OptionAmong(a, h); AmongJoin(OptionLeaf(p), OptionLeaf(a), h);
    case _ => NoneAmong(h);
  }

  lemma {:induction false} NoneAmong(h: string)
    ensures !HoleAmong([], h)
  {
  }

  // ----- validation

  predicate Blank(s: string) { forall i :: 0 <= i < |s| ==> IsSpace(s[i]) }

  /** What is left is a tail of `s` that does not start with white space, and only white space is gone. */
  function TrimStart(s: string): (t: string)
    ensures |t| <= |s| && t == s[|s| - |t|..] && (t != [] ==> !IsSpace(t[0]))
    ensures forall i :: 0 <= i < |s| - |t| ==> IsSpace(s[i])
  {
    if s != [] && IsSpace(s[0]) then TrimStart(s[1..]) else s
  }

  function TrimEnd(s: string): (t: string)
    ensures |t| <= |s| && t == s[..|t|] && (t != [] ==> !IsSpace(t[|t| - 1]))
    ensures forall i :: |t| <= i < |s| ==> IsSpace(s[i])
  {
    if s != [] && IsSpace(s[|s| - 1]) then TrimEnd(s[..|s| - 1]) else s
  }

  function Lower(s: string): (t: string)
    ensures |t| == |s|
    ensures forall i :: 0 <= i < |s| ==> t[i] == if 'A' <= s[i] <= 'Z' then (s[i] as int + 32) as char else s[i]
  {
    if s == [] then []
    else [if 'A' <= s[0] <= 'Z' then (s[0] as int + 32) as char else s[0]] + Lower(s[1..])
  }

  /** Process-ending action ids. */
  predicate IsQuitBinding(binding: string)
  {
    var n := Lower(TrimEnd(TrimStart(binding)));
    n == "quit" || (|n| >= 5 && n[|n| - 5..] == ".quit")
  }

  predicate ValidId(s: string) { !Blank(s) && Holes(s) == {} }

  predicate ValidNeeds(steps: Steps, s: RecipeStep)
  {
    forall n :: n in s.needs ==> Holes(n) == {} && n in IdsOf(steps) && n != s.id
  }

  predicate ValidOp(op: Op, params: seq<string>, registry: Registry)
  {
    && (forall h :: h in OpHoles(op) ==> h in params)
    && (op.Keybinding? && IsQuitBinding(op.binding) ==> op.confirm)
    && (op.Invoke? ==> op.name in registry && registry[op.name].kind == InvokeKind)
  }

  predicate ValidRecipe(r: Recipe, registry: Registry)
  {
    && r.version == RECIPE_FORMAT_VERSION && !Blank(r.name)
    && 0 < |r.steps| <= MAX_RECIPE_STEPS
    && DistinctIds(r.steps)
    && forall s :: s in r.steps ==> ValidId(s.id) && ValidNeeds(r.steps, s) && ValidOp(s.op, r.params, registry)
  }

  method CheckIds(steps: Steps) returns (ids: set<string>, ok: bool)
    ensures ok <==> DistinctIds(steps) && forall s :: s in steps ==> ValidId(s.id)
    ensures ok ==> ids == IdsOf(steps)
  {
    ids := {};
    for i := 0 to |steps|
      invariant ids == IdsOf(steps[..i])
      invariant DistinctIds(steps[..i]) && forall s :: s in steps[..i] ==> ValidId(s.id)
    {
      assert steps[..i + 1] == steps[..i] + [steps[i]];
      if Blank(steps[i].id) || Holes(steps[i].id) != {} {
        assert steps[i] in steps;
        return ids, false;
      }
      if steps[i].id in ids {
        ghost var s :| s in steps[..i] && s.id == steps[i].id;
        ghost var j :| 0 <= j < i && steps[j] == s;
        return ids, false;
      }
      forall j | 0 <= j < i ensures steps[j].id != steps[i].id { assert steps[j] in steps[..i]; }
      ids := ids + {steps[i].id};
    }
    assert steps[..|steps|] == steps;
    ok := true;
  }

  method CheckNeeds(s: RecipeStep, ids: set<string>) returns (ok: bool)
    ensures ok <==> forall n :: n in s.needs ==> Holes(n) == {} && n in ids && n != s.id
  {
    for i := 0 to |s.needs|
      invariant forall k :: 0 <= k < i ==> Holes(s.needs[k]) == {} && s.needs[k] in ids && s.needs[k] != s.id
    {
      if Holes(s.needs[i]) != {} || s.needs[i] !in ids || s.needs[i] == s.id { return false; }
    }
    return true;
  }

  method ValidateRecipe(r: Recipe, registry: Registry) returns (ok: bool)
    ensures ok <==> ValidRecipe(r, registry)
  {
    if r.version != RECIPE_FORMAT_VERSION || Blank(r.name) || |r.steps| == 0 || |r.steps| > MAX_RECIPE_STEPS {
      return false;
    }
    var ids, distinct := CheckIds(r.steps);
    if !distinct { return false; }
    for i := 0 to |r.steps|
      invariant forall k :: 0 <= k < i ==> ValidNeeds(r.steps, r.steps[k]) && ValidOp(r.steps[k].op, r.params, registry)
    {
      var s := r.steps[i];
      assert s in r.steps;
      var needs := CheckNeeds(s, ids);
      assert needs <==> ValidNeeds(r.steps, s);
      if !needs || !ValidOp(s.op, r.params, registry) { return false; }
    }
    return true;
  }

  // ----- apply_params

  function SubstSteps(steps: Steps, given: Given): Result<Steps>
  {
    if steps == [] then Ok([])
    else match SubstOp(steps[0].op, given)
      case Err(e) => Err(e)
      case Ok(op) => match SubstSteps(steps[1..], given)
        case Err(e) => Err(e)
        case Ok(rest) => Ok([steps[0].(op := op)] + rest)
  }

  /** Ids and needs are never substituted. */
  function ApplyParams(r: Recipe, given: Given): Result<Recipe>
  {
    if !(forall p :: p in r.params ==> p in given) then Err("missing --set")
    else match SubstSteps(r.steps, given)
      case Err(e) => Err(e)
      case Ok(steps) => Ok(r.(steps := steps))
  }

  /** Same graph, substituted operations. */
  ghost predicate Bound(a: Steps, b: Steps, given: Given)
  {
    |a| == |b| && forall k :: 0 <= k < |a| ==>
      SubstOp(a[k].op, given) == Ok(b[k].op) && b[k] == a[k].(op := b[k].op)
  }

  lemma {:induction false} BoundCons(steps: Steps, op: Op, rest: Steps, given: Given)
    requires steps != [] && SubstOp(steps[0].op, given) == Ok(op) && Bound(steps[1..], rest, given)
    ensures Bound(steps, [steps[0].(op := op)] + rest, given)
  {
    hide SubstOp;
    forall k | 0 < k < |steps|
      ensures SubstOp(steps[k].op, given) == Ok(rest[k - 1].op) && rest[k - 1] == steps[k].(op := rest[k - 1].op)
    {
      assert steps[1..][k - 1] == steps[k];
    }
  }

  lemma {:induction false} SubstStepsExact(steps: Steps, given: Given)
    ensures SubstSteps(steps, given).Ok? <==> forall s :: s in steps ==> OpHoles(s.op) <= given.Keys
    ensures SubstSteps(steps, given).Ok? ==> Bound(steps, SubstSteps(steps, given).value, given)
    ensures (forall s :: s in steps ==> OpHoles(s.op) == {}) ==> SubstSteps(steps, given) == Ok(steps)
  {
    if steps != [] {
      OpExact(steps[0].op, given);
      hide OpHoles, SubstOp;
      SubstStepsExact(steps[1..], given);
      assert steps == [steps[0]] + steps[1..];
      assert steps[0].(op := steps[0].op) == steps[0];
      var rest := SubstSteps(steps[1..], given);
      if SubstOp(steps[0].op, given).Ok? && rest.Ok? {
        BoundCons(steps, SubstOp(steps[0].op, given).value, rest.value, given);
      }
      hide Bound, Exactly;
    }
  }

  /** The steps `b` are the steps `a` with the texts of their operations filled, and nothing else touched. */
  ghost predicate Instance(a: Steps, b: Steps, given: Given)
  {
    |a| == |b| && forall k :: 0 <= k < |a| ==> b[k] == a[k].(op := b[k].op) && FilledOp(a[k].op, b[k].op, given)
  }

  lemma {:induction false} BoundIsInstance(a: Steps, b: Steps, given: Given)
    requires Bound(a, b, given)
    ensures Instance(a, b, given)
  {
    forall k | 0 <= k < |a| ensures FilledOp(a[k].op, b[k].op, given) {
      SubstitutionFills(a[k].op, given);
      hide SubstOp, FilledOp;
    }
    hide SubstOp, FilledOp;
  }

  /** A validated recipe can be bound exactly when all its params are given; binding touches only
      operations; and for a recipe without params binding changes nothing, so it may be skipped. */
  lemma {:induction false} ValidatedBinds(r: Recipe, registry: Registry, given: Given)
    requires ValidRecipe(r, registry)
    ensures ApplyParams(r, given).Ok? <==> forall p :: p in r.params ==> p in given
    ensures ApplyParams(r, given).Ok? ==>
              var b := ApplyParams(r, given).value;
              b == r.(steps := b.steps) && Bound(r.steps, b.steps, given) && Instance(r.steps, b.steps, given)
    ensures r.params == [] ==> ApplyParams(r, given) == Ok(r) && Instance(r.steps, r.steps, given)
  {
    if ApplyParams(r, given).Ok? {
      SubstStepsExact(r.steps, given);
      BoundIsInstance(r.steps, ApplyParams(r, given).value.steps, given);
    }
    hide Instance;
    SubstStepsExact(r.steps, given);
    hide OpHoles, Bound, SubstSteps;
    if forall p :: p in r.params ==> p in given {
      forall s | s in r.steps ensures OpHoles(s.op) <= given.Keys { assert ValidOp(s.op, r.params, registry); }
    }
    if r.params == [] {
      forall s | s in r.steps ensures OpHoles(s.op) == {} { assert ValidOp(s.op, r.params, registry); }
      assert r.(steps := r.steps) == r;
    }
  }
}
