/** Recipe compilation: bind, schedule, annotate. */
module Plan {
  import opened Ordering
  import opened Protocol
  import opened Waves
  import opened Schedule
  import opened RecipeParams

  datatype PlannedStep = PlannedStep(id: string, op: Op, needs: seq<string>, screenshot: bool,
                                     effects: seq<Effect>, schema: Option<string>, idempotent: bool)

  /** What the plan fingerprint hashes. */
  datatype Payload = Payload(name: string, steps: seq<(string, Op, seq<string>)>)

  datatype Plan = Plan(name: string, app: Option<string>, steps: seq<PlannedStep>, waves: seq<seq<string>>,
                       effects: set<Effect>, requiresYes: bool, fingerprint: Payload)

  // ----- annotation

  function Lookup(name: string, registry: Registry): (Option<string>, seq<Effect>, bool)
  {
    if name in registry then (Some(registry[name].name), registry[name].effects, registry[name].idempotent)
    else (None, [Write], false)
  }

  function Annotate(op: Op, registry: Registry): (Option<string>, seq<Effect>, bool)
  {
    match op
    case Hello => Lookup("hello", registry)
    case Wait(_) => Lookup("wait", registry)
    case WaitUntil(_, _) => Lookup("wait_until", registry)
    case Snapshot(_) => Lookup("snapshot", registry)
    case Revision => Lookup("revision", registry)
    case Click(_, _) => Lookup("click", registry)
    case Type(_, _, _) => Lookup("type", registry)
    case SetValue(_, _, _) => Lookup("set_value", registry)
    case Key(_, _, _) => Lookup("key", registry)
    case Keybinding(binding, _, _) =>
      var (name, effects, idempotent) := Lookup("keybinding", registry);
      if IsQuitBinding(binding) then (name, [Exit], idempotent) else (name, effects, idempotent)
    case Keybindings => Lookup("keybindings", registry)
    case Events(_) => Lookup("events", registry)
    case Assert(_) => Lookup("assert", registry)
    case Screenshot(_, _, _) => Lookup("screenshot", registry)
    case Shutdown => Lookup("shutdown", registry)
    case Invoke(name, _) =>
      if name in registry && registry[name].kind == InvokeKind then Lookup(name, registry)
      else Lookup("invoke", registry)
  }

  // ----- compile_plan

  /** The needs a planned step carries: its own, or the previous step of an implicit sequence. */
  function NeedsAt(steps: Steps, i: nat): seq<string>
    requires i < |steps|
  {
    if !Implicit(steps) then steps[i].needs else if i == 0 then [] else [steps[i - 1].id]
  }

  function PlannedAt(steps: Steps, i: nat, registry: Registry): PlannedStep
    requires i < |steps|
  {
    var (schema, effects, idempotent) := Annotate(steps[i].op, registry);
    PlannedStep(steps[i].id, steps[i].op, NeedsAt(steps, i), steps[i].screenshot, effects, schema, idempotent)
  }

  function FingerprintPayload(name: string, steps: seq<PlannedStep>): Payload
  {
    Payload(name, PayloadRows(steps))
  }

  function PayloadRows(steps: seq<PlannedStep>): (rows: seq<(string, Op, seq<string>)>)
    ensures |rows| == |steps|
    ensures forall k :: 0 <= k < |rows| ==> rows[k] == (steps[k].id, steps[k].op, steps[k].needs)
  {
    if steps == [] then [] else [(steps[0].id, steps[0].op, steps[0].needs)] + PayloadRows(steps[1..])
  }

  function EffectsOf(steps: seq<PlannedStep>): set<Effect>
  {
    set s, e | s in steps && e in s.effects :: e
  }

  /** The steps a plan is made of: those of the recipe, bound if it has params. */
  function BoundSteps(r: Recipe, given: Given): Result<Steps>
  {
    if r.params == [] then Ok(r.steps)
    else match ApplyParams(r, given) case Err(e) => Err(e) case Ok(b) => Ok(b.steps)
  }

  predicate InOrder(steps: Steps, order: seq<nat>, planned: seq<PlannedStep>, registry: Registry)
  {
    && |planned| == |order| && Positions(steps, order)
    && forall k :: 0 <= k < |order| ==> planned[k] == PlannedAt(steps, order[k], registry)
  }

  ghost predicate Timed(steps: Steps, t: Timetable)
  {
    if Implicit(steps) then InListedOrder(steps, t) else InWaveOrder(steps, t)
  }

  ghost predicate PlanOf(r: Recipe, steps: Steps, registry: Registry, p: Plan)
  {
    && p.name == r.name && p.app == r.app
    && (exists order :: Timed(steps, Timetable(order, p.waves)) && InOrder(steps, order, p.steps, registry))
    && p.effects == EffectsOf(p.steps)
    && (p.requiresYes <==> Exit in p.effects)
    && p.fingerprint == FingerprintPayload(p.name, p.steps)
  }

  /** Compilation succeeds exactly for valid recipes whose params are given and whose needs do not close. */
  ghost predicate Compiles(r: Recipe, given: Given, registry: Registry)
  {
    && ValidRecipe(r, registry)
    && (forall p :: p in r.params ==> p in given)
    && (Implicit(r.steps) || Acyclic(r.steps))
  }

  method CompilePlan(r: Recipe, given: Given, registry: Registry) returns (p: Result<Plan>)
    ensures p.Ok? <==> Compiles(r, given, registry)
    ensures p.Ok? ==> BoundSteps(r, given).Ok? && PlanOf(r, BoundSteps(r, given).value, registry, p.value)
  {
    var valid := ValidateRecipe(r, registry);
    if !valid { return Err("invalid recipe"); }
    ValidatedBinds(r, registry, given);
    var steps := r.steps;
    if r.params != [] {
      match ApplyParams(r, given)
      case Err(e) => return Err(e);
      case Ok(bound) => steps := bound.steps;
    }
    BindingKeepsGraph(r, steps, registry, given);
    assert BoundSteps(r, given) == Ok(steps);
    hide *;
    p := Assemble(r, steps, registry);
    CompilesByGraph(r, steps, given, registry);
  }

  lemma {:induction false} CompilesByGraph(r: Recipe, steps: Steps, given: Given, registry: Registry)
    requires ValidRecipe(r, registry) && BoundSteps(r, given) == Ok(steps)
    requires (Implicit(steps) <==> Implicit(r.steps)) && (Acyclic(steps) <==> Acyclic(r.steps))
    ensures Compiles(r, given, registry) <==> Implicit(steps) || Acyclic(steps)
  {
    ValidatedBinds(r, registry, given);
    hide ValidRecipe, ApplyParams, Acyclic, Bound;
  }

  /** Schedules and annotates the bound steps. */
  method Assemble(r: Recipe, steps: Steps, registry: Registry) returns (p: Result<Plan>)
    requires DistinctIds(steps) && KnownNeeds(steps)
    ensures p.Ok? <==> Implicit(steps) || Acyclic(steps)
    ensures p.Ok? ==> PlanOf(r, steps, registry, p.value)
  {
    hide DistinctIds, Acyclic, InListedOrder, InWaveOrder, EffectsOf, PayloadRows, InOrder, Implicit, KnownNeeds;
    var t := MakeSchedule(steps);
    match t
    case Err(e) => return Err(e);
    case Ok(table) =>
      var planned := PlanSteps(steps, table.order, registry);
      var effects := EffectsOf(planned);
      p := Ok(Plan(r.name, r.app, planned, table.waves, effects, Exit in effects,
                   FingerprintPayload(r.name, planned)));
      assert Timed(steps, Timetable(table.order, p.value.waves));
  }

  method PlanSteps(steps: Steps, order: seq<nat>, registry: Registry) returns (planned: seq<PlannedStep>)
    requires Positions(steps, order)
    ensures InOrder(steps, order, planned, registry)
  {
    hide PlannedAt;
    planned := [];
    for k := 0 to |order|
      invariant |planned| == k && forall m :: 0 <= m < k ==> planned[m] == PlannedAt(steps, order[m], registry)
    {
      planned := planned + [PlannedAt(steps, order[k], registry)];
    }
  }

  /** Binding keeps ids and needs, so it keeps whether the recipe can be scheduled. */
  lemma {:induction false} BindingKeepsGraph(r: Recipe, steps: Steps, registry: Registry, given: Given)
    requires ValidRecipe(r, registry)
    requires steps == r.steps || (ApplyParams(r, given).Ok? && steps == ApplyParams(r, given).value.steps)
    ensures DistinctIds(steps) && KnownNeeds(steps)
    ensures Implicit(steps) <==> Implicit(r.steps)
    ensures Acyclic(steps) <==> Acyclic(r.steps)
  {
    ValidatedBinds(r, registry, given);
    assert |steps| == |r.steps| && forall k :: 0 <= k < |steps| ==>
        steps[k].id == r.steps[k].id && steps[k].needs == r.steps[k].needs;
    hide ApplyParams, Bound, SubstOp;
    forall s | s in r.steps ensures ValidNeeds(r.steps, s) { }
    SameGraph(r.steps, steps);
  }

  lemma {:induction false} SameGraph(a: Steps, b: Steps)
    requires |a| == |b| && forall k :: 0 <= k < |a| ==> a[k].id == b[k].id && a[k].needs == b[k].needs
    requires DistinctIds(a) && KnownNeeds(a)
    ensures DistinctIds(b) && KnownNeeds(b)
    ensures Acyclic(b) <==> Acyclic(a)
  {
    forall x ensures x in IdsOf(a) <==> x in IdsOf(b) { SameIds(a, b, x); SameIds(b, a, x); }
    forall s | s in b ensures forall n :: n in s.needs ==> n in IdsOf(b) {
      var k :| 0 <= k < |b| && b[k] == s;
      assert a[k] in a;
    }
    forall x, y ensures Needs(a, x, y) <==> Needs(b, x, y) { SameNeeds(a, b, x, y); SameNeeds(b, a, x, y); }
    if c :| Cycle(a, c) { assert Cycle(b, c); }
    if c :| Cycle(b, c) { assert Cycle(a, c); }
  }

  lemma {:induction false} SameIds(a: Steps, b: Steps, x: string)
    requires |a| == |b| && forall k :: 0 <= k < |a| ==> a[k].id == b[k].id && a[k].needs == b[k].needs
    ensures x in IdsOf(a) ==> x in IdsOf(b)
  {
    if s :| s in a && s.id == x {
      var k :| 0 <= k < |a| && a[k] == s;
      assert b[k] in b;
    }
  }

  lemma {:induction false} SameNeeds(a: Steps, b: Steps, x: string, y: string)
    requires |a| == |b| && forall k :: 0 <= k < |a| ==> a[k].id == b[k].id && a[k].needs == b[k].needs
    ensures Needs(a, x, y) ==> Needs(b, x, y)
  {
    if s :| s in a && s.id == x && y in s.needs {
      var k :| 0 <= k < |a| && a[k] == s;
      assert b[k] in b;
    }
  }

  /** Every planned operation is that of its step with every text filled, and nothing else touched. */
  lemma {:induction false} PlannedTexts(r: Recipe, given: Given, registry: Registry, p: Plan, k: nat) returns (i: nat)
    requires Compiles(r, given, registry) && BoundSteps(r, given).Ok?
    requires PlanOf(r, BoundSteps(r, given).value, registry, p) && k < |p.steps|
    ensures i < |r.steps| && p.steps[k].id == r.steps[i].id && p.steps[k].screenshot == r.steps[i].screenshot
    ensures FilledOp(r.steps[i].op, p.steps[k].op, given)
  {
    var steps := BoundSteps(r, given).value;
    ValidatedBinds(r, registry, given);
    assert Instance(r.steps, steps, given);
    var order :| Timed(steps, Timetable(order, p.waves)) && InOrder(steps, order, p.steps, registry);
    assert p.steps[k] == PlannedAt(steps, order[k], registry);
    i := order[k];
    hide *;
    InstanceAt(r.steps, steps, given, i);
    PlannedStepAt(steps, i, registry);
  }

  lemma {:induction false} InstanceAt(a: Steps, b: Steps, given: Given, i: nat)
    requires Instance(a, b, given) && i < |b|
    ensures |a| == |b| && b[i].id == a[i].id && b[i].screenshot == a[i].screenshot && FilledOp(a[i].op, b[i].op, given)
  {
    hide FilledOp;
  }

  lemma {:induction false} PlannedStepAt(steps: Steps, i: nat, registry: Registry)
    requires i < |steps|
    ensures var s := PlannedAt(steps, i, registry);
            s.id == steps[i].id && s.op == steps[i].op && s.screenshot == steps[i].screenshot
  {
    hide Annotate;
  }

  /** The steps of a plan wait for what their recipe steps need; without any needs in the recipe they run in the
      order listed, each waiting for the one before it. */
  lemma {:induction false} PlannedNeeds(r: Recipe, given: Given, registry: Registry, p: Plan, k: nat)
    requires Compiles(r, given, registry) && BoundSteps(r, given).Ok?
    requires PlanOf(r, BoundSteps(r, given).value, registry, p) && k < |p.steps|
    ensures |p.steps| == |r.steps|
    ensures Implicit(r.steps) ==> p.steps[k].id == r.steps[k].id
                                  && p.steps[k].needs == if k == 0 then [] else [r.steps[k - 1].id]
    ensures !Implicit(r.steps) ==> exists i :: 0 <= i < |r.steps| && p.steps[k].id == r.steps[i].id
                                               && p.steps[k].needs == r.steps[i].needs
  {
    hide *;
    var steps := BoundSteps(r, given).value;
    var order := OrderOf(r, given, registry, p, steps);
    TimedPositions(steps, Timetable(order, p.waves));
    InOrderAt(steps, order, p.steps, registry, k);
    SameIdsAndNeeds(r.steps, steps, given, order[k]);
    if order[k] > 0 { SameIdsAndNeeds(r.steps, steps, given, order[k] - 1); }
    NeedsOfStep(steps, order[k], registry);
  }

  lemma {:induction false} OrderOf(r: Recipe, given: Given, registry: Registry, p: Plan, steps: Steps)
    returns (order: seq<nat>)
    requires Compiles(r, given, registry) && BoundSteps(r, given) == Ok(steps) && PlanOf(r, steps, registry, p)
    ensures Timed(steps, Timetable(order, p.waves)) && InOrder(steps, order, p.steps, registry)
    ensures Instance(r.steps, steps, given) && |r.steps| == |steps| && (Implicit(steps) <==> Implicit(r.steps))
  {
    order :| Timed(steps, Timetable(order, p.waves)) && InOrder(steps, order, p.steps, registry);
    assert ValidRecipe(r, registry);
    ValidatedBinds(r, registry, given);
    hide ValidRecipe, Timed, InOrder, ApplyParams, FilledOp, Acyclic, PlanOf, Bound;
    BindingKeepsGraph(r, steps, registry, given);
  }

  lemma {:induction false} TimedPositions(steps: Steps, t: Timetable)
    requires Timed(steps, t)
    ensures |t.order| == |steps| && (Implicit(steps) ==> forall k :: 0 <= k < |steps| ==> t.order[k] == k)
  {
    hide Implicit, Singles;
  }

  lemma {:induction false} InOrderAt(steps: Steps, order: seq<nat>, planned: seq<PlannedStep>, registry: Registry,
                                     k: nat)
    requires InOrder(steps, order, planned, registry) && k < |planned|
    ensures |planned| == |order| && order[k] < |steps| && planned[k] == PlannedAt(steps, order[k], registry)
  {
    hide PlannedAt;
  }

  lemma {:induction false} SameIdsAndNeeds(a: Steps, b: Steps, given: Given, i: nat)
    requires Instance(a, b, given) && i < |b|
    ensures |a| == |b| && b[i].id == a[i].id && b[i].needs == a[i].needs
  {
    hide FilledOp;
  }

  lemma {:induction false} NeedsOfStep(steps: Steps, i: nat, registry: Registry)
    requires i < |steps|
    ensures PlannedAt(steps, i, registry).id == steps[i].id
    ensures Implicit(steps) ==> PlannedAt(steps, i, registry).needs == if i == 0 then [] else [steps[i - 1].id]
    ensures !Implicit(steps) ==> PlannedAt(steps, i, registry).needs == steps[i].needs
  {
    hide Annotate, Implicit;
  }

  // ----- what the protocol's operations do

  predicate Registered(registry: Registry, name: string, effect: Effect, idempotent: bool)
  {
    name in registry && registry[name] == Schema(name, ProtocolKind, [effect], idempotent)
  }

  /** The built-in registry, to which applications add theirs; it has no entry for `events`. */
  predicate HasProtocol(registry: Registry)
  {
    && Registered(registry, "hello", Read, true) && Registered(registry, "wait", Read, true)
    && Registered(registry, "wait_until", Read, true) && Registered(registry, "snapshot", Read, true)
    && Registered(registry, "revision", Read, true) && Registered(registry, "screenshot", Read, true)
    && Registered(registry, "click", Write, false) && Registered(registry, "type", Write, false)
    && Registered(registry, "set_value", Write, true) && Registered(registry, "key", Write, false)
    && Registered(registry, "keybinding", Write, false) && Registered(registry, "keybindings", Read, true)
    && Registered(registry, "assert", Read, true) && Registered(registry, "invoke", Write, false)
    && Registered(registry, "shutdown", Exit, false)
  }

  /** Operations that only look. */
  predicate Looks(op: Op)
  {
    || op.Hello? || op.Wait? || op.WaitUntil? || op.Snapshot? || op.Revision?
    || op.Screenshot? || op.Keybindings? || op.Assert?
  }

  /** Operations that end the application. */
  predicate Ends(op: Op) { op.Shutdown? || (op.Keybinding? && IsQuitBinding(op.binding)) }

  /** With the protocol's registry: looking is Read, ending is Exit, an invoke has the effects its application
      declares, and everything else is Write. Looking and setting a value are idempotent. */
  lemma {:induction false} EffectsOfOperations(op: Op, registry: Registry)
    requires HasProtocol(registry) && (op.Invoke? ==> op.name in registry && registry[op.name].kind == InvokeKind)
    requires "events" !in registry
    ensures var (_, effects, idempotent) := Annotate(op, registry);
            && (op.Invoke? ==> effects == registry[op.name].effects && idempotent == registry[op.name].idempotent)
            && (!op.Invoke? ==> && effects == [if Looks(op) then Read else if Ends(op) then Exit else Write]
                                && (idempotent <==> Looks(op) || op.SetValue?))
  {
    hide IsQuitBinding;
  }

  /** A plan asks for confirmation exactly if some step ends the application, by itself or by what an invoke
      declares. */
  lemma {:induction false} YesIffEnding(steps: Steps, order: seq<nat>, p: Plan, registry: Registry)
    requires HasProtocol(registry) && "events" !in registry && InOrder(steps, order, p.steps, registry)
    requires forall s :: s in steps && s.op.Invoke? ==> s.op.name in registry && registry[s.op.name].kind == InvokeKind
    requires p.effects == EffectsOf(p.steps) && (p.requiresYes <==> Exit in p.effects)
    ensures p.requiresYes <==>
              exists s :: s in p.steps && (Ends(s.op) || (s.op.Invoke? && Exit in registry[s.op.name].effects))
  {
    forall s | s in p.steps
      ensures s.op.Invoke? ==> s.op.name in registry
      ensures Exit in s.effects <==> Ends(s.op) || (s.op.Invoke? && Exit in registry[s.op.name].effects)
    {
      var k :| 0 <= k < |p.steps| && p.steps[k] == s;
      assert s == PlannedAt(steps, order[k], registry) && steps[order[k]] in steps;
      EffectsOfOperations(steps[order[k]].op, registry);
      hide HasProtocol, Annotate, Ends;
    }
    hide HasProtocol, Annotate, Ends, InOrder;
  }
}
