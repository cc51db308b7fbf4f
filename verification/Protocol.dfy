/** Protocol operations and recipe documents, as far as planning, running and dispatch look at them. */
module Protocol {
  import opened Ordering

  /** The wire's numbers are below this. */
  const U64: nat := 0x1_0000_0000_0000_0000

  /** JSON values, for `invoke` arguments. */
  datatype Value =
    | VNull
    | VBool(b: bool)
    | VNumber(n: int)
    | VString(s: string)
    | VArray(items: seq<Value>)
    | VObject(fields: seq<Member>)

  datatype Member = Member(key: string, value: Value)

  datatype AssertSpec = AssertSpec(target: string, name: Option<string>, value: Option<string>, role: Option<string>)

  datatype Op =
    | Hello
    | Snapshot(since: Option<nat>)
    | Revision
    | Events(from: Option<nat>)
    | Click(target: string, gate: Option<nat>)
    | Type(target: string, text: string, gate: Option<nat>)
    | SetValue(target: string, content: string, gate: Option<nat>)
    | Key(target: string, key: string, gate: Option<nat>)
    | Keybinding(binding: string, chord: Option<string>, confirm: bool)
    | Keybindings
    | Assert(spec: AssertSpec)
    | Invoke(name: string, args: Value)
    | Wait(timeout: Option<nat>)
    | WaitUntil(limit: nat, spec: AssertSpec)
    | Shutdown
    | Screenshot(path: Option<string>, scrolled: bool, area: Option<string>)

  datatype RecipeStep = RecipeStep(id: string, needs: seq<string>, screenshot: bool, op: Op)

  datatype Recipe = Recipe(version: nat, name: string, app: Option<string>, params: seq<string>, steps: seq<RecipeStep>)

  datatype Effect = Read | Write | Exit

  datatype SchemaKind = ProtocolKind | InvokeKind | IdKind

  datatype Schema = Schema(name: string, kind: SchemaKind, effects: seq<Effect>, idempotent: bool)

  type Registry = map<string, Schema>
}
