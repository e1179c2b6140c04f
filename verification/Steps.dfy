/** server/internal/workflow/schema.go and the step level of engine.go: schemas, input
    aggregation, one run of a step. */
module Steps {
  import opened Graphs

  datatype Value =
    | StringValue(text: string)
    | NumberValue(number: int)
    | BoolValue(truth: bool)
    | ArrayValue(items: seq<Value>)
    | ObjectValue(fields: map<string, Value>)
    | NullValue

  datatype Record = Record(fields: map<string, Value>)
  type Outputs = map<Id, Record>

  datatype FieldType = FieldString | FieldNumber | FieldBool | FieldArray | FieldObject | FieldOther(name: string)
  datatype FieldSchema = FieldSchema(kind: FieldType, required: bool)
  type Schema = map<string, FieldSchema>

  predicate MatchesType(v: Value, kind: FieldType) {
    match kind
    case FieldString => v.StringValue?
    case FieldNumber => v.NumberValue?
    case FieldBool => v.BoolValue?
    case FieldArray => v.ArrayValue?
    case FieldObject => v.ObjectValue?
    case FieldOther(_) => true
  }

  /** Each JSON value is of exactly one named type, and null of none; an unnamed type takes any. */
  lemma ValueKinds(v: Value, kind: FieldType)
    ensures MatchesType(v, kind) <==>
              kind.FieldOther? ||
              match v
              case StringValue(_) => kind.FieldString?
              case NumberValue(_) => kind.FieldNumber?
              case BoolValue(_) => kind.FieldBool?
              case ArrayValue(_) => kind.FieldArray?
              case ObjectValue(_) => kind.FieldObject?
              case NullValue => false
  {
  }

  /** `Schema.Validate`; an empty schema accepts everything, as the callers' length test does. */
  predicate Validates(schema: Schema, value: Record) {
    forall name :: name in schema ==>
      if name in value.fields then MatchesType(value.fields[name], schema[name].kind) else !schema[name].required
  }

  datatype StepDefinition = StepDefinition(
    id: Id, dependsOn: seq<Id>, inputSchema: Schema, outputSchema: Schema, hasRunner: bool)

  /** What a runner may report: that it pauses, that it waits for approval, or anything else. */
  datatype RunnerError = PauseRequested | ApprovalRequested | OtherError(message: string)

  datatype StepError = NoRunner | InputInvalid | OutputInvalid | FromRunner(error: RunnerError)

  /** What a runner may hand back. */
  datatype RunnerResult = Returned(output: Record) | ReturnedNil | Raised(error: RunnerError)

  datatype StepOutcome = Done(output: Record) | Broke(error: StepError)

  /** Everything the engine does not control: each runner's answer and each event handler's
      verdict at each moment, and the order in which a batch's results arrive. */
  datatype World = World(
    run: (nat, Id, Outputs, Record) -> RunnerResult,
    accepts: (nat, Id) -> bool,
    pick: nat -> nat)

  /** The inner loop of `aggregateInputs`: a missing output overlays nothing. */
  function Overlay(input: Record, outputs: Outputs, dep: Id): Record {
    if dep in outputs then Record(input.fields + outputs[dep].fields) else input
  }

  /** Initial input overlaid with the outputs of the dependencies, later ones winning. */
  function Aggregated(dependsOn: seq<Id>, outputs: Outputs, initial: Record): Record {
    if dependsOn == [] then initial
    else
      var n := |dependsOn| - 1;
      Overlay(Aggregated(dependsOn[..n], outputs, initial), outputs, dependsOn[n])
  }

  method AggregateInputs(dependsOn: seq<Id>, outputs: Outputs, initial: Record) returns (input: Record)
    ensures input == Aggregated(dependsOn, outputs, initial)
  {
    input := initial;
    for i := 0 to |dependsOn|
      invariant input == Aggregated(dependsOn[..i], outputs, initial)
    {
      assert dependsOn[..i + 1][..i] == dependsOn[..i];
      input := Overlay(input, outputs, dependsOn[i]);
    }
    assert dependsOn[..|dependsOn|] == dependsOn;
  }

  ghost predicate Supplies(outputs: Outputs, d: Id, key: string) {
    d in outputs && key in outputs[d].fields
  }

  /** Which value wins: the last dependency that supplies the key, ... */
  lemma {:induction false} LastSupplierWins(dependsOn: seq<Id>, outputs: Outputs, initial: Record, key: string, i: nat)
    requires i < |dependsOn| && Supplies(outputs, dependsOn[i], key)
    requires forall j :: i < j < |dependsOn| ==> !Supplies(outputs, dependsOn[j], key)
    ensures var r := Aggregated(dependsOn, outputs, initial);
            key in r.fields && r.fields[key] == outputs[dependsOn[i]].fields[key]
  {
    var n := |dependsOn| - 1;
    if i < n {
      assert !Supplies(outputs, dependsOn[n], key);
      LastSupplierWins(dependsOn[..n], outputs, initial, key, i);
    }
  }

  /** ... else the initial input. */
  lemma {:induction false} InitialShowsThrough(dependsOn: seq<Id>, outputs: Outputs, initial: Record, key: string)
    requires forall j :: 0 <= j < |dependsOn| ==> !Supplies(outputs, dependsOn[j], key)
    ensures var r := Aggregated(dependsOn, outputs, initial);
            && (key in r.fields <==> key in initial.fields)
            && (key in initial.fields ==> r.fields[key] == initial.fields[key])
  {
    if dependsOn != [] {
      var n := |dependsOn| - 1;
      assert !Supplies(outputs, dependsOn[n], key);
      InitialShowsThrough(dependsOn[..n], outputs, initial, key);
    }
  }

  /** `runStep` at moment `t`. */
  function RunStep(w: World, t: nat, step: StepDefinition, initial: Record, outputs: Outputs): StepOutcome {
    if !step.hasRunner then Broke(NoRunner)
    else if !Validates(step.inputSchema, Aggregated(step.dependsOn, outputs, initial)) then Broke(InputInvalid)
    else
      match w.run(t, step.id, outputs, initial)
      case Raised(e) => Broke(FromRunner(e))
      case Returned(out) => CheckOutput(step, out)
      case ReturnedNil => CheckOutput(step, Record(map[]))
  }

  function CheckOutput(step: StepDefinition, out: Record): StepOutcome {
    if Validates(step.outputSchema, out) then Done(out) else Broke(OutputInvalid)
  }
}
