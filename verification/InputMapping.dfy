// src/lib/compose-input-mapping.ts: feeding fields of one step's output into the
// next step's input.
module InputMapping {
  import opened Wrappers

  // A JavaScript value. `Scalar` stands for numbers, booleans and the rest, told
  // apart by `id`; only their truthiness matters here.
  datatype Value =
    | Undefined
    | Null
    | Text(text: string)
    | Scalar(truthy: bool, id: int)
    | Array(id: int)
    | Object(fields: map<string, Value>)

  predicate Truthy(v: Value) {
    match v
    case Undefined => false
    case Null => false
    case Text(s) => s != ""
    case Scalar(t, _) => t
    case Array(_) => true
    case Object(_) => true
  }

  lemma TruthyMeaning(v: Value)
    ensures !Truthy(v) <==> v == Undefined || v == Null || v == Text("") || (v.Scalar? && !v.truthy)
  {
  }

  const MAX_ENTRIES := 8
  const MAX_KEY_LENGTH := 128
  const FORBIDDEN: set<string> := {"__proto__", "constructor", "prototype"}
  const RESERVED := "previousOutput"

  // ---- the shape of a mapping ----

  datatype Problem =
    | NotAnObject | NoEntries | TooManyEntries
    | BadText(field: string) | ForbiddenName(field: string)
    | ReservedTarget(field: string) | AlreadyPresent(field: string)

  predicate GoodText(s: string) { 0 < |s| <= MAX_KEY_LENGTH }

  predicate GoodEntry(dest: string, source: Value, stepInput: Value) {
    && GoodText(dest) && source.Text? && GoodText(source.text)
    && dest !in FORBIDDEN && source.text !in FORBIDDEN
    && dest != RESERVED
    && (stepInput.Object? ==> dest !in stepInput.fields)
  }

  // The shape rules; absent mappings are well shaped.
  predicate WellShaped(mapping: Value, stepInput: Value) {
    mapping.Undefined?
    || (mapping.Object? && 0 < |mapping.fields| <= MAX_ENTRIES
        && forall dest :: dest in mapping.fields ==> GoodEntry(dest, mapping.fields[dest], stepInput))
  }

  // A problem names a rule the mapping really breaks.
  predicate Breaks(p: Problem, mapping: Value, stepInput: Value) {
    match p
    case NotAnObject => !mapping.Undefined? && !mapping.Object?
    case NoEntries => mapping == Object(map[])
    case TooManyEntries => mapping.Object? && |mapping.fields| > MAX_ENTRIES
    case BadText(d) =>
      mapping.Object? && d in mapping.fields
      && !(GoodText(d) && mapping.fields[d].Text? && GoodText(mapping.fields[d].text))
    case ForbiddenName(d) =>
      mapping.Object? && d in mapping.fields && mapping.fields[d].Text?
      && (d in FORBIDDEN || mapping.fields[d].text in FORBIDDEN)
    case ReservedTarget(d) => mapping.Object? && d in mapping.fields && d == RESERVED
    case AlreadyPresent(d) => mapping.Object? && d in mapping.fields && stepInput.Object? && d in stepInput.fields
  }

  // The shape rules, spelled out: an object of one to eight entries, each between two
  // texts of 1 to 128 characters that are no prototype names, onto a key that is not
  // `previousOutput` and that the step's own input does not have.
  lemma ShapeRules(mapping: Value, stepInput: Value)
    ensures WellShaped(mapping, stepInput) <==>
              mapping == Undefined ||
              (mapping.Object? && 1 <= |mapping.fields| <= 8 && forall dest :: dest in mapping.fields ==>
                 && 1 <= |dest| <= 128 && mapping.fields[dest].Text? && 1 <= |mapping.fields[dest].text| <= 128
                 && dest != "__proto__" && dest != "constructor" && dest != "prototype" && dest != "previousOutput"
                 && mapping.fields[dest].text != "__proto__" && mapping.fields[dest].text != "constructor"
                 && mapping.fields[dest].text != "prototype"
                 && !(stepInput.Object? && dest in stepInput.fields))
  {
    if mapping.Object? {
      forall dest | dest in mapping.fields
        ensures GoodEntry(dest, mapping.fields[dest], stepInput) <==>
                  && 1 <= |dest| <= 128 && mapping.fields[dest].Text? && 1 <= |mapping.fields[dest].text| <= 128
                  && dest != "__proto__" && dest != "constructor" && dest != "prototype" && dest != "previousOutput"
                  && mapping.fields[dest].text != "__proto__" && mapping.fields[dest].text != "constructor"
                  && mapping.fields[dest].text != "prototype"
                  && !(stepInput.Object? && dest in stepInput.fields)
      {
      }
    }
  }

  // Each rule that is reported broken is one of them, and the reports of one kind are
  // told apart from the others.
  lemma BrokenMeansIllShaped(p: Problem, mapping: Value, stepInput: Value)
    requires Breaks(p, mapping, stepInput)
    ensures !WellShaped(mapping, stepInput)
    ensures p == NotAnObject <==> !mapping.Object?
    ensures p == NoEntries ==> |mapping.fields| == 0
    ensures p == TooManyEntries ==> |mapping.fields| > 8
    ensures p.BadText? || p.ForbiddenName? || p.ReservedTarget? || p.AlreadyPresent? ==> p.field in mapping.fields
    ensures p.ReservedTarget? ==> p.field == "previousOutput"
    ensures p.AlreadyPresent? ==> stepInput.Object? && p.field in stepInput.fields
  {
    if mapping.Object? && mapping.fields != map[] && p.NoEntries? {
      assert false;
    } else if p.BadText? || p.ForbiddenName? || p.ReservedTarget? || p.AlreadyPresent? {
      assert !GoodEntry(p.field, mapping.fields[p.field], stepInput);
    }
  }

  // The entries are looked at in some order.
  method CheckMappingShape(mapping: Value, stepInput: Value) returns (p: Option<Problem>)
    ensures p.None? <==> WellShaped(mapping, stepInput)
    ensures p.Some? ==> Breaks(p.value, mapping, stepInput)
  {
    if mapping.Undefined? {
      return None;
    }
    if !mapping.Object? {
      return Some(NotAnObject);
    }
    if |mapping.fields| == 0 {
      return Some(NoEntries);
    }
    if |mapping.fields| > MAX_ENTRIES {
      return Some(TooManyEntries);
    }
    var left := mapping.fields.Keys;
    while left != {}
      invariant left <= mapping.fields.Keys
      invariant forall d :: d in mapping.fields && d !in left ==> GoodEntry(d, mapping.fields[d], stepInput)
      decreases |left|
    {
      var dest :| dest in left;
      var source := mapping.fields[dest];
      if !GoodText(dest) || !source.Text? || !GoodText(source.text) {
        return Some(BadText(dest));
      }
      if dest in FORBIDDEN || source.text in FORBIDDEN {
        return Some(ForbiddenName(dest));
      }
      if dest == RESERVED {
        return Some(ReservedTarget(dest));
      }
      if stepInput.Object? && dest in stepInput.fields {
        return Some(AlreadyPresent(dest));
      }
      left := left - {dest};
    }
    p := None;
  }

  // ---- applying it ----

  datatype Failure =
    | InvalidShape(problem: Problem)
    | PreviousOutputNotObject
    | SourceFieldMissing(field: string, source: string)

  // An explicit `undefined` counts as absent.
  predicate Has(o: Value, key: string) { o.Object? && key in o.fields && !o.fields[key].Undefined? }

  function Source(mapping: Value, dest: string): string
    requires mapping.Object? && dest in mapping.fields
  {
    if mapping.fields[dest].Text? then mapping.fields[dest].text else ""
  }

  predicate AllSourcesPresent(mapping: Value, previous: Value)
    requires mapping.Object?
  {
    forall d :: d in mapping.fields ==> Has(previous, Source(mapping, d))
  }

  // A source is there when the previous output has the field and it is not undefined.
  lemma SourcesPresentMeaning(mapping: Value, previous: Value)
    requires WellShaped(mapping, Undefined) && mapping.Object? && previous.Object?
    ensures AllSourcesPresent(mapping, previous) <==>
              forall dest :: dest in mapping.fields ==>
                && mapping.fields[dest].Text? && mapping.fields[dest].text in previous.fields
                && previous.fields[mapping.fields[dest].text] != Undefined
  {
    forall dest | dest in mapping.fields
      ensures GoodEntry(dest, mapping.fields[dest], Undefined) && Source(mapping, dest) == mapping.fields[dest].text
    {
    }
  }

  function Mapped(mapping: Value, previous: Value): map<string, Value>
    requires mapping.Object? && AllSourcesPresent(mapping, previous)
  {
    map d | d in mapping.fields :: previous.fields[Source(mapping, d)]
  }

  method ApplyMappingTo(base: map<string, Value>, mapping: Value, previous: Value)
    returns (r: Result<map<string, Value>, Failure>)
    ensures mapping.Undefined? ==> r == Ok(base)
    ensures r.Ok? && !mapping.Undefined? ==>
              && WellShaped(mapping, Undefined) && previous.Object? && AllSourcesPresent(mapping, previous)
              && r.value == base + Mapped(mapping, previous)
    ensures r.Err? ==>
              match r.error
              case InvalidShape(p) => !WellShaped(mapping, Undefined) && Breaks(p, mapping, Undefined)
              case PreviousOutputNotObject => WellShaped(mapping, Undefined) && !previous.Object?
              case SourceFieldMissing(d, s) =>
                WellShaped(mapping, Undefined) && previous.Object? && mapping.Object? && d in mapping.fields
                && Source(mapping, d) == s && !Has(previous, s)
  {
    if mapping.Undefined? {
      return Ok(base);
    }
    var problem := CheckMappingShape(mapping, Undefined);
    if problem.Some? {
      return Err(InvalidShape(problem.value));
    }
    if !previous.Object? {
      return Err(PreviousOutputNotObject);
    }
    var mapped: map<string, Value> := map[];
    var left := mapping.fields.Keys;
    while left != {}
      invariant left <= mapping.fields.Keys && mapped.Keys == mapping.fields.Keys - left
      invariant forall d :: d in mapped ==>
                  Has(previous, Source(mapping, d)) && mapped[d] == previous.fields[Source(mapping, d)]
      decreases |left|
    {
      var dest :| dest in left;
      var source := mapping.fields[dest].text;
      if source !in previous.fields || previous.fields[source].Undefined? {
        return Err(SourceFieldMissing(dest, source));
      }
      mapped := mapped[dest := previous.fields[source]];
      left := left - {dest};
    }
    assert mapped == Mapped(mapping, previous);
    r := Ok(base + mapped);
  }

  // ---- a step ----

  datatype Step = Step(input: map<string, Value>, passOutput: bool, inputFromPrevious: Value)

  function BaseOf(step: Step, previous: Value): map<string, Value> {
    if step.passOutput && Truthy(previous) then step.input[RESERVED := previous] else step.input
  }

  method ResolveStepInput(step: Step, previous: Value) returns (r: Result<map<string, Value>, Failure>)
    ensures r.Ok? ==> WellShaped(step.inputFromPrevious, Object(step.input)) && Resolved(step, previous, r.value)
    ensures r.Err? && r.error.InvalidShape? <==> !WellShaped(step.inputFromPrevious, Object(step.input))
    ensures r.Ok? <==> WellShaped(step.inputFromPrevious, Object(step.input))
                       && (step.inputFromPrevious.Object? ==>
                             previous.Object? && AllSourcesPresent(step.inputFromPrevious, previous))
    ensures r == Err(PreviousOutputNotObject) <==>
              && WellShaped(step.inputFromPrevious, Object(step.input))
              && step.inputFromPrevious.Object? && !previous.Object?
    ensures r.Err? && r.error.SourceFieldMissing? ==>
              && step.inputFromPrevious.Object? && r.error.field in step.inputFromPrevious.fields
              && Source(step.inputFromPrevious, r.error.field) == r.error.source && !Has(previous, r.error.source)
  {
    WellShapedAnywhere(step.inputFromPrevious, Object(step.input));
    var problem := CheckMappingShape(step.inputFromPrevious, Object(step.input));
    if problem.Some? {
      return Err(InvalidShape(problem.value));
    }
    var base := if step.passOutput && Truthy(previous) then step.input[RESERVED := previous] else step.input;
    r := ApplyMappingTo(base, step.inputFromPrevious, previous);
    if r.Err? && r.error.SourceFieldMissing? {
      assert !AllSourcesPresent(step.inputFromPrevious, previous);
    }
    if r.Ok? { ShapeMakesTargetsNew(step.inputFromPrevious, step.input); ResolvedFields(step, previous, r.value); }
  }

  lemma WellShapedAnywhere(mapping: Value, stepInput: Value)
    ensures WellShaped(mapping, stepInput) ==> WellShaped(mapping, Undefined)
  {
  }

  // What a resolved input holds: every target its source's value, the whole previous
  // output where the step asks for it, and every other declared key untouched.
  predicate Resolved(step: Step, previous: Value, input: map<string, Value>) {
    var m := step.inputFromPrevious;
    var targets: set<string> := if m.Object? then m.fields.Keys else {};
    var passes := step.passOutput && Truthy(previous);
    && input.Keys == step.input.Keys + targets + (if passes then {RESERVED} else {})
    && (forall d :: d in targets ==> Has(previous, Source(m, d)) && input[d] == previous.fields[Source(m, d)])
    && (passes ==> input[RESERVED] == previous)
    && (forall k :: k in step.input && !(passes && k == RESERVED) ==> input[k] == step.input[k])
  }

  // The targets of a well-shaped mapping are new to the input and not the reserved key.
  predicate TargetsAreNew(m: Value, input: map<string, Value>) {
    m.Object? ==> RESERVED !in m.fields && forall d :: d in m.fields ==> d !in input
  }

  lemma ShapeMakesTargetsNew(m: Value, input: map<string, Value>)
    requires WellShaped(m, Object(input))
    ensures TargetsAreNew(m, input)
  {
  }

  lemma ResolvedFields(step: Step, previous: Value, input: map<string, Value>)
    requires step.inputFromPrevious.Undefined? || step.inputFromPrevious.Object?
    requires TargetsAreNew(step.inputFromPrevious, step.input)
    requires step.inputFromPrevious.Undefined? ==> input == BaseOf(step, previous)
    requires step.inputFromPrevious.Object? ==>
               previous.Object? && AllSourcesPresent(step.inputFromPrevious, previous)
               && input == BaseOf(step, previous) + Mapped(step.inputFromPrevious, previous)
    ensures Resolved(step, previous, input)
  {
    hide Truthy, Source;
  }

  // ---- the edge ----

  // `step` is the raw body of step `index`; the Err is the edge's complaint.
  method ValidateInputMappingShape(step: Value, index: nat) returns (r: Result<(), Option<Problem>>)
    ensures r.Ok? <==> !step.Object? || Field(step, "inputFromPrevious").Undefined?
                       || (index > 0 && WellShaped(Field(step, "inputFromPrevious"), Field(step, "input")))
  {
    if !step.Object? {
      return Ok(());
    }
    var mapping := Field(step, "inputFromPrevious");
    if mapping.Undefined? {
      return Ok(());
    }
    if index == 0 {
      return Err(None);
    }
    var problem := CheckMappingShape(mapping, Field(step, "input"));
    r := if problem.Some? then Err(problem) else Ok(());
  }

  function Field(o: Value, key: string): Value {
    if o.Object? && key in o.fields then o.fields[key] else Undefined
  }

  // A step the edge let through never fails on shape when it runs.
  method EdgeThenRun(body: Value, index: nat, passOutput: bool, previous: Value)
    returns (edge: Result<(), Option<Problem>>, run: Result<map<string, Value>, Failure>)
    requires Field(body, "input").Object?
    ensures edge.Ok? ==> run.Ok? || !run.error.InvalidShape?
  {
    edge := ValidateInputMappingShape(body, index);
    run := ResolveStepInput(Step(Field(body, "input").fields, passOutput, Field(body, "inputFromPrevious")), previous);
  }

  // ---- the retry guard ----

  predicate MappingOwnsAnyField(mapping: Value, named: seq<string>) {
    mapping.Object? && exists i :: 0 <= i < |named| && named[i] in mapping.fields
  }

  predicate Applies(mapping: Value, previous: Value) {
    mapping.Object? && previous.Object? && WellShaped(mapping, Undefined) && AllSourcesPresent(mapping, previous)
  }

  // Applying a mapping to its own result succeeds and changes nothing.
  method ApplyTwice(base: map<string, Value>, mapping: Value, previous: Value)
    returns (once: Result<map<string, Value>, Failure>, twice: Result<map<string, Value>, Failure>)
    ensures once.Ok? ==> twice == once
  {
    once := ApplyMappingTo(base, mapping, previous);
    twice := once;
    if once.Ok? {
      twice := ApplyMappingTo(once.value, mapping, previous);
      if Applies(mapping, previous) { ReapplyingChangesNothing(base, mapping, previous); }
    }
  }

  lemma ReapplyingChangesNothing(base: map<string, Value>, mapping: Value, previous: Value)
    requires Applies(mapping, previous)
    ensures var once := base + Mapped(mapping, previous); once + Mapped(mapping, previous) == once
  {
  }

  // Whatever input is regenerated, the field comes out the same.
  ghost predicate Settled(mapping: Value, previous: Value, field: string)
    requires Applies(mapping, previous)
  {
    forall a: map<string, Value>, b: map<string, Value> ::
      Field(Object(a + Mapped(mapping, previous)), field) == Field(Object(b + Mapped(mapping, previous)), field)
  }

  // Regenerating the input can change a field exactly when the mapping does not own it.
  lemma SettledIffOwned(mapping: Value, previous: Value, field: string)
    requires Applies(mapping, previous)
    ensures Settled(mapping, previous, field) <==> field in mapping.fields
  {
    if field !in mapping.fields {
      var a: map<string, Value>, b: map<string, Value> := map[field := Null], map[];
      assert Field(Object(a + Mapped(mapping, previous)), field) == Null;
      assert Field(Object(b + Mapped(mapping, previous)), field) == Undefined;
    }
  }

  // So the guard stops exactly the retries bound to send back a value just refused.
  lemma GuardStopsDoomedRetries(mapping: Value, previous: Value, named: seq<string>)
    requires Applies(mapping, previous)
    ensures MappingOwnsAnyField(mapping, named) <==>
            exists i :: 0 <= i < |named| && Settled(mapping, previous, named[i])
  {
    forall i | 0 <= i < |named| ensures Settled(mapping, previous, named[i]) <==> named[i] in mapping.fields {
      SettledIffOwned(mapping, previous, named[i]);
    }
  }
}
