// The deposition recipe (src/perovskite_bo/recipe.py) and the process it is flattened from
// (src/perovskite_bo/device_recipe.py): lists of stages on one side, numbered slots on the other.
module Recipe {
  import opened Wrappers
  import V = VcdProgram

  // ----- the process, as its layer card shows it -----

  datatype SpinStep = SpinStep(rpm: Option<int>, seconds: Option<int>, acceleration: Option<int>)

  datatype AnnealStep = AnnealStep(temperature: Option<int>, seconds: Option<int>)

  datatype VcdStage = VcdStage(valve: string, pressurePa: Option<int>, seconds: Option<int>)

  datatype GasStage = GasStage(gas: string, flowSccm: Option<int>, targetPressurePa: Option<int>,
                               holdSeconds: Option<int>)

  datatype Process = Process(spinSteps: seq<SpinStep>, vcdStages: seq<VcdStage>, gasStages: seq<GasStage>,
                             sequence: Option<seq<V.Ref>>, annealSteps: seq<AnnealStep>)

  const VALVES := ["VV02", "VV03", "VV06", "Pudi"]
  const SPIN_SLOTS := 4
  const STAGE_SLOTS := 5
  const ANNEAL_SLOTS := 2

  predicate Positive(v: Option<int>) { v.Some? && v.value > 0 }

  predicate NonNegative(v: Option<int>) { v.Some? && v.value >= 0 }

  predicate Blank(text: string) { forall c :: c in text ==> c == ' ' || c == '\t' || c == '\n' }

  // Every evacuation stage, then every gas stage.
  function StagesInOrder(n: nat, m: nat): (r: seq<V.Ref>)
    ensures |r| == n + m
    ensures forall i :: 0 <= i < n ==> r[i] == V.VcdStage(i + 1)
    ensures forall i :: n <= i < n + m ==> r[i] == V.GasStage(i - n + 1)
  {
    seq(n, i => V.VcdStage(i + 1)) + seq(m, i => V.GasStage(i + 1))
  }

  // The model validators of PerovskiteDepositionProcess and the completeness checks of
  // validate_deposition_process; text is taken as already stripped.
  predicate IsComplete(p: Process) {
    && 1 <= |p.spinSteps| <= SPIN_SLOTS && 1 <= |p.vcdStages| <= STAGE_SLOTS
    && |p.gasStages| <= STAGE_SLOTS && 1 <= |p.annealSteps| <= ANNEAL_SLOTS
    && (forall i :: 0 <= i < |p.spinSteps| ==> var s := p.spinSteps[i];
          Positive(s.rpm) && Positive(s.seconds) && Positive(s.acceleration))
    && (forall i :: 0 <= i < |p.vcdStages| ==> var s := p.vcdStages[i];
          s.valve in VALVES && NonNegative(s.pressurePa) && NonNegative(s.seconds))
    && (forall i :: 0 <= i < |p.gasStages| ==> var s := p.gasStages[i];
          !Blank(s.gas) && Positive(s.flowSccm) && NonNegative(s.targetPressurePa) && NonNegative(s.holdSeconds))
    && (forall i :: 0 <= i < |p.annealSteps| ==> var s := p.annealSteps[i];
          Positive(s.temperature) && Positive(s.seconds))
  }

  datatype Rejected = Rejected

  // validate_deposition_process: an absent sequence defaults to the stages in order.
  function ValidateProcess(p: Process): (r: Result<Process, Rejected>)
    ensures r.Ok? ==> r.value.sequence.Some? && r.value == p.(sequence := r.value.sequence)
  {
    var sequence := if p.sequence.None? then StagesInOrder(|p.vcdStages|, |p.gasStages|) else p.sequence.value;
    var expected := V.Expected(|p.vcdStages|, |p.gasStages|);
    if !IsComplete(p) || |sequence| != |expected| || (set r | r in sequence) != expected then Err(Rejected)
    else Ok(p.(sequence := Some(sequence)))
  }

  // ----- the recipe, as numbered fields -----

  datatype VcdSlot = VcdSlot(valve: Option<string>, pressurePa: Option<int>, seconds: Option<int>)

  datatype GasSlot = GasSlot(gas: Option<string>, flowSccm: Option<real>, targetPressurePa: Option<int>,
                             holdSeconds: Option<int>)

  // vcd_step_sequence as it was supplied: absent, a Python list, or a tuple.  A list never equals a tuple.
  datatype Sequence = Absent | AsList(refs: seq<V.Ref>) | AsTuple(refs: seq<V.Ref>)

  // The dataclass fields this model covers; the mbar aliases exist for the first three VCD stages.
  datatype Fields = Fields(spin: seq<SpinStep>, vcd: seq<VcdSlot>, gas: seq<GasSlot>, sequence: Sequence,
                           anneal: seq<AnnealStep>, mbar: seq<Option<real>>)

  const NO_SPIN := SpinStep(None, None, None)
  const NO_VCD := VcdSlot(None, None, None)
  const NO_GAS := GasSlot(None, None, None, None)
  const NO_ANNEAL := AnnealStep(None, None)
  const MBAR_SLOTS := 3

  // Every field is present, with None where nothing was supplied.
  predicate HasShape(f: Fields) {
    && |f.spin| == SPIN_SLOTS && |f.vcd| == STAGE_SLOTS && |f.gas| == STAGE_SLOTS
    && |f.anneal| == ANNEAL_SLOTS && |f.mbar| == MBAR_SLOTS
  }

  // ----- DepositionRecipe.__post_init__ -----

  // A stage is supplied in full, or not at all.
  predicate SpinValid(s: SpinStep) {
    s == NO_SPIN || (Positive(s.rpm) && Positive(s.seconds) && Positive(s.acceleration))
  }

  predicate VcdValid(s: VcdSlot) {
    s == NO_VCD || (s.valve.Some? && s.valve.value in VALVES && NonNegative(s.pressurePa) && NonNegative(s.seconds))
  }

  // A stage written before dwell times were recorded may lack its hold time.
  predicate GasValid(s: GasSlot) {
    || s == NO_GAS
    || (&& s.gas.Some? && !Blank(s.gas.value) && s.flowSccm.Some? && s.flowSccm.value > 0.0
        && NonNegative(s.targetPressurePa) && (s.holdSeconds.None? || s.holdSeconds.value >= 0))
  }

  predicate AnnealValid(s: AnnealStep) {
    s == NO_ANNEAL || (Positive(s.temperature) && Positive(s.seconds))
  }

  predicate NoGaps(f: Fields)
    requires HasShape(f)
  {
    && (forall i :: 1 <= i < SPIN_SLOTS && f.spin[i] != NO_SPIN ==> f.spin[i - 1] != NO_SPIN)
    && (forall i :: 1 <= i < STAGE_SLOTS && f.vcd[i] != NO_VCD ==> f.vcd[i - 1] != NO_VCD)
    && (forall i :: 1 <= i < STAGE_SLOTS && f.gas[i] != NO_GAS ==> f.gas[i - 1] != NO_GAS)
  }

  predicate StagesValid(f: Fields)
    requires HasShape(f)
  {
    && f.spin[0] != NO_SPIN && f.vcd[0] != NO_VCD && f.anneal[0] != NO_ANNEAL
    && (forall i :: 0 <= i < SPIN_SLOTS ==> SpinValid(f.spin[i]))
    && (forall i :: 0 <= i < STAGE_SLOTS ==> VcdValid(f.vcd[i]) && GasValid(f.gas[i]))
    && (forall i :: 0 <= i < ANNEAL_SLOTS ==> AnnealValid(f.anneal[i]))
    && NoGaps(f)
  }

  function PresentVcd(f: Fields, i: nat): seq<V.Ref>
    requires HasShape(f) && i <= STAGE_SLOTS
    decreases STAGE_SLOTS - i
  {
    if i == STAGE_SLOTS then []
    else (if f.vcd[i].valve.Some? then [V.VcdStage(i + 1)] else []) + PresentVcd(f, i + 1)
  }

  function PresentGas(f: Fields, i: nat): seq<V.Ref>
    requires HasShape(f) && i <= STAGE_SLOTS
    decreases STAGE_SLOTS - i
  {
    if i == STAGE_SLOTS then []
    else (if f.gas[i].gas.Some? then [V.GasStage(i + 1)] else []) + PresentGas(f, i + 1)
  }

  function ExpectedRefs(f: Fields): set<V.Ref>
    requires HasShape(f)
  {
    set r | r in PresentVcd(f, 0) + PresentGas(f, 0)
  }

  // _validate_vcd_step_sequence, with the default for an absent sequence
  function SequenceOf(f: Fields): Sequence
    requires HasShape(f)
  {
    if f.sequence.Absent? then AsTuple(PresentVcd(f, 0) + PresentGas(f, 0)) else f.sequence
  }

  predicate SequenceValid(f: Fields)
    requires HasShape(f)
  {
    var refs := SequenceOf(f).refs;
    |refs| == |ExpectedRefs(f)| && (set r | r in refs) == ExpectedRefs(f)
  }

  // _mbar_to_integer_pa: the pressure must be a whole number of Pa.
  function MbarToPa(mbar: real): Option<int> {
    var pa := mbar * 100.0;
    if pa.Floor as real == pa then Some(pa.Floor) else None
  }

  // One stage of _canonicalize_vcd_pressures: the pressure and its alias after it, or a conflict.
  function Canonical(pa: Option<int>, mbar: Option<real>): Option<(Option<int>, Option<real>)> {
    if mbar.None? then Some((pa, if pa.None? then None else Some(pa.value as real / 100.0)))
    else if MbarToPa(mbar.value).None? then None
    else if pa.None? then Some((MbarToPa(mbar.value), mbar))
    else if pa == MbarToPa(mbar.value) then Some((pa, mbar))
    else None
  }

  function CanonicalAt(f: Fields, i: nat): Option<(Option<int>, Option<real>)>
    requires HasShape(f) && i < MBAR_SLOTS
  {
    Canonical(f.vcd[i].pressurePa, f.mbar[i])
  }

  predicate PressuresAgree(f: Fields)
    requires HasShape(f)
  {
    forall i :: 0 <= i < MBAR_SLOTS ==> CanonicalAt(f, i).Some?
  }

  function WithPressures(f: Fields): (r: Fields)
    requires HasShape(f) && PressuresAgree(f)
    ensures HasShape(r)
  {
    f.(vcd := seq(STAGE_SLOTS, i requires 0 <= i < STAGE_SLOTS =>
                    if i < MBAR_SLOTS then f.vcd[i].(pressurePa := CanonicalAt(f, i).value.0) else f.vcd[i]),
       mbar := seq(MBAR_SLOTS, i requires 0 <= i < MBAR_SLOTS => CanonicalAt(f, i).value.1))
  }

  // The checks on a recipe whose pressures are settled.
  function Checked(f: Fields): Result<Fields, Rejected>
    requires HasShape(f)
  {
    if StagesValid(f) && SequenceValid(f) then Ok(f.(sequence := SequenceOf(f))) else Err(Rejected)
  }

  // DepositionRecipe(...)
  function Construct(f: Fields): Result<Fields, Rejected>
    requires HasShape(f)
  {
    if !PressuresAgree(f) then Err(Rejected) else Checked(WithPressures(f))
  }

  // ----- serialisation -----

  // to_dict: the aliases are left out, and the sequence becomes a list.
  function ToDict(r: Fields): (d: Fields)
    ensures HasShape(r) ==> HasShape(d)
  {
    r.(mbar := seq(MBAR_SLOTS, i => None),
       sequence := if r.sequence.Absent? then Absent else AsList(r.sequence.refs))
  }

  // from_mapping: a list becomes a tuple, and the aliases are migrated before construction.
  function FromMapping(d: Fields): Result<Fields, Rejected>
    requires HasShape(d)
  {
    if !PressuresAgree(d) then Err(Rejected)
    else
      var g := WithPressures(d);
      Construct(g.(mbar := seq(MBAR_SLOTS, i => None),
                   sequence := if d.sequence.AsList? then AsTuple(d.sequence.refs) else d.sequence))
  }

  // What the dataclass compares: every field but the aliases.
  predicate SameRecipe(a: Fields, b: Fields) {
    a.(mbar := []) == b.(mbar := [])
  }

  lemma NoAliases(f: Fields)
    requires HasShape(f) && forall i :: 0 <= i < MBAR_SLOTS ==> f.mbar[i].None?
    ensures PressuresAgree(f) && WithPressures(f) == f.(mbar := WithPressures(f).mbar)
  {
    assert WithPressures(f).vcd == f.vcd;
  }

  lemma {:induction false} SameStages(f: Fields, g: Fields)
    requires HasShape(f) && HasShape(g) && f.spin == g.spin && f.vcd == g.vcd && f.gas == g.gas && f.anneal == g.anneal
    ensures StagesValid(f) == StagesValid(g) && ExpectedRefs(f) == ExpectedRefs(g)
    ensures PresentVcd(f, 0) == PresentVcd(g, 0) && PresentGas(f, 0) == PresentGas(g, 0)
  {
    PresentDepends(f, g, 0);
    assert NoGaps(f) == NoGaps(g);
  }

  lemma {:induction false} PresentDepends(f: Fields, g: Fields, i: nat)
    requires HasShape(f) && HasShape(g) && f.vcd == g.vcd && f.gas == g.gas && i <= STAGE_SLOTS
    ensures PresentVcd(f, i) == PresentVcd(g, i) && PresentGas(f, i) == PresentGas(g, i)
    decreases STAGE_SLOTS - i
  {
    if i < STAGE_SLOTS {
      PresentDepends(f, g, i + 1);
    }
  }

  lemma CheckedWithoutAliases(f: Fields, g: Fields)
    requires HasShape(f) && HasShape(g) && g == f.(mbar := g.mbar)
    ensures Checked(g).Ok? <==> Checked(f).Ok?
    ensures Checked(f).Ok? ==> SameRecipe(Checked(g).value, Checked(f).value)
  {
    SameStages(f, g);
  }

  // Construction of fields that carry no aliases depends only on the fields, and keeps them.
  lemma {:induction false} ConstructWithoutAliases(f: Fields)
    requires HasShape(f) && forall i :: 0 <= i < MBAR_SLOTS ==> f.mbar[i].None?
    ensures Construct(f).Ok? <==> Checked(f).Ok?
    ensures Checked(f).Ok? ==> SameRecipe(Construct(f).value, Checked(f).value)
  {
    NoAliases(f);
    CheckedWithoutAliases(f, WithPressures(f));
  }

  lemma ConstructedIsValid(f: Fields)
    requires HasShape(f) && Construct(f).Ok?
    ensures var r := Construct(f).value; HasShape(r) && StagesValid(r) && SequenceValid(r) && !r.sequence.Absent?
  {
    SameStages(WithPressures(f), Construct(f).value);
  }

  /** Reading back what a recipe serialises to always succeeds, and gives that recipe with its sequence as a tuple. */
  lemma {:induction false} ReadsBack(f: Fields)
    requires HasShape(f) && Construct(f).Ok?
    ensures var r := Construct(f).value;
      FromMapping(ToDict(r)).Ok? && SameRecipe(FromMapping(ToDict(r)).value, r.(sequence := AsTuple(r.sequence.refs)))
  {
    var r := Construct(f).value;
    ConstructedIsValid(f);
    var d := ToDict(r);
    NoAliases(d);
    var g := WithPressures(d).(mbar := seq(MBAR_SLOTS, i => None), sequence := AsTuple(d.sequence.refs));
    assert g == d.(sequence := AsTuple(r.sequence.refs));
    SameStages(r, g);
    ConstructWithoutAliases(g);
  }

  /** from_mapping(r.to_dict()) == r holds for exactly the recipes whose sequence is held as a tuple, whether
      given so or defaulted; legacy gas stages without a hold time are no exception. */
  lemma {:induction false} RoundTrip(f: Fields)
    requires HasShape(f) && Construct(f).Ok?
    ensures var r := Construct(f).value;
      FromMapping(ToDict(r)).Ok? && (SameRecipe(FromMapping(ToDict(r)).value, r) <==> r.sequence.AsTuple?)
    ensures Construct(f).value.sequence.AsTuple? <==> !f.sequence.AsList?
  {
    ReadsBack(f);
  }

  // ----- flattening a process -----

  function ToVcdSlot(s: VcdStage): VcdSlot { VcdSlot(Some(s.valve), s.pressurePa, s.seconds) }

  function ToGasSlot(s: GasStage): GasSlot {
    GasSlot(Some(s.gas), if s.flowSccm.Some? then Some(s.flowSccm.value as real) else None,
            s.targetPressurePa, s.holdSeconds)
  }

  // The slot at an index: the stage there, or the blank one.
  function VcdAt(p: Process, i: nat): VcdSlot { if i < |p.vcdStages| then ToVcdSlot(p.vcdStages[i]) else NO_VCD }

  function GasAt(p: Process, i: nat): GasSlot { if i < |p.gasStages| then ToGasSlot(p.gasStages[i]) else NO_GAS }

  function SpinAt(p: Process, i: nat): SpinStep { if i < |p.spinSteps| then p.spinSteps[i] else NO_SPIN }

  function AnnealAt(p: Process, i: nat): AnnealStep { if i < |p.annealSteps| then p.annealSteps[i] else NO_ANNEAL }

  function Flatten(p: Process): (f: Fields)
    requires p.sequence.Some?
    ensures HasShape(f)
  {
    Fields(seq(SPIN_SLOTS, i requires 0 <= i => SpinAt(p, i)), seq(STAGE_SLOTS, i requires 0 <= i => VcdAt(p, i)),
           seq(STAGE_SLOTS, i requires 0 <= i => GasAt(p, i)), AsList(p.sequence.value),
           seq(ANNEAL_SLOTS, i requires 0 <= i => AnnealAt(p, i)), seq(MBAR_SLOTS, i => None))
  }

  // deposition_recipe_from_process
  method FlattenProcess(values: Process) returns (r: Result<Fields, Rejected>)
    ensures r.Ok? <==> ValidateProcess(values).Ok?
    ensures r.Ok? ==> r.value == Flatten(ValidateProcess(values).value)
  {
    var validated := ValidateProcess(values);
    if validated.Err? {
      return Err(Rejected);
    }
    var process := validated.value;
    var spin: seq<SpinStep> := [];
    for index := 0 to SPIN_SLOTS
      invariant |spin| == index && forall i :: 0 <= i < index ==> spin[i] == SpinAt(process, i)
    {
      spin := spin + [if index < |process.spinSteps| then process.spinSteps[index] else NO_SPIN];
    }
    var vcd: seq<VcdSlot> := [];
    for index := 0 to |process.vcdStages|
      invariant |vcd| == index && forall i :: 0 <= i < index ==> vcd[i] == VcdAt(process, i)
    {
      var stage := process.vcdStages[index];
      vcd := vcd + [VcdSlot(Some(stage.valve), stage.pressurePa, stage.seconds)];
    }
    for index := |process.vcdStages| to STAGE_SLOTS
      invariant |vcd| == index && forall i :: 0 <= i < index ==> vcd[i] == VcdAt(process, i)
    {
      vcd := vcd + [NO_VCD];
    }
    var gas: seq<GasSlot> := [];
    for index := 0 to |process.gasStages|
      invariant |gas| == index && forall i :: 0 <= i < index ==> gas[i] == GasAt(process, i)
    {
      gas := gas + [ToGasSlot(process.gasStages[index])];
    }
    for index := |process.gasStages| to STAGE_SLOTS
      invariant |gas| == index && forall i :: 0 <= i < index ==> gas[i] == GasAt(process, i)
    {
      gas := gas + [NO_GAS];
    }
    var anneal: seq<AnnealStep> := process.annealSteps;
    if |process.annealSteps| == 1 {
      anneal := anneal + [NO_ANNEAL];
    }
    r := Ok(Fields(spin, vcd, gas, AsList(process.sequence.value), anneal, seq(MBAR_SLOTS, i => None)));
    SameFlatten(r.value, process);
  }

  lemma SameFlatten(f: Fields, p: Process)
    requires p.sequence.Some? && HasShape(f)
    requires forall i :: 0 <= i < SPIN_SLOTS ==> f.spin[i] == SpinAt(p, i)
    requires forall i :: 0 <= i < STAGE_SLOTS ==> f.vcd[i] == VcdAt(p, i) && f.gas[i] == GasAt(p, i)
    requires forall i :: 0 <= i < ANNEAL_SLOTS ==> f.anneal[i] == AnnealAt(p, i)
    requires f.sequence == AsList(p.sequence.value) && f.mbar == seq(MBAR_SLOTS, i => None)
    ensures f == Flatten(p)
  {
    var g := Flatten(p);
    assert f.spin == g.spin;
    assert f.vcd == g.vcd;
    assert f.gas == g.gas;
    assert f.anneal == g.anneal;
    assert f.mbar == g.mbar;
  }

  lemma FlatStagesValid(p: Process)
    requires p.sequence.Some? && IsComplete(p)
    ensures StagesValid(Flatten(p))
  {
    var f := Flatten(p);
    forall i | 0 <= i < SPIN_SLOTS ensures SpinValid(f.spin[i]) {
      assert f.spin[i] == SpinAt(p, i);
    }
    forall i | 0 <= i < STAGE_SLOTS ensures VcdValid(f.vcd[i]) && GasValid(f.gas[i]) {
      assert f.vcd[i] == VcdAt(p, i) && f.gas[i] == GasAt(p, i);
    }
    forall i | 0 <= i < ANNEAL_SLOTS ensures AnnealValid(f.anneal[i]) {
      assert f.anneal[i] == AnnealAt(p, i);
    }
    FlatHasNoGaps(p);
    assert f.spin[0] == p.spinSteps[0] && f.vcd[0] == ToVcdSlot(p.vcdStages[0]) && f.anneal[0] == p.annealSteps[0];
  }

  lemma FlatHasNoGaps(p: Process)
    requires p.sequence.Some? && IsComplete(p)
    ensures NoGaps(Flatten(p))
  {
    var f := Flatten(p);
    forall i | 0 <= i < SPIN_SLOTS ensures f.spin[i] != NO_SPIN <==> i < |p.spinSteps| {
      assert f.spin[i] == SpinAt(p, i);
    }
    forall i | 0 <= i < STAGE_SLOTS ensures f.vcd[i] != NO_VCD <==> i < |p.vcdStages| {
      assert f.vcd[i] == VcdAt(p, i);
    }
    forall i | 0 <= i < STAGE_SLOTS ensures f.gas[i] != NO_GAS <==> i < |p.gasStages| {
      assert f.gas[i] == GasAt(p, i);
    }
  }

  lemma {:induction false} PresentVcdHas(f: Fields, i: nat, r: V.Ref)
    requires HasShape(f) && i <= STAGE_SLOTS
    ensures r in PresentVcd(f, i)
       <==> r.VcdStage? && i < r.number <= STAGE_SLOTS && f.vcd[r.number - 1].valve.Some?
    decreases STAGE_SLOTS - i
  {
    if i < STAGE_SLOTS {
      PresentVcdHas(f, i + 1, r);
    }
  }

  lemma {:induction false} PresentGasHas(f: Fields, i: nat, r: V.Ref)
    requires HasShape(f) && i <= STAGE_SLOTS
    ensures r in PresentGas(f, i)
       <==> r.GasStage? && i < r.number <= STAGE_SLOTS && f.gas[r.number - 1].gas.Some?
    decreases STAGE_SLOTS - i
  {
    if i < STAGE_SLOTS {
      PresentGasHas(f, i + 1, r);
    }
  }

  // A slot is filled exactly when there is a stage of that number.
  lemma FlatSlots(p: Process, r: V.Ref)
    requires p.sequence.Some? && IsComplete(p)
    ensures r.VcdStage? && 0 < r.number <= STAGE_SLOTS ==>
      (Flatten(p).vcd[r.number - 1].valve.Some? <==> r.number <= |p.vcdStages|)
    ensures r.GasStage? && 0 < r.number <= STAGE_SLOTS ==>
      (Flatten(p).gas[r.number - 1].gas.Some? <==> r.number <= |p.gasStages|)
  {
    if r.VcdStage? && 0 < r.number <= STAGE_SLOTS {
      assert Flatten(p).vcd[r.number - 1] == VcdAt(p, r.number - 1);
    }
    if r.GasStage? && 0 < r.number <= STAGE_SLOTS {
      assert Flatten(p).gas[r.number - 1] == GasAt(p, r.number - 1);
    }
  }

  lemma {:induction false} FlatExpectedHas(p: Process, r: V.Ref)
    requires p.sequence.Some? && IsComplete(p)
    ensures r in ExpectedRefs(Flatten(p)) <==> V.IsExpected(r, |p.vcdStages|, |p.gasStages|)
  {
    var f := Flatten(p);
    PresentVcdHas(f, 0, r);
    PresentGasHas(f, 0, r);
    FlatSlots(p, r);
  }

  lemma ExpectedHas(n: nat, m: nat, r: V.Ref)
    ensures r in V.Expected(n, m) <==> V.IsExpected(r, n, m)
  {
  }

  lemma {:induction false} FlatExpected(p: Process)
    requires p.sequence.Some? && IsComplete(p)
    ensures ExpectedRefs(Flatten(p)) == V.Expected(|p.vcdStages|, |p.gasStages|)
  {
    forall r ensures r in ExpectedRefs(Flatten(p)) <==> r in V.Expected(|p.vcdStages|, |p.gasStages|) {
      FlatExpectedHas(p, r);
      ExpectedHas(|p.vcdStages|, |p.gasStages|, r);
    }
  }

  lemma {:induction false} FlatSequenceValid(p: Process, f: Fields)
    requires ValidateProcess(p) == Ok(p) && HasShape(f)
    requires f.vcd == Flatten(p).vcd && f.gas == Flatten(p).gas && !f.sequence.Absent? && f.sequence.refs == p.sequence.value
    ensures SequenceValid(f)
  {
    FlatExpected(p);
    PresentDepends(f, Flatten(p), 0);
    assert ExpectedRefs(f) == ExpectedRefs(Flatten(p));
  }

  lemma FlatIsChecked(p: Process, f: Fields)
    requires ValidateProcess(p) == Ok(p) && HasShape(f) && !f.sequence.Absent? && f.sequence.refs == p.sequence.value
    requires f == Flatten(p).(sequence := f.sequence)
    ensures Checked(f) == Ok(f)
  {
    FlatStagesValid(p);
    SameStages(f, Flatten(p));
    FlatSequenceValid(p, f);
  }

  lemma {:induction false} FlatConstructs(p: Process, f: Fields)
    requires ValidateProcess(p) == Ok(p) && HasShape(f) && !f.sequence.Absent? && f.sequence.refs == p.sequence.value
    requires f == Flatten(p).(sequence := f.sequence)
    ensures Construct(f).Ok? && SameRecipe(Construct(f).value, f)
  {
    FlatIsChecked(p, f);
    ConstructWithoutAliases(f);
  }

  lemma {:induction false} FlatReadsBack(p: Process)
    requires ValidateProcess(p) == Ok(p)
    ensures var f := Flatten(p); var g := f.(sequence := AsTuple(p.sequence.value));
      FromMapping(f).Ok? && SameRecipe(FromMapping(f).value, g)
  {
    var f := Flatten(p);
    NoAliases(f);
    var g := f.(sequence := AsTuple(p.sequence.value));
    assert WithPressures(f).(mbar := seq(MBAR_SLOTS, i => None), sequence := AsTuple(p.sequence.value)) == g;
    FlatConstructs(p, g);
  }

  /** Every process the layer card accepts flattens to fields the recipe accepts, unchanged and with no stage gaps;
      read from a mapping, it keeps the step sequence. */
  lemma {:induction false} FlattenedIsAccepted(values: Process)
    requires ValidateProcess(values).Ok?
    ensures var p := ValidateProcess(values).value; var f := Flatten(p);
      && NoGaps(f)
      && Construct(f).Ok? && SameRecipe(Construct(f).value, f)
      && FromMapping(f).Ok? && SameRecipe(FromMapping(f).value, f.(sequence := AsTuple(p.sequence.value)))
  {
    var p := ValidateProcess(values).value;
    var f := Flatten(p);
    FlatHasNoGaps(p);
    FlatConstructs(p, f);
    FlatReadsBack(p);
  }

  predicate IsEmptyVcd(s: VcdSlot) { s.valve.None? && s.pressurePa.None? && s.seconds.None? }

  predicate IsEmptyGas(s: GasSlot) {
    s.gas.None? && s.flowSccm.None? && s.targetPressurePa.None? && s.holdSeconds.None?
  }

  predicate HoldsVcd(slot: VcdSlot, stage: VcdStage) {
    slot.valve == Some(stage.valve) && slot.pressurePa == stage.pressurePa && slot.seconds == stage.seconds
  }

  predicate HoldsGas(slot: GasSlot, stage: GasStage) {
    && slot.gas == Some(stage.gas) && slot.flowSccm.Some? && stage.flowSccm == Some(slot.flowSccm.value.Floor)
    && slot.flowSccm.value.Floor as real == slot.flowSccm.value
    && slot.targetPressurePa == stage.targetPressurePa && slot.holdSeconds == stage.holdSeconds
  }

  // The sequence that was given, or the evacuation stages in order and then the gas stages.
  predicate IsSequenceOf(values: Process, refs: seq<V.Ref>) {
    var n := |values.vcdStages|;
    if values.sequence.Some? then refs == values.sequence.value
    else
      && |refs| == n + |values.gasStages|
      && forall k :: 0 <= k < |refs| ==> refs[k] == if k < n then V.VcdStage(k + 1) else V.GasStage(k - n + 1)
  }

  /** Stage by stage: the numbered fields hold the values of the stage with that number, and None beyond the last. */
  lemma FieldsHoldStages(values: Process, i: nat)
    requires ValidateProcess(values).Ok? && i < 5
    ensures var f := Flatten(ValidateProcess(values).value);
      && |f.spin| == 4 && |f.vcd| == 5 && |f.gas| == 5 && |f.anneal| == 2
      && (i < 4 ==>
            f.spin[i] == if i < |values.spinSteps| then values.spinSteps[i] else SpinStep(None, None, None))
      && (if i < |values.vcdStages| then HoldsVcd(f.vcd[i], values.vcdStages[i]) else IsEmptyVcd(f.vcd[i]))
      && (if i < |values.gasStages| then HoldsGas(f.gas[i], values.gasStages[i]) else IsEmptyGas(f.gas[i]))
      && (i < 2 ==>
            f.anneal[i] == if i < |values.annealSteps| then values.annealSteps[i] else AnnealStep(None, None))
      && f.sequence.AsList? && IsSequenceOf(values, f.sequence.refs)
  {
    var f := Flatten(ValidateProcess(values).value);
    assert f.vcd[i] == VcdAt(values, i) && f.gas[i] == GasAt(values, i);
  }

  predicate IsSamePressure(mbar: real, pa: int) { mbar * 100.0 == pa as real }

  // An alias in mbar is absent, or a whole number of Pa that agrees with the pressure if one is given.
  ghost predicate AliasFits(pa: Option<int>, mbar: Option<real>) {
    mbar.Some? ==> if pa.Some? then IsSamePressure(mbar.value, pa.value) else exists n :: IsSamePressure(mbar.value, n)
  }

  lemma MbarToPaIs(mbar: real, pa: int)
    requires IsSamePressure(mbar, pa)
    ensures MbarToPa(mbar) == Some(pa)
  {
  }

  lemma CanonicalWhen(pa: Option<int>, mbar: Option<real>)
    ensures Canonical(pa, mbar).Some? <==> AliasFits(pa, mbar)
  {
    if mbar.Some? && MbarToPa(mbar.value).Some? {
      assert IsSamePressure(mbar.value, MbarToPa(mbar.value).value);
    }
    if mbar.Some? && AliasFits(pa, mbar) {
      var n :| IsSamePressure(mbar.value, n) && (pa.None? || pa.value == n);
      MbarToPaIs(mbar.value, n);
    }
  }

  /** Pressures and their aliases in mbar are settled exactly when no alias is fractional or contradicts its pressure;
      then what was given stays, and of the two either both are there, for the same pressure, or neither. */
  lemma PressuresAre(f: Fields)
    requires HasShape(f)
    ensures PressuresAgree(f) <==> forall i :: 0 <= i < 3 ==> AliasFits(f.vcd[i].pressurePa, f.mbar[i])
    ensures PressuresAgree(f) ==> var r := WithPressures(f);
      && r == f.(vcd := r.vcd, mbar := r.mbar) && f.vcd[3..] == r.vcd[3..]
      && forall i :: 0 <= i < 3 ==>
           && r.vcd[i].valve == f.vcd[i].valve && r.vcd[i].seconds == f.vcd[i].seconds
           && (f.vcd[i].pressurePa.Some? ==> r.vcd[i].pressurePa == f.vcd[i].pressurePa)
           && (f.mbar[i].Some? ==> r.mbar[i] == f.mbar[i])
           && (r.vcd[i].pressurePa.Some? <==> f.vcd[i].pressurePa.Some? || f.mbar[i].Some?)
           && (r.vcd[i].pressurePa.Some? <==> r.mbar[i].Some?)
           && (r.mbar[i].Some? ==> IsSamePressure(r.mbar[i].value, r.vcd[i].pressurePa.value))
  {
    forall i | 0 <= i < 3 ensures CanonicalAt(f, i).Some? <==> AliasFits(f.vcd[i].pressurePa, f.mbar[i]) {
      CanonicalWhen(f.vcd[i].pressurePa, f.mbar[i]);
    }
  }

  // ----- and back -----

  function FromVcdSlot(s: VcdSlot): VcdStage {
    VcdStage(if s.valve.Some? then s.valve.value else "", s.pressurePa, s.seconds)
  }

  function FromGasSlot(s: GasSlot): GasStage {
    GasStage(if s.gas.Some? then s.gas.value else "",
             if s.flowSccm.Some? then Some(s.flowSccm.value.Floor) else None, s.targetPressurePa, s.holdSeconds)
  }

  // The number of leading slots that are not blank.
  function Used<T(==)>(slots: seq<T>, blank: T): (n: nat)
    ensures n <= |slots|
  {
    if slots == [] || slots[0] == blank then 0 else 1 + Used(slots[1..], blank)
  }

  function Rebuild(f: Fields): Process
    requires HasShape(f) && !f.sequence.Absent?
  {
    Process(f.spin[..Used(f.spin, NO_SPIN)],
            seq(Used(f.vcd, NO_VCD), i requires 0 <= i < Used(f.vcd, NO_VCD) => FromVcdSlot(f.vcd[i])),
            seq(Used(f.gas, NO_GAS), i requires 0 <= i < Used(f.gas, NO_GAS) => FromGasSlot(f.gas[i])),
            Some(f.sequence.refs),
            f.anneal[..Used(f.anneal, NO_ANNEAL)])
  }

  lemma {:induction false} UsedIs<T>(slots: seq<T>, blank: T, n: nat)
    requires n <= |slots| && forall i :: 0 <= i < |slots| ==> (slots[i] != blank <==> i < n)
    ensures Used(slots, blank) == n
  {
    if n > 0 {
      assert slots[0] != blank;
      UsedIs(slots[1..], blank, n - 1);
    }
  }

  lemma GasStageBack(s: GasStage)
    requires s.flowSccm.Some?
    ensures FromGasSlot(ToGasSlot(s)) == s
  {
  }

  lemma StagesBack(p: Process)
    requires p.sequence.Some? && IsComplete(p)
    ensures Rebuild(Flatten(p)).vcdStages == p.vcdStages && Rebuild(Flatten(p)).gasStages == p.gasStages
  {
    var f := Flatten(p);
    UsedSlots(p);
    var q := Rebuild(f);
    forall i | 0 <= i < |p.gasStages| ensures q.gasStages[i] == p.gasStages[i] {
      assert f.gas[i] == GasAt(p, i);
      GasStageBack(p.gasStages[i]);
    }
    forall i | 0 <= i < |p.vcdStages| ensures q.vcdStages[i] == p.vcdStages[i] {
      assert f.vcd[i] == VcdAt(p, i);
    }
  }

  lemma StepsBack(p: Process)
    requires p.sequence.Some? && IsComplete(p)
    ensures Rebuild(Flatten(p)).spinSteps == p.spinSteps && Rebuild(Flatten(p)).annealSteps == p.annealSteps
  {
    UsedSlots(p);
  }

  /** Nothing is lost: the process can be rebuilt from the flattened fields. */
  lemma FlattenIsInvertible(values: Process)
    requires ValidateProcess(values).Ok?
    ensures Rebuild(Flatten(ValidateProcess(values).value)) == ValidateProcess(values).value
  {
    StagesBack(ValidateProcess(values).value);
    StepsBack(ValidateProcess(values).value);
  }

  lemma UsedSlots(p: Process)
    requires p.sequence.Some? && IsComplete(p)
    ensures var f := Flatten(p);
      && Used(f.spin, NO_SPIN) == |p.spinSteps| && Used(f.vcd, NO_VCD) == |p.vcdStages|
      && Used(f.gas, NO_GAS) == |p.gasStages| && Used(f.anneal, NO_ANNEAL) == |p.annealSteps|
  {
    var f := Flatten(p);
    UsedIs(f.spin, NO_SPIN, |p.spinSteps|);
    UsedIs(f.vcd, NO_VCD, |p.vcdStages|);
    UsedIs(f.gas, NO_GAS, |p.gasStages|);
    UsedIs(f.anneal, NO_ANNEAL, |p.annealSteps|);
  }

  // ----- a recipe that does not equal itself read back -----

  const SMALLEST := Process([SpinStep(Some(1000), Some(30), Some(500))], [VcdStage("VV02", Some(100), Some(10))], [],
                            Some([V.VcdStage(1)]), [AnnealStep(Some(100), Some(600))])

  lemma SmallestIsValid()
    ensures ValidateProcess(SMALLEST) == Ok(SMALLEST)
  {
    var refs := [V.VcdStage(1)];
    assert V.Expected(1, 0) == {V.VcdStage(1)};
    assert (set r | r in refs) == {V.VcdStage(1)};
    assert "VV02" == VALVES[0];
  }

  /** A failing input for the round trip: the fields of a flattened process hold the sequence as a list, so the recipe
      constructed from them differs from the same recipe read back. */
  lemma ListDoesNotComeBack()
    ensures var f := Flatten(SMALLEST);
      && Construct(f).Ok? && FromMapping(ToDict(Construct(f).value)).Ok?
      && !SameRecipe(FromMapping(ToDict(Construct(f).value)).value, Construct(f).value)
  {
    SmallestIsValid();
    FlattenedIsAccepted(SMALLEST);
    RoundTrip(Flatten(SMALLEST));
  }
}
