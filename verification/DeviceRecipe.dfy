// validate_device_recipe of src/perovskite_bo/device_recipe.py: nested data is read field by field into the shapes of
// the pydantic models, older keys are renamed, texts are stripped, and the result is written out as plain data again.
module DeviceRecipe {
  import opened FrozenValues
  import opened Scalars
  import opened Wrappers

  // ----- reading values by their shape -----

  // What pydantic and str.strip do: a number or flag read from a scalar, which white space is stripped, and the model
  // validators that only raise, by model and fields; complete stands for the checks validate_device_recipe makes last.
  datatype Library = Library(asInt: Scalar -> Option<int>, asFloat: Scalar -> Option<real>,
                             asFlag: Scalar -> Option<bool>, isSpace: char -> bool,
                             accepts: (string, map<string, Value>) -> bool, complete: Value -> bool) {
    // A number or flag that has the type asked for is read as it is.
    ghost predicate Valid() {
      && (forall n :: asInt(Int(n)) == Some(n)) && (forall x :: asFloat(Float(x)) == Some(x))
      && (forall flag :: asFlag(Bool(flag)) == Some(flag))
    }
  }

  // A field; without a default it is required.
  datatype Field = Field(shape: Shape, default: Option<Value>)

  // What a model does to older data before it reads a plain dictionary.
  datatype Upgrade = NoUpgrade | RenameReference | AddSequence | UpgradeRecipe

  datatype Shape =
    | Texts(stripped: bool, least: nat, most: Option<nat>)
    | Words(words: seq<string>)
    | Exactly(number: int)
    | Integers(lowest: int)
    | Positives
    | Flags
    | Optional(some: Shape)
    | ListOf(item: Shape, least: nat, most: Option<nat>)
    | Tagged(tag: string, cases: map<string, Shape>)
    | Model(name: string, fields: map<string, Field>, upgrade: Upgrade, fillsRole: bool)

  predicate Within(n: nat, least: nat, most: Option<nat>) { least <= n && (most.None? || n <= most.value) }

  function StripLeft(l: Library, text: string): (r: string)
    ensures r == [] || !l.isSpace(r[0])
  {
    if text != [] && l.isSpace(text[0]) then StripLeft(l, text[1..]) else text
  }

  function StripRight(l: Library, text: string): (r: string)
    ensures r == [] || !l.isSpace(r[|r| - 1])
    ensures r <= text
  {
    if text != [] && l.isSpace(text[|text| - 1]) then StripRight(l, text[..|text| - 1]) else text
  }

  function Strip(l: Library, text: string): string { StripRight(l, StripLeft(l, text)) }

  lemma StripTwice(l: Library, text: string)
    ensures Strip(l, Strip(l, text)) == Strip(l, text)
  {
    var r := Strip(l, text);
    if r != [] {
      assert r[0] == StripLeft(l, text)[0];
      assert StripLeft(l, r) == r;
    }
  }

  function Decimal(n: nat): string {
    if n < 10 then ["0123456789"[n]] else Decimal(n / 10) + ["0123456789"[n % 10]]
  }

  function Word(text: string): Value { Leaf(Text(text, None)) }

  const BLANK := Word("")
  const NOTHING := Leaf(Nothing)
  const EMPTY := Items([], false)

  function Length(entries: map<string, Value>, key: string): nat {
    if key in entries && entries[key].Items? then |entries[key].items| else 0
  }

  // Every evacuation stage, then every gas stage.
  function StageNames(entries: map<string, Value>): Value {
    Items(seq(Length(entries, "vcd_stages"), i requires i >= 0 => Word("vcd_stage" + Decimal(i + 1)))
          + seq(Length(entries, "gas_backfill_stages"), i requires i >= 0 => Word("gas_backfill_stage" + Decimal(i + 1))),
          false)
  }

  predicate IsWord(v: Value, text: string) { v.Leaf? && v.scalar.Text? && v.scalar.text == text }

  // None, or a number that equals 1.
  predicate IsFirstVersion(v: Value) { v.Leaf? && (v.scalar == Nothing || Scalars.Same(v.scalar, Int(1))) }

  const SCHEMA_VERSION := 2

  function Upgraded(upgrade: Upgrade, e: map<string, Value>): map<string, Value> {
    match upgrade
    case NoUpgrade => e
    case RenameReference =>
      if "reference_id" in e && "preset_id" !in e then (e - {"reference_id"})["preset_id" := e["reference_id"]] else e
    case AddSequence =>
      if "vcd_step_sequence" in e then e else e["vcd_step_sequence" := StageNames(e)]
    case UpgradeRecipe =>
      var renamed := if "setup_mode" in e && IsWord(e["setup_mode"], "reference")
                     then e["setup_mode" := Word("baseline")] else e;
      var kept := renamed - {"stack_reference_id"};
      if "schema_version" in kept && !IsFirstVersion(kept["schema_version"]) then kept
      else kept["schema_version" := Leaf(Int(SCHEMA_VERSION))]
  }

  // LAYER_ROLE_BY_TYPE
  function RoleOf(layerType: Value): string {
    if IsWord(layerType, "niox") || IsWord(layerType, "sam") then "htl"
    else if IsWord(layerType, "buried_interface") || IsWord(layerType, "sio2_np") then "buried_interface_modifier"
    else if IsWord(layerType, "perovskite") then "perovskite"
    else if IsWord(layerType, "ag") then "top_electrode"
    else if IsWord(layerType, "passivation") || IsWord(layerType, "peai") || IsWord(layerType, "edadi")
    then "top_passivation"
    else "etl"
  }

  // validate_role: the role follows from the type, and where one is given it must be that one.
  function WithRole(e: map<string, Value>): (r: Option<map<string, Value>>)
    requires "layer_type" in e && "role" in e
    ensures r.Some? ==> r.value.Keys == e.Keys
  {
    var role := RoleOf(e["layer_type"]);
    if e["role"] == NOTHING then Some(e["role" := Word(role)])
    else if IsWord(e["role"], role) then Some(e)
    else None
  }

  // The validators of a model after its fields are read.
  function Finished(l: Library, name: string, fillsRole: bool, e: map<string, Value>): Option<Value>
    requires fillsRole ==> "layer_type" in e && "role" in e
  {
    var filled := if fillsRole then WithRole(e) else Some(e);
    if filled.None? || !l.accepts(name, filled.value) then None else Some(Dict(filled.value, false))
  }

  // A model from its fields, if all are read.
  function Assembled(l: Library, name: string, fillsRole: bool, parts: map<string, Option<Value>>): Option<Value>
    requires fillsRole ==> "layer_type" in parts && "role" in parts
  {
    if exists key :: key in parts && parts[key].None? then None
    else Finished(l, name, fillsRole, map key | key in parts :: parts[key].value)
  }

  predicate ModelFits(shape: Shape)
    requires shape.Model?
  {
    shape.fillsRole ==> "layer_type" in shape.fields && "role" in shape.fields
  }

  // The fields a model is read from.
  function Source(shape: Shape, v: Value): map<string, Value>
    requires shape.Model? && v.Dict?
  {
    if v.frozen then v.entries else Upgraded(shape.upgrade, v.entries)
  }

  // Reading a value and writing it out as plain data; None where it is refused.
  function Read(l: Library, shape: Shape, v: Value): Option<Value>
    decreases shape
  {
    match shape
    case Texts(stripped, least, most) =>
      if !v.Leaf? || !v.scalar.Text? || !Within(|v.scalar.text|, least, most) then None
      else Some(Leaf(if stripped then v.scalar.(text := Strip(l, v.scalar.text)) else v.scalar))
    case Words(words) =>
      if v.Leaf? && v.scalar.Text? && v.scalar.text in words then Some(v) else None
    case Exactly(number) => if v == Leaf(Int(number)) then Some(v) else None
    case Integers(lowest) =>
      if !v.Leaf? || l.asInt(v.scalar).None? || l.asInt(v.scalar).value < lowest then None
      else Some(Leaf(Int(l.asInt(v.scalar).value)))
    case Positives =>
      if !v.Leaf? || l.asFloat(v.scalar).None? || l.asFloat(v.scalar).value <= 0.0 then None
      else Some(Leaf(Float(l.asFloat(v.scalar).value)))
    case Flags =>
      if !v.Leaf? || l.asFlag(v.scalar).None? then None else Some(Leaf(Bool(l.asFlag(v.scalar).value)))
    case Optional(some) => if v == NOTHING then Some(v) else Read(l, some, v)
    case ListOf(item, least, most) =>
      if !v.Items? || !Within(|v.items|, least, most) then None
      else if exists i :: 0 <= i < |v.items| && Read(l, item, v.items[i]).None? then None
      else Some(Items(seq(|v.items|, i requires 0 <= i < |v.items| => Read(l, item, v.items[i]).value), false))
    case Tagged(tag, cases) =>
      if !v.Dict? || tag !in v.entries || !v.entries[tag].Leaf? || !v.entries[tag].scalar.Text? then None
      else if v.entries[tag].scalar.text !in cases then None
      else Read(l, cases[v.entries[tag].scalar.text], v)
    case Model(name, fields, upgrade, fillsRole) =>
      if !v.Dict? || !ModelFits(shape) then None
      else
        var e := Source(shape, v);
        if !(e.Keys <= fields.Keys) then None
        else Assembled(l, name, fillsRole, map key | key in fields :: ReadField(l, fields[key], e, key))
  }

  // A default is taken as it is.
  function ReadField(l: Library, field: Field, e: map<string, Value>, key: string): Option<Value>
    decreases field
  {
    if key in e then Read(l, field.shape, e[key]) else field.default
  }

  // ----- reading what was read -----

  // Reading it again gives it back, or it is refused.
  predicate Settles(l: Library, shape: Shape, v: Value) { Read(l, shape, v).None? || Read(l, shape, v) == Some(v) }

  predicate DefaultSettles(l: Library, field: Field) {
    field.default.Some? ==> IsPlain(field.default.value) && Settles(l, field.shape, field.default.value)
  }

  // What the upgrade of a model looks for is gone once its fields have been read.
  predicate UpgradeSettles(fields: map<string, Field>, upgrade: Upgrade) {
    match upgrade
    case NoUpgrade => true
    case RenameReference => "reference_id" !in fields
    case AddSequence => "vcd_step_sequence" in fields
    case UpgradeRecipe =>
      && "stack_reference_id" !in fields
      && "schema_version" in fields && fields["schema_version"].shape == Exactly(SCHEMA_VERSION)
      && fields["schema_version"].default == Some(Leaf(Int(SCHEMA_VERSION)))
      && "setup_mode" in fields && fields["setup_mode"].default.None?
      && fields["setup_mode"].shape.Words? && "reference" !in fields["setup_mode"].shape.words
  }

  predicate RoleSettles(fields: map<string, Field>) {
    && "layer_type" in fields && "role" in fields
    && fields["role"].shape.Optional? && fields["role"].shape.some.Words?
  }

  predicate TagSettles(tag: string, word: string, shape: Shape) {
    && shape.Model? && tag in shape.fields && shape.fields[tag].shape == Words([word])
    && shape.upgrade.NoUpgrade? && !shape.fillsRole
  }

  predicate Settled(l: Library, shape: Shape)
    decreases shape
  {
    match shape
    case Optional(some) => Settled(l, some)
    case ListOf(item, _, _) => Settled(l, item)
    case Tagged(tag, cases) =>
      forall word :: word in cases ==> TagSettles(tag, word, cases[word]) && Settled(l, cases[word])
    case Model(_, fields, upgrade, fillsRole) =>
      && UpgradeSettles(fields, upgrade) && (fillsRole ==> RoleSettles(fields) && !upgrade.UpgradeRecipe?)
      && (forall key :: key in fields ==> FieldSettled(l, fields[key]))
    case _ => true
  }

  predicate FieldsSettled(l: Library, fields: map<string, Field>) {
    forall key :: key in fields ==> FieldSettled(l, fields[key])
  }

  predicate FieldSettled(l: Library, field: Field)
    decreases field
  {
    Settled(l, field.shape) && DefaultSettles(l, field)
  }

  // The fields of a model as they are read, before its validators.
  function Parts(l: Library, shape: Shape, v: Value): map<string, Option<Value>>
    requires shape.Model? && v.Dict?
  {
    map key | key in shape.fields :: ReadField(l, shape.fields[key], Source(shape, v), key)
  }

  // A model that is read has all its fields, and nothing but the role is filled in after they are read.
  lemma ModelIsRead(l: Library, shape: Shape, v: Value)
    requires shape.Model? && Read(l, shape, v).Some?
    ensures v.Dict? && Read(l, shape, v) == Assembled(l, shape.name, shape.fillsRole, Parts(l, shape, v))
    ensures var out := Read(l, shape, v).value; out.Dict? && !out.frozen && out.entries.Keys == shape.fields.Keys
  {
  }

  lemma FieldIsRead(l: Library, shape: Shape, v: Value, key: string)
    requires shape.Model? && Read(l, shape, v).Some? && key in shape.fields
    ensures v.Dict? && Read(l, shape, v).value.Dict? && key in Read(l, shape, v).value.entries
    ensures var read := ReadField(l, shape.fields[key], Source(shape, v), key);
      && read.Some?
      && (read.value == Read(l, shape, v).value.entries[key]
          || (shape.fillsRole && key == "role" && read.value == NOTHING
              && Read(l, shape, v).value.entries[key].Leaf? && Read(l, shape, v).value.entries[key].scalar.Text?))
  {
    ModelIsRead(l, shape, v);
    assert Parts(l, shape, v)[key].Some?;
  }

  /** What is read is plain data, whatever kinds of dictionaries and sequences it is read from. */
  lemma {:induction false} ReadIsPlain(l: Library, shape: Shape, v: Value)
    requires Settled(l, shape) && Read(l, shape, v).Some?
    ensures IsPlain(Read(l, shape, v).value)
    decreases shape
  {
    match shape
    case Optional(some) =>
      if v != NOTHING {
        ReadIsPlain(l, some, v);
      }
    case ListOf(item, _, _) =>
      forall i | 0 <= i < |v.items| ensures IsPlain(Read(l, item, v.items[i]).value) {
        ReadIsPlain(l, item, v.items[i]);
      }
    case Tagged(tag, cases) => ReadIsPlain(l, cases[v.entries[tag].scalar.text], v);
    case Model(name, fields, upgrade, fillsRole) =>
      ModelIsRead(l, shape, v);
      var out := Read(l, shape, v).value;
      forall key | key in fields ensures IsPlain(out.entries[key]) {
        FieldIsRead(l, shape, v, key);
        if key in Source(shape, v) {
          ReadIsPlain(l, fields[key].shape, Source(shape, v)[key]);
        }
      }
    case _ =>
  }

  // The upgrade of a model finds nothing to do in what was read.
  lemma NothingToUpgrade(l: Library, shape: Shape, v: Value)
    requires shape.Model? && UpgradeSettles(shape.fields, shape.upgrade) && Read(l, shape, v).Some?
    requires shape.upgrade.UpgradeRecipe? ==> !shape.fillsRole
    ensures Upgraded(shape.upgrade, Read(l, shape, v).value.entries) == Read(l, shape, v).value.entries
  {
    ModelIsRead(l, shape, v);
    if shape.upgrade.UpgradeRecipe? {
      var out := Read(l, shape, v).value.entries;
      FieldIsRead(l, shape, v, "schema_version");
      FieldIsRead(l, shape, v, "setup_mode");
      assert out["schema_version"] == Leaf(Int(SCHEMA_VERSION));
      assert !IsWord(out["setup_mode"], "reference");
      assert out - {"stack_reference_id"} == out;
    }
  }

  // A role is filled in once.
  lemma RoleStays(e: map<string, Value>)
    requires "layer_type" in e && "role" in e && WithRole(e).Some?
    ensures WithRole(WithRole(e).value) == WithRole(e)
  {
  }

  lemma FinishedStays(l: Library, name: string, fillsRole: bool, e: map<string, Value>)
    requires fillsRole ==> "layer_type" in e && "role" in e
    requires Finished(l, name, fillsRole, e).Some?
    ensures var out := Finished(l, name, fillsRole, e).value;
      && out.Dict? && out.entries.Keys == e.Keys
      && Finished(l, name, fillsRole, out.entries) == Some(out)
  {
    if fillsRole {
      RoleStays(e);
    }
  }

  // A model settles when each of its fields is read again as it was, or refused.
  lemma AssembledSettles(l: Library, name: string, fillsRole: bool, read: map<string, Value>, out: Value,
                         again: map<string, Option<Value>>)
    requires fillsRole ==> "layer_type" in read && "role" in read
    requires Finished(l, name, fillsRole, read) == Some(out) && out.Dict?
    requires again.Keys == out.entries.Keys == read.Keys
    requires forall key :: key in again ==> again[key].None? || again[key] == Some(out.entries[key])
    ensures Assembled(l, name, fillsRole, again).None? || Assembled(l, name, fillsRole, again) == Some(out)
  {
    if !exists key :: key in again && again[key].None? {
      assert (map key | key in again :: again[key].value) == out.entries;
      FinishedStays(l, name, fillsRole, read);
    }
  }

  lemma ModelSettles(l: Library, shape: Shape, v: Value)
    requires shape.Model? && Read(l, shape, v).Some? && Read(l, shape, v).value.Dict?
    requires Upgraded(shape.upgrade, Read(l, shape, v).value.entries) == Read(l, shape, v).value.entries
    requires var out := Read(l, shape, v).value;
      forall key :: key in Parts(l, shape, out) ==>
        Parts(l, shape, out)[key].None? || Parts(l, shape, out)[key] == Some(out.entries[key])
    ensures Settles(l, shape, Read(l, shape, v).value)
  {
    var out, parts := Read(l, shape, v).value, Parts(l, shape, v);
    ModelIsRead(l, shape, v);
    AssembledSettles(l, shape.name, shape.fillsRole, map key | key in parts :: parts[key].value, out,
                     Parts(l, shape, out));
    if Read(l, shape, out).Some? {
      ModelIsRead(l, shape, out);
    }
  }

  // A role that was filled in is a word, and reading a word gives it back or refuses it.
  lemma FieldSettles(l: Library, field: Field, role: bool, read: Value, v: Value)
    requires Settles(l, field.shape, read)
    requires read == v || (role && v.Leaf? && v.scalar.Text?)
    requires role ==> field.shape.Optional? && field.shape.some.Words?
    ensures Settles(l, field.shape, v)
  {
  }

  lemma ModelFieldSettles(l: Library, shape: Shape, v: Value, key: string)
    requires shape.Model? && Read(l, shape, v).Some? && key in shape.fields
    requires shape.fillsRole ==> RoleSettles(shape.fields)
    requires FieldSettled(l, shape.fields[key])
    requires v.Dict? && (key in Source(shape, v) ==>
      var read := Read(l, shape.fields[key].shape, Source(shape, v)[key]);
      read.Some? && Settles(l, shape.fields[key].shape, read.value))
    ensures Read(l, shape, v).value.Dict? && key in Read(l, shape, v).value.entries
    ensures Settles(l, shape.fields[key].shape, Read(l, shape, v).value.entries[key])
  {
    FieldIsRead(l, shape, v, key);
    FieldSettles(l, shape.fields[key], shape.fillsRole && key == "role",
                 ReadField(l, shape.fields[key], Source(shape, v), key).value, Read(l, shape, v).value.entries[key]);
  }

  lemma FieldSource(l: Library, shape: Shape, v: Value, key: string)
    requires shape.Model? && Read(l, shape, v).Some? && key in shape.fields && v.Dict? && key in Source(shape, v)
    ensures Read(l, shape.fields[key].shape, Source(shape, v)[key]).Some?
  {
    FieldIsRead(l, shape, v, key);
  }

  lemma ListSettles(l: Library, shape: Shape, v: Value)
    requires shape.ListOf? && Read(l, shape, v).Some?
    requires forall i :: 0 <= i < |v.items| ==>
      Read(l, shape.item, v.items[i]).Some? && Settles(l, shape.item, Read(l, shape.item, v.items[i]).value)
    ensures Settles(l, shape, Read(l, shape, v).value)
  {
    var out := Read(l, shape, v).value;
    if Read(l, shape, out).Some? {
      assert Read(l, shape, out).value.items == out.items;
    }
  }

  lemma TaggedSettles(l: Library, shape: Shape, v: Value, word: string)
    requires shape.Tagged? && Read(l, shape, v).Some? && word == v.entries[shape.tag].scalar.text
    requires TagSettles(shape.tag, word, shape.cases[word])
    requires Settles(l, shape.cases[word], Read(l, shape.cases[word], v).value)
    ensures Settles(l, shape, Read(l, shape, v).value)
  {
    FieldIsRead(l, shape.cases[word], v, shape.tag);
  }

  lemma ScalarSettles(l: Library, shape: Shape, v: Value)
    requires l.Valid() && Read(l, shape, v).Some?
    requires !shape.Optional? && !shape.ListOf? && !shape.Tagged? && !shape.Model?
    ensures Settles(l, shape, Read(l, shape, v).value)
  {
    if shape.Texts? {
      StripTwice(l, v.scalar.text);
    }
  }

  /** What was read settles: reading it again gives it back, unless it is refused, as an unread default may be. */
  lemma {:induction false} ReadSettles(l: Library, shape: Shape, v: Value)
    requires l.Valid() && Settled(l, shape) && Read(l, shape, v).Some?
    ensures Settles(l, shape, Read(l, shape, v).value)
    decreases shape
  {
    match shape
    case Optional(some) =>
      if v != NOTHING {
        ReadSettles(l, some, v);
      }
    case ListOf(item, _, _) =>
      forall i | 0 <= i < |v.items|
        ensures Read(l, item, v.items[i]).Some? && Settles(l, item, Read(l, item, v.items[i]).value)
      {
        ReadSettles(l, item, v.items[i]);
      }
      ListSettles(l, shape, v);
    case Tagged(tag, cases) =>
      var word := v.entries[tag].scalar.text;
      ReadSettles(l, cases[word], v);
      TaggedSettles(l, shape, v, word);
    case Model(_, _, _, _) => EachFieldSettles(l, shape, v);
    case _ => ScalarSettles(l, shape, v);
  }

  lemma {:induction false} EachFieldSettles(l: Library, shape: Shape, v: Value)
    requires l.Valid() && Settled(l, shape) && shape.Model? && Read(l, shape, v).Some?
    ensures Settles(l, shape, Read(l, shape, v).value)
    decreases shape, 0
  {
    ModelIsRead(l, shape, v);
    NothingToUpgrade(l, shape, v);
    var out, e := Read(l, shape, v).value, Source(shape, v);
    forall key | key in shape.fields ensures Settles(l, shape.fields[key].shape, out.entries[key]) {
      if key in e {
        FieldSource(l, shape, v, key);
        ReadSettles(l, shape.fields[key].shape, e[key]);
      }
      ModelFieldSettles(l, shape, v, key);
    }
    ModelSettles(l, shape, v);
  }

  // ----- the models of a device recipe -----

  const TEXT := Texts(true, 0, None)
  const RAW_TEXT := Texts(false, 0, None)
  const MATERIAL := Texts(true, 1, Some(160))
  const MAX_SOLID_CHEMICALS := 20
  const MAX_SOLVENTS := 10

  function Required(shape: Shape): Field { Field(shape, None) }

  function Or(shape: Shape, default: Value): Field { Field(shape, Some(default)) }

  function OrNone(shape: Shape): Field { Field(Optional(shape), Some(NOTHING)) }

  function Record(name: string, fields: map<string, Field>): Shape { Model(name, fields, NoUpgrade, false) }

  function SolidIngredient(): Shape {
    Record("SolidIngredient", map["chemical" := Or(TEXT, BLANK), "weight_mg" := OrNone(Positives)])
  }

  function SolventIngredient(): Shape {
    Record("SolventIngredient", map["solvent" := Or(TEXT, BLANK), "volume_ml" := OrNone(Positives)])
  }

  function SolutionRecipe(): Shape { SolutionOf(SolidIngredient(), SolventIngredient()) }

  function SolutionOf(solid: Shape, solvent: Shape): Shape {
    Record("SolutionRecipe",
           map["formulation_type" := Or(Words(["weighed_solids", "diluted_dispersion"]), Word("weighed_solids")),
               "stock_dispersion" := Or(TEXT, BLANK),
               "stock_volume_ml" := OrNone(Positives),
               "solids" := Or(ListOf(solid, 0, Some(MAX_SOLID_CHEMICALS)), EMPTY),
               "solvents" := Or(ListOf(solvent, 0, Some(MAX_SOLVENTS)), EMPTY)])
  }

  function SpinStep(): Shape {
    Record("SpinStep", map["rpm" := OrNone(Integers(1)), "seconds" := OrNone(Integers(1)),
                           "acceleration_rpm_per_s" := OrNone(Integers(1))])
  }

  function AnnealStep(): Shape {
    Record("AnnealStep", map["temperature_c" := OrNone(Integers(1)), "seconds" := OrNone(Integers(1))])
  }

  function VcdStage(): Shape {
    Record("VcdStage", map["valve" := Or(TEXT, BLANK), "pressure_pa" := OrNone(Integers(0)),
                           "seconds" := OrNone(Integers(0))])
  }

  function GasBackfillStage(): Shape {
    Record("VcdGasBackfillStage", map["gas" := Or(TEXT, BLANK), "flow_sccm" := OrNone(Integers(1)),
                                      "target_pressure_pa" := OrNone(Integers(0)),
                                      "hold_seconds" := OrNone(Integers(0))])
  }

  function SpinCoating(): Shape { SpinCoatingOf(SpinStep(), AnnealStep()) }

  function SpinCoatingOf(spin: Shape, anneal: Shape): Shape {
    Record("SpinCoatingProcess", map["method" := Or(Words(["spin_coating"]), Word("spin_coating")),
                                     "spin_steps" := Or(ListOf(spin, 1, Some(3)), EMPTY),
                                     "anneal_steps" := Or(ListOf(anneal, 0, Some(2)), EMPTY)])
  }

  function Sputtering(): Shape {
    Record("SputteringProcess", map["method" := Or(Words(["sputtering"]), Word("sputtering")),
                                    "sputter_mode" := Or(Words(["rf", "dc", "pulsed_dc"]), Word("rf")),
                                    "power_w" := OrNone(Positives), "pressure_pa" := OrNone(Positives),
                                    "gas1" := Or(TEXT, BLANK), "gas1_flow_sccm" := OrNone(Positives),
                                    "gas2" := Or(TEXT, BLANK), "gas2_flow_sccm" := OrNone(Positives),
                                    "duration_seconds" := OrNone(Integers(1))])
  }

  function Evaporation(): Shape {
    Record("ThermalEvaporationProcess", map["method" := Or(Words(["thermal_evaporation"]), Word("thermal_evaporation")),
                                            "thickness_nm" := OrNone(Positives),
                                            "rate_angstrom_per_s" := OrNone(Positives)])
  }

  function Ald(): Shape {
    Record("AldProcess", map["method" := Or(Words(["ald"]), Word("ald")), "thickness_nm" := OrNone(Positives),
                             "substrate_temperature_c" := OrNone(Positives), "cycles" := OrNone(Integers(1))])
  }

  function LayerProcess(): Shape { ProcessOf(SpinCoating(), Sputtering(), Evaporation(), Ald()) }

  function ProcessOf(spin: Shape, sputter: Shape, evaporate: Shape, ald: Shape): Shape {
    Tagged("method", map["spin_coating" := spin, "sputtering" := sputter, "thermal_evaporation" := evaporate,
                         "ald" := ald])
  }

  function DepositionProcess(): Shape { DepositionOf(SpinStep(), VcdStage(), GasBackfillStage(), AnnealStep()) }

  function DepositionLists(spin: Shape, vcd: Shape, anneal: Shape): map<string, Field> {
    map["spin_steps" := Required(ListOf(spin, 1, Some(4))), "vcd_stages" := Required(ListOf(vcd, 1, Some(5))),
        "anneal_steps" := Required(ListOf(anneal, 1, Some(2)))]
  }

  function DepositionOptions(gas: Shape): map<string, Field> {
    map["method" := Or(Words(["spin_coating_vcd"]), Word("spin_coating_vcd")),
        "gas_backfill_stages" := Or(ListOf(gas, 0, Some(5)), EMPTY),
        "vcd_step_sequence" := Or(ListOf(RAW_TEXT, 0, Some(10)), EMPTY)]
  }

  function DepositionOf(spin: Shape, vcd: Shape, gas: Shape, anneal: Shape): Shape {
    Model("PerovskiteDepositionProcess", DepositionLists(spin, vcd, anneal) + DepositionOptions(gas), AddSequence, false)
  }

  function SubstrateRecipe(): Shape {
    Record("SubstrateRecipe", map["material" := Required(MATERIAL), "vendor" := Or(TEXT, BLANK),
                                  "type_number" := Or(TEXT, BLANK), "width_mm" := OrNone(Positives),
                                  "length_mm" := OrNone(Positives)])
  }

  const LAYER_TYPES := ["niox", "sam", "buried_interface", "sio2_np", "perovskite", "passivation", "peai", "edadi",
                        "pcbm", "c60", "bcp", "sno2", "ag"]
  const LAYER_ROLES := ["htl", "buried_interface_modifier", "perovskite", "top_passivation", "etl", "top_electrode"]

  function DeviceLayer(): Shape { LayerOf(SolutionRecipe(), LayerProcess()) }

  function LayerOf(solution: Shape, process: Shape): Shape {
    Model("DeviceLayer",
          map["layer_type" := Required(Words(LAYER_TYPES)), "role" := OrNone(Words(LAYER_ROLES)),
              "name" := Required(TEXT), "preset_id" := OrNone(RAW_TEXT), "solution" := OrNone(solution),
              "process" := OrNone(process)],
          RenameReference, true)
  }

  function GroupAdjustment(): Shape {
    Record("GroupAdjustment", map["parameter" := Or(TEXT, BLANK), "parameter_label" := Or(TEXT, BLANK),
                                  "control_value" := Or(TEXT, BLANK), "target_value" := Or(TEXT, BLANK)])
  }

  function ExperimentalGroup(): Shape { GroupOf(GroupAdjustment(), DeviceLayer(), DepositionProcess()) }

  function GroupTexts(): map<string, Field> {
    map["group_id" := Required(TEXT), "kind" := Required(Words(["control", "target", "standalone"])),
        "name" := Required(TEXT), "change_from_control" := Or(TEXT, BLANK)]
  }

  function GroupParts(adjustment: Shape, layer: Shape, process: Shape): map<string, Field> {
    map["inherits_control" := Or(Flags, Leaf(Bool(false))),
        "adjustments" := Or(ListOf(adjustment, 0, Some(20)), EMPTY), "layers" := OrNone(ListOf(layer, 0, None)),
        "deposition_process" := OrNone(process), "substrate_count" := OrNone(Integers(1))]
  }

  function GroupOf(adjustment: Shape, layer: Shape, process: Shape): Shape {
    Record("ExperimentalGroup", GroupTexts() + GroupParts(adjustment, layer, process))
  }

  function Recipe(): Shape { RecipeOf(ExperimentalGroup(), SubstrateRecipe(), DeviceLayer()) }

  function RecipeKind(): map<string, Field> {
    map["junction_type" := Or(Words(["single_junction", "tandem"]), Word("single_junction")),
        "perovskite_bandgap" := Or(Optional(Words(["wide_bandgap", "normal_bandgap", "narrow_bandgap"])),
                                   Word("normal_bandgap")),
        "tandem_type" := OrNone(Words(["all_perovskite", "perovskite_silicon", "perovskite_cigs"])),
        "architecture" := Or(Words(["pin", "nip"]), Word("pin"))]
  }

  // Groups that are left out are plain dictionaries, on which the recipe's own validator fails: they are required.
  function RecipeParts(group: Shape, substrate: Shape, layer: Shape): map<string, Field> {
    map["experimental_groups" := Required(ListOf(group, 0, None)), "substrate" := Required(substrate),
        "layers" := Required(ListOf(layer, 5, Some(20))), "setup_mode" := Required(Words(["baseline", "blank"])),
        "schema_version" := Or(Exactly(SCHEMA_VERSION), Leaf(Int(SCHEMA_VERSION)))]
  }

  function RecipeOf(group: Shape, substrate: Shape, layer: Shape): Shape {
    Model("DeviceRecipe", RecipeKind() + RecipeParts(group, substrate, layer), UpgradeRecipe, false)
  }

  // ----- the models settle -----

  lemma RequiredSettles(l: Library, shape: Shape)
    requires Settled(l, shape)
    ensures FieldSettled(l, Required(shape))
  {
  }

  lemma NoneSettles(l: Library, shape: Shape)
    requires Settled(l, shape)
    ensures FieldSettled(l, OrNone(shape))
  {
  }

  lemma EmptySettles(l: Library, item: Shape, least: nat, most: Option<nat>)
    requires Settled(l, item)
    ensures FieldSettled(l, Or(ListOf(item, least, most), EMPTY))
  {
    var shape := ListOf(item, least, most);
    if Read(l, shape, EMPTY).Some? {
      assert Read(l, shape, EMPTY).value.items == [];
    }
  }

  lemma WordSettles(l: Library, words: seq<string>, word: string)
    ensures FieldSettled(l, Or(Words(words), Word(word)))
  {
  }

  lemma BlankSettles(l: Library)
    ensures FieldSettled(l, Or(TEXT, BLANK))
  {
  }

  lemma SubstrateSettles(l: Library)
    ensures Settled(l, SubstrateRecipe())
  {
    BlankSettles(l);
    NoneSettles(l, Positives);
    RequiredSettles(l, MATERIAL);
  }

  lemma StepsSettle(l: Library)
    ensures Settled(l, SpinStep()) && Settled(l, AnnealStep())
  {
    NoneSettles(l, Integers(1));
  }

  lemma VcdStageSettles(l: Library)
    ensures Settled(l, VcdStage())
  {
    BlankSettles(l);
    NoneSettles(l, Integers(0));
  }

  lemma GasStageSettles(l: Library)
    ensures Settled(l, GasBackfillStage())
  {
    BlankSettles(l);
    NoneSettles(l, Integers(0));
    NoneSettles(l, Integers(1));
  }

  lemma SolidSettles(l: Library)
    ensures Settled(l, SolidIngredient()) && Settled(l, SolventIngredient())
  {
    BlankSettles(l);
    NoneSettles(l, Positives);
  }

  lemma SolutionSettles(l: Library, solid: Shape, solvent: Shape)
    requires Settled(l, solid) && Settled(l, solvent)
    ensures Settled(l, SolutionOf(solid, solvent))
  {
    BlankSettles(l);
    NoneSettles(l, Positives);
    WordSettles(l, ["weighed_solids", "diluted_dispersion"], "weighed_solids");
    EmptySettles(l, solid, 0, Some(MAX_SOLID_CHEMICALS));
    EmptySettles(l, solvent, 0, Some(MAX_SOLVENTS));
  }

  lemma SpinCoatingSettles(l: Library, spin: Shape, anneal: Shape)
    requires Settled(l, spin) && Settled(l, anneal)
    ensures Settled(l, SpinCoatingOf(spin, anneal))
  {
    WordSettles(l, ["spin_coating"], "spin_coating");
    EmptySettles(l, spin, 1, Some(3));
    EmptySettles(l, anneal, 0, Some(2));
  }

  lemma SputteringSettles(l: Library)
    ensures Settled(l, Sputtering())
  {
    BlankSettles(l);
    NoneSettles(l, Positives);
    NoneSettles(l, Integers(1));
    WordSettles(l, ["sputtering"], "sputtering");
    WordSettles(l, ["rf", "dc", "pulsed_dc"], "rf");
  }

  lemma EvaporationSettles(l: Library)
    ensures Settled(l, Evaporation())
  {
    NoneSettles(l, Positives);
    WordSettles(l, ["thermal_evaporation"], "thermal_evaporation");
  }

  lemma AldSettles(l: Library)
    ensures Settled(l, Ald())
  {
    NoneSettles(l, Positives);
    NoneSettles(l, Integers(1));
    WordSettles(l, ["ald"], "ald");
  }

  lemma TagsSettle()
    ensures TagSettles("method", "spin_coating", SpinCoating()) && TagSettles("method", "sputtering", Sputtering())
    ensures TagSettles("method", "thermal_evaporation", Evaporation()) && TagSettles("method", "ald", Ald())
  {
  }

  lemma ProcessSettles(l: Library, spin: Shape, sputter: Shape, evaporate: Shape, ald: Shape)
    requires Settled(l, spin) && Settled(l, sputter) && Settled(l, evaporate) && Settled(l, ald)
    requires TagSettles("method", "spin_coating", spin) && TagSettles("method", "sputtering", sputter)
    requires TagSettles("method", "thermal_evaporation", evaporate) && TagSettles("method", "ald", ald)
    ensures Settled(l, ProcessOf(spin, sputter, evaporate, ald))
  {
  }

  lemma DepositionListsSettle(l: Library, spin: Shape, vcd: Shape, anneal: Shape)
    requires Settled(l, spin) && Settled(l, vcd) && Settled(l, anneal)
    ensures FieldsSettled(l, DepositionLists(spin, vcd, anneal))
  {
    RequiredSettles(l, ListOf(spin, 1, Some(4)));
    RequiredSettles(l, ListOf(vcd, 1, Some(5)));
    RequiredSettles(l, ListOf(anneal, 1, Some(2)));
  }

  lemma DepositionOptionsSettle(l: Library, gas: Shape)
    requires Settled(l, gas)
    ensures FieldsSettled(l, DepositionOptions(gas))
  {
    WordSettles(l, ["spin_coating_vcd"], "spin_coating_vcd");
    EmptySettles(l, gas, 0, Some(5));
    EmptySettles(l, RAW_TEXT, 0, Some(10));
  }

  lemma DepositionSettles(l: Library, spin: Shape, vcd: Shape, gas: Shape, anneal: Shape)
    requires Settled(l, spin) && Settled(l, vcd) && Settled(l, gas) && Settled(l, anneal)
    ensures Settled(l, DepositionOf(spin, vcd, gas, anneal))
  {
    var fields := DepositionLists(spin, vcd, anneal) + DepositionOptions(gas);
    DepositionListsSettle(l, spin, vcd, anneal);
    DepositionOptionsSettle(l, gas);
    BothSettle(l, DepositionLists(spin, vcd, anneal), DepositionOptions(gas));
    ModelOfSettled(l, "PerovskiteDepositionProcess", fields, AddSequence);
  }

  lemma LayerOfSettles(l: Library, solution: Shape, process: Shape)
    requires Settled(l, solution) && Settled(l, process)
    ensures Settled(l, LayerOf(solution, process))
  {
    RequiredSettles(l, Words(LAYER_TYPES));
    RequiredSettles(l, TEXT);
    NoneSettles(l, Words(LAYER_ROLES));
    NoneSettles(l, RAW_TEXT);
    NoneSettles(l, solution);
    NoneSettles(l, process);
  }

  lemma AdjustmentSettles(l: Library)
    ensures Settled(l, GroupAdjustment())
  {
    BlankSettles(l);
  }

  lemma BothSettle(l: Library, some: map<string, Field>, others: map<string, Field>)
    requires FieldsSettled(l, some) && FieldsSettled(l, others)
    ensures FieldsSettled(l, some + others)
  {
  }

  lemma GroupTextsSettle(l: Library)
    ensures FieldsSettled(l, GroupTexts())
  {
    BlankSettles(l);
    RequiredSettles(l, TEXT);
    RequiredSettles(l, Words(["control", "target", "standalone"]));
  }

  lemma GroupPartsSettle(l: Library, adjustment: Shape, layer: Shape, process: Shape)
    requires l.Valid() && Settled(l, adjustment) && Settled(l, layer) && Settled(l, process)
    ensures FieldsSettled(l, GroupParts(adjustment, layer, process))
  {
    EmptySettles(l, adjustment, 0, Some(20));
    NoneSettles(l, ListOf(layer, 0, None));
    NoneSettles(l, process);
    NoneSettles(l, Integers(1));
  }

  lemma GroupSettles(l: Library, adjustment: Shape, layer: Shape, process: Shape)
    requires l.Valid() && Settled(l, adjustment) && Settled(l, layer) && Settled(l, process)
    ensures Settled(l, GroupOf(adjustment, layer, process))
  {
    GroupTextsSettle(l);
    GroupPartsSettle(l, adjustment, layer, process);
    BothSettle(l, GroupTexts(), GroupParts(adjustment, layer, process));
  }

  lemma RecipeKindSettles(l: Library)
    ensures FieldsSettled(l, RecipeKind())
  {
    WordSettles(l, ["single_junction", "tandem"], "single_junction");
    WordSettles(l, ["pin", "nip"], "pin");
    NoneSettles(l, Words(["all_perovskite", "perovskite_silicon", "perovskite_cigs"]));
  }

  lemma RecipePartsSettle(l: Library, group: Shape, substrate: Shape, layer: Shape)
    requires Settled(l, group) && Settled(l, substrate) && Settled(l, layer)
    ensures FieldsSettled(l, RecipeParts(group, substrate, layer))
  {
    RequiredSettles(l, Words(["baseline", "blank"]));
    RequiredSettles(l, ListOf(group, 0, None));
    RequiredSettles(l, substrate);
    RequiredSettles(l, ListOf(layer, 5, Some(20)));
  }

  lemma RecipeUpgradeSettles(fields: map<string, Field>, group: Shape, substrate: Shape, layer: Shape)
    requires fields == RecipeKind() + RecipeParts(group, substrate, layer)
    ensures UpgradeSettles(fields, UpgradeRecipe)
  {
    assert "stack_reference_id" !in RecipeKind();
    assert "stack_reference_id" !in RecipeParts(group, substrate, layer);
  }

  lemma ModelOfSettled(l: Library, name: string, fields: map<string, Field>, upgrade: Upgrade)
    requires UpgradeSettles(fields, upgrade) && FieldsSettled(l, fields)
    ensures Settled(l, Model(name, fields, upgrade, false))
  {
  }

  lemma RecipeOfSettles(l: Library, group: Shape, substrate: Shape, layer: Shape)
    requires Settled(l, group) && Settled(l, substrate) && Settled(l, layer)
    ensures Settled(l, RecipeOf(group, substrate, layer))
  {
    var fields := RecipeKind() + RecipeParts(group, substrate, layer);
    RecipeKindSettles(l);
    RecipePartsSettle(l, group, substrate, layer);
    BothSettle(l, RecipeKind(), RecipeParts(group, substrate, layer));
    RecipeUpgradeSettles(fields, group, substrate, layer);
    ModelOfSettled(l, "DeviceRecipe", fields, UpgradeRecipe);
  }

  lemma SolutionRecipeSettles(l: Library)
    ensures Settled(l, SolutionRecipe())
  {
    SolidSettles(l);
    SolutionSettles(l, SolidIngredient(), SolventIngredient());
  }

  lemma LayerProcessSettles(l: Library)
    ensures Settled(l, LayerProcess())
  {
    StepsSettle(l);
    SpinCoatingSettles(l, SpinStep(), AnnealStep());
    SputteringSettles(l);
    EvaporationSettles(l);
    AldSettles(l);
    TagsSettle();
    ProcessSettles(l, SpinCoating(), Sputtering(), Evaporation(), Ald());
  }

  lemma LayerSettles(l: Library)
    ensures Settled(l, DeviceLayer())
  {
    SolutionRecipeSettles(l);
    LayerProcessSettles(l);
    LayerOfSettles(l, SolutionRecipe(), LayerProcess());
  }

  lemma RecipeSettles(l: Library)
    requires l.Valid()
    ensures Settled(l, Recipe())
  {
    LayerSettles(l);
    StepsSettle(l);
    VcdStageSettles(l);
    GasStageSettles(l);
    DepositionSettles(l, SpinStep(), VcdStage(), GasBackfillStage(), AnnealStep());
    AdjustmentSettles(l);
    GroupSettles(l, GroupAdjustment(), DeviceLayer(), DepositionProcess());
    SubstrateSettles(l);
    RecipeOfSettles(l, ExperimentalGroup(), SubstrateRecipe(), DeviceLayer());
  }

  // ----- validate_device_recipe -----

  // The data as a shape reads it, if it can be read again and that is complete.
  function ValidateAs(l: Library, shape: Shape, v: Value): Option<Value> {
    var normalized := Read(l, shape, v);
    if normalized.None? then None
    else
      var recipe := Read(l, shape, normalized.value);
      if recipe.None? || !l.complete(recipe.value) then None else normalized
  }

  lemma ValidatedAs(l: Library, shape: Shape, v: Value)
    requires l.Valid() && Settled(l, shape) && ValidateAs(l, shape, v).Some?
    ensures IsPlain(ValidateAs(l, shape, v).value)
    ensures ValidateAs(l, shape, ValidateAs(l, shape, v).value) == ValidateAs(l, shape, v)
  {
    ReadIsPlain(l, shape, v);
    ReadSettles(l, shape, v);
  }

  // validate_device_recipe
  function Validate(l: Library, v: Value): Option<Value> { ValidateAs(l, Recipe(), v) }

  /** What was validated is plain data that validates, unchanged, however often it is validated again. */
  lemma ValidatedOnce(l: Library, v: Value)
    requires l.Valid() && Validate(l, v).Some?
    ensures IsPlain(Validate(l, v).value)
    ensures Validate(l, Validate(l, v).value) == Validate(l, v)
  {
    RecipeSettles(l);
    ValidatedAs(l, Recipe(), v);
  }

  lemma UpgradedTwice(upgrade: Upgrade, e: map<string, Value>)
    ensures Upgraded(upgrade, Upgraded(upgrade, e)) == Upgraded(upgrade, e)
  {
    if upgrade.UpgradeRecipe? {
      var r := Upgraded(upgrade, e);
      assert r["schema_version"] == Leaf(Int(SCHEMA_VERSION)) || !IsFirstVersion(r["schema_version"]);
      assert r - {"stack_reference_id"} == r;
    }
  }

  /** Older data reads as its upgraded form does. */
  lemma OlderDataReadsAlike(l: Library, shape: Shape, e: map<string, Value>)
    requires shape.Model?
    ensures Read(l, shape, Dict(Upgraded(shape.upgrade, e), false)) == Read(l, shape, Dict(e, false))
  {
    UpgradedTwice(shape.upgrade, e);
    assert Source(shape, Dict(Upgraded(shape.upgrade, e), false)) == Source(shape, Dict(e, false));
  }

  // ----- what reading does to texts, roles and older keys -----

  predicate AllSpace(l: Library, text: string) { forall c :: c in text ==> l.isSpace(c) }

  lemma {:induction false} LeftStripped(l: Library, text: string) returns (before: string)
    ensures text == before + StripLeft(l, text) && AllSpace(l, before)
  {
    if text != [] && l.isSpace(text[0]) {
      before := LeftStripped(l, text[1..]);
      before := [text[0]] + before;
    } else {
      before := [];
    }
  }

  lemma {:induction false} RightStripped(l: Library, text: string) returns (after: string)
    ensures text == StripRight(l, text) + after && AllSpace(l, after)
  {
    if text != [] && l.isSpace(text[|text| - 1]) {
      after := RightStripped(l, text[..|text| - 1]);
      after := after + [text[|text| - 1]];
    } else {
      after := [];
    }
  }

  /** Stripping takes away white space at both ends, all of it and nothing else. */
  lemma StripIs(l: Library, text: string) returns (before: string, after: string)
    ensures text == before + Strip(l, text) + after && AllSpace(l, before) && AllSpace(l, after)
    ensures var r := Strip(l, text); r != [] ==> !l.isSpace(r[0]) && !l.isSpace(r[|r| - 1])
  {
    before := LeftStripped(l, text);
    after := RightStripped(l, StripLeft(l, text));
    var r := Strip(l, text);
    if r != [] {
      assert r[0] == StripLeft(l, text)[0];
    }
  }

  /** A device recipe in an older form is read as one in the current form: under the current schema version, its setup a
      baseline where it was a reference, and without the reference of its stack. */
  lemma OlderRecipeIs(e: map<string, Value>)
    ensures var r := Upgraded(UpgradeRecipe, e);
      var older := "schema_version" !in e || e["schema_version"] == NOTHING
                   || (e["schema_version"].Leaf? && Number(e["schema_version"].scalar) == Some(1.0));
      && r.Keys == e.Keys - {"stack_reference_id"} + {"schema_version"}
      && r["schema_version"] == (if older then Leaf(Int(2)) else e["schema_version"])
      && ("setup_mode" in e ==>
            r["setup_mode"] == if IsWord(e["setup_mode"], "reference") then Word("baseline") else e["setup_mode"])
      && forall key :: key in e && key !in {"stack_reference_id", "schema_version", "setup_mode"} ==> r[key] == e[key]
  {
  }

  /** A layer's old reference becomes its preset, and a process without a sequence runs its stages in the order listed,
      evacuation first. */
  lemma OlderKeysAre(e: map<string, Value>)
    ensures var r := Upgraded(RenameReference, e);
      if "reference_id" in e && "preset_id" !in e
      then r.Keys == e.Keys - {"reference_id"} + {"preset_id"} && r["preset_id"] == e["reference_id"]
           && forall key :: key in e && key != "reference_id" ==> r[key] == e[key]
      else r == e
    ensures var r, n := Upgraded(AddSequence, e), Length(e, "vcd_stages");
      if "vcd_step_sequence" in e then r == e
      else
        && r.Keys == e.Keys + {"vcd_step_sequence"} && (forall key :: key in e ==> r[key] == e[key])
        && r["vcd_step_sequence"].Items?
        && |r["vcd_step_sequence"].items| == n + Length(e, "gas_backfill_stages")
        && (forall i :: 0 <= i < n ==> r["vcd_step_sequence"].items[i] == Word("vcd_stage" + Decimal(i + 1)))
        && (forall i :: n <= i < |r["vcd_step_sequence"].items| ==>
              r["vcd_step_sequence"].items[i] == Word("gas_backfill_stage" + Decimal(i - n + 1)))
  {
  }

  // The role that belongs to a layer type.
  predicate Belongs(layerType: string, role: string) {
    || (role == "htl" && layerType in ["niox", "sam"])
    || (role == "buried_interface_modifier" && layerType in ["buried_interface", "sio2_np"])
    || (role == "perovskite" && layerType == "perovskite")
    || (role == "top_passivation" && layerType in ["passivation", "peai", "edadi"])
    || (role == "etl" && layerType in ["pcbm", "c60", "bcp", "sno2"])
    || (role == "top_electrode" && layerType == "ag")
  }

  lemma RoleBelongs(v: Value)
    requires v.Leaf? && v.scalar.Text? && v.scalar.text in LAYER_TYPES
    ensures Belongs(v.scalar.text, RoleOf(v))
  {
  }

  /** Every layer that is read has the role that belongs to its type, given or filled in. */
  lemma LayersHaveRoles(e: map<string, Value>)
    requires "layer_type" in e && "role" in e && WithRole(e).Some?
    requires e["layer_type"].Leaf? && e["layer_type"].scalar.Text? && e["layer_type"].scalar.text in LAYER_TYPES
    ensures var role := WithRole(e).value["role"];
      role.Leaf? && role.scalar.Text? && Belongs(e["layer_type"].scalar.text, role.scalar.text)
    ensures e["role"] != NOTHING ==> WithRole(e).value == e
  {
    RoleBelongs(e["layer_type"]);
  }
}
