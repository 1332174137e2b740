// The whole of a deposition recipe as it is stored and read back (src/perovskite_bo/recipe.py): its numbered fields,
// its device stack, and the nested context it keeps frozen, a legacy fabrication context or a device recipe.
module StoredRecipe {
  import opened FrozenValues
  import opened Wrappers
  import D = DeviceRecipe
  import R = Recipe

  datatype Stored = Stored(fields: R.Fields, contexts: Contexts)

  // What the contexts are checked against: the fabrication baselines by id, the supported schema version,
  // validate_fabrication_context as the contexts it accepts, and what the validator of device recipes relies on.
  datatype Catalog = Catalog(baselines: map<string, map<string, Value>>, schema: Value,
                             accepts: map<string, Value> -> bool, library: D.Library)
  {
    // An accepted context names a baseline and holds scalars only, and every baseline has the supported schema version.
    ghost predicate Valid() {
      && library.Valid()
      && (forall e: map<string, Value> :: accepts(e) ==>
            && "baseline_id" in e && IsBaselineId(e["baseline_id"]) && forall key :: key in e ==> e[key].Leaf?)
      && (forall id :: id in baselines ==>
            "schema_version" in baselines[id] && baselines[id]["schema_version"] == schema)
    }

    predicate IsBaselineId(v: Value) { v.Leaf? && v.scalar.Text? && v.scalar.text in baselines }
  }

  // resolve_fabrication_context: a baseline with the values supplied on top.
  function Resolve(c: Catalog, values: map<string, Value>): Option<map<string, Value>>
    requires c.Valid() && c.accepts(values)
  {
    if "schema_version" in values && values["schema_version"] != c.schema then None
    else Some(c.baselines[values["baseline_id"].scalar.text] + values)
  }

  function CheckContext(c: Catalog, context: Option<Value>): Result<Option<Value>, R.Rejected>
    requires c.Valid()
  {
    if context.None? then Ok(None)
    else if !context.value.Dict? || !c.accepts(context.value.entries) then Err(R.Rejected)
    else
      var resolved := Resolve(c, context.value.entries);
      if resolved.None? || !c.accepts(resolved.value) then Err(R.Rejected)
      else Ok(Some(Freeze(Dict(resolved.value, false))))
  }

  function CheckDevice(c: Catalog, device: Option<Value>): Result<Option<Value>, R.Rejected> {
    if device.None? then Ok(None)
    else if D.Validate(c.library, device.value).None? then Err(R.Rejected)
    else Ok(Some(Freeze(D.Validate(c.library, device.value).value)))
  }

  const SNO2_STACKS := ["FTO/4PADCB/PVK/PEAI/PCBM/C60/SnO2/Ag", "FTO/NiOx/4PADCB/PVK/PEAI/PCBM/C60/SnO2/Ag",
                        "FTO/NiOx/Me-4PACz/PVK/PEAI/PCBM/C60/SnO2/Ag", "ITO/NiOx/4PADCB/SiO2/PVK/PEAI/PCBM/C60/SnO2/Ag",
                        "ITO/NiOx/Me-4PACz/SiO2/PVK/PEAI/PCBM/C60/SnO2/Ag"]
  const BCP_STACKS := ["FTO/4PADCB/PVK/PEAI/PCBM/C60/BCP/Ag", "FTO/NiOx/4PADCB/PVK/PEAI/PCBM/C60/BCP/Ag",
                       "FTO/NiOx/Me-4PACz/PVK/PEAI/PCBM/C60/BCP/Ag", "ITO/NiOx/4PADCB/SiO2/PVK/PEAI/PCBM/C60/BCP/Ag",
                       "ITO/NiOx/Me-4PACz/SiO2/PVK/PEAI/PCBM/C60/BCP/Ag"]

  predicate Selects(context: Option<Value>, selection: string) {
    && context.Some? && context.value.Dict? && "electron_transport_selection" in context.value.entries
    && D.IsWord(context.value.entries["electron_transport_selection"], selection)
  }

  // The device stack is a known one, and does not contradict the context.
  predicate StackFits(stack: Option<Value>, context: Option<Value>) {
    stack.Some? ==>
      && stack.value.Leaf? && stack.value.scalar.Text?
      && (stack.value.scalar.text in SNO2_STACKS || stack.value.scalar.text in BCP_STACKS)
      && !(Selects(context, "sno2_ald") && stack.value.scalar.text in BCP_STACKS)
      && !(Selects(context, "bcp_evaporation") && stack.value.scalar.text in SNO2_STACKS)
  }

  datatype Contexts = Contexts(context: Option<Value>, device: Option<Value>, stack: Option<Value>)

  // _validate_context: at most one of the two contexts, frozen, and the device stack as it is.
  function CheckContexts(c: Catalog, all: Contexts): Result<Contexts, R.Rejected>
    requires c.Valid()
  {
    var context, device := CheckContext(c, all.context), CheckDevice(c, all.device);
    if all.context.Some? && all.device.Some? then Err(R.Rejected)
    else if context.Err? || device.Err? || !StackFits(all.stack, context.value) then Err(R.Rejected)
    else Ok(Contexts(context.value, device.value, all.stack))
  }

  // A recipe from its two parts, if both are accepted.
  function Join(fields: Result<R.Fields, R.Rejected>, contexts: Result<Contexts, R.Rejected>)
    : Result<Stored, R.Rejected>
  {
    if fields.Ok? && contexts.Ok? then Ok(Stored(fields.value, contexts.value)) else Err(R.Rejected)
  }

  // DepositionRecipe(...)
  function Construct(c: Catalog, s: Stored): Result<Stored, R.Rejected>
    requires c.Valid() && R.HasShape(s.fields)
  {
    Join(R.Construct(s.fields), CheckContexts(c, s.contexts))
  }

  function ThawOption(v: Option<Value>): Option<Value> { if v.Some? then Some(Thaw(v.value)) else None }

  function ThawAll(c: Contexts): Contexts { Contexts(ThawOption(c.context), ThawOption(c.device), c.stack) }

  // to_dict
  function ToDict(s: Stored): (d: Stored)
    ensures R.HasShape(s.fields) ==> R.HasShape(d.fields)
  {
    Stored(R.ToDict(s.fields), ThawAll(s.contexts))
  }

  // from_mapping
  function FromMapping(c: Catalog, d: Stored): Result<Stored, R.Rejected>
    requires c.Valid() && R.HasShape(d.fields)
  {
    Join(R.FromMapping(d.fields), CheckContexts(c, d.contexts))
  }

  predicate SameOption(a: Option<Value>, b: Option<Value>) {
    if a.Some? && b.Some? then Same(a.value, b.value) else a == b
  }

  // What the dataclass compares.
  predicate SameStored(a: Stored, b: Stored) {
    && R.SameRecipe(a.fields, b.fields) && SameOption(a.contexts.context, b.contexts.context)
    && SameOption(a.contexts.device, b.contexts.device) && SameOption(a.contexts.stack, b.contexts.stack)
  }

  lemma ScalarsThaw(e: map<string, Value>)
    requires forall key :: key in e ==> e[key].Leaf?
    ensures Thaw(Freeze(Dict(e, false))) == Dict(e, false)
  {
    forall key | key in e ensures Freeze(e[key]) == e[key] && Thaw(e[key]) == e[key] {
      assert e[key].Leaf?;
    }
    assert Freeze(Dict(e, false)).entries == e;
    assert Thaw(Dict(e, true)).entries == e;
  }

  lemma OverlayTwice(baseline: map<string, Value>, values: map<string, Value>)
    ensures baseline + (baseline + values) == baseline + values
  {
  }

  /** A resolved fabrication context resolves to itself: the baseline it is based on adds nothing more. */
  lemma ContextReadsBack(c: Catalog, context: Option<Value>)
    requires c.Valid() && CheckContext(c, context).Ok?
    ensures CheckContext(c, ThawOption(CheckContext(c, context).value)) == CheckContext(c, context)
  {
    if context.Some? {
      var values := context.value.entries;
      var baseline := c.baselines[values["baseline_id"].scalar.text];
      ScalarsThaw(baseline + values);
      OverlayTwice(baseline, values);
    }
  }

  lemma {:induction false} PlainThaws(v: Value)
    requires IsPlain(v)
    ensures Thaw(Freeze(v)) == v
  {
    match v
    case Leaf(_) =>
    case Dict(entries, _) =>
      forall key | key in entries ensures Thaw(Freeze(entries[key])) == entries[key] {
        PlainThaws(entries[key]);
      }
    case Items(items, _) =>
      forall i | 0 <= i < |items| ensures Thaw(Freeze(items[i])) == items[i] {
        PlainThaws(items[i]);
      }
  }

  /** A device recipe that was validated and frozen is, thawed, one that validates unchanged. */
  lemma DeviceReadsBack(c: Catalog, device: Option<Value>)
    requires c.Valid() && CheckDevice(c, device).Ok?
    ensures CheckDevice(c, ThawOption(CheckDevice(c, device).value)) == CheckDevice(c, device)
  {
    if device.Some? {
      D.ValidatedOnce(c.library, device.value);
      PlainThaws(D.Validate(c.library, device.value).value);
    }
  }

  lemma ContextsReadBack(c: Catalog, all: Contexts)
    requires c.Valid() && CheckContexts(c, all).Ok?
    ensures CheckContexts(c, ThawAll(CheckContexts(c, all).value)) == CheckContexts(c, all)
  {
    ContextReadsBack(c, all.context);
    DeviceReadsBack(c, all.device);
  }

  /** Reading back what a recipe serialises to always succeeds, and gives that recipe with its stack and contexts
      unchanged and its step sequence as a tuple. */
  lemma ReadsBack(c: Catalog, s: Stored)
    requires c.Valid() && R.HasShape(s.fields) && Construct(c, s).Ok?
    ensures var r := Construct(c, s).value;
      && FromMapping(c, ToDict(r)).Ok? && FromMapping(c, ToDict(r)).value.contexts == r.contexts
      && SameStored(FromMapping(c, ToDict(r)).value,
                    r.(fields := r.fields.(sequence := R.AsTuple(r.fields.sequence.refs))))
  {
    R.ReadsBack(s.fields);
    ContextsReadBack(c, s.contexts);
  }

  /** from_mapping(r.to_dict()) == r holds for exactly the recipes that were not given their step sequence as a list. */
  lemma RoundTrip(c: Catalog, s: Stored)
    requires c.Valid() && R.HasShape(s.fields) && Construct(c, s).Ok?
    ensures var r := Construct(c, s).value;
      && FromMapping(c, ToDict(r)).Ok?
      && (SameStored(FromMapping(c, ToDict(r)).value, r) <==> !s.fields.sequence.AsList?)
  {
    ReadsBack(c, s);
    R.RoundTrip(s.fields);
  }

  /** A resolved context holds the baseline's values, and over them those supplied; nothing else. */
  lemma ResolvedIs(c: Catalog, values: map<string, Value>)
    requires c.Valid() && c.accepts(values) && Resolve(c, values).Some?
    ensures var baseline, resolved := c.baselines[values["baseline_id"].scalar.text], Resolve(c, values).value;
      && resolved.Keys == baseline.Keys + values.Keys
      && (forall key :: key in values ==> resolved[key] == values[key])
      && (forall key :: key in baseline && key !in values ==> resolved[key] == baseline[key])
  {
  }
}
