// The scan that represents a device in one direction.  Four places choose it: the device record and the upgrade of
// stored analyses (src/web/jv_parser.py), the tables (frontend/src/lib/deviceMetrics.ts), the figures
// (src/web/publication_plots.py).
module Representatives {
  import opened Wrappers

  datatype Direction = Forward | Reverse | OtherDirection

  // The record of a scan; a reading is None when it is missing or no number.
  datatype Metrics = Metrics(voc: Option<real>, jsc: Option<real>, ff: Option<real>, pce: Option<real>)

  datatype Trace = Trace(valid: bool, direction: Direction, metrics: Option<Metrics>, points: seq<(real, real)>)

  // What _trace_record makes: a scan is valid when it has metrics.  A stored trace may be valid without any.
  predicate FreshTrace(t: Trace) { t.valid <==> t.metrics.Some? }

  predicate AllFresh(traces: seq<Trace>) { forall i :: 0 <= i < |traces| ==> FreshTrace(traces[i]) }

  function Pce(t: Trace): Option<real> { if t.metrics.Some? then t.metrics.value.pce else None }

  // The scans each of the places chooses from: those with metrics, those with a PCE, those with points to draw.
  datatype Rule = Recorded(direction: Direction) | Tabulated(direction: Direction) | Drawn(direction: Direction)

  predicate Eligible(t: Trace, rule: Rule) {
    && t.valid && t.direction == rule.direction
    && match rule
       case Recorded(_) => t.metrics.Some?
       case Tabulated(_) => Pce(t).Some?
       case Drawn(_) => t.points != []
  }

  // _has_higher_pce
  predicate HasHigherPce(candidate: Option<real>, current: Option<real>) {
    candidate.Some? && (current.None? || candidate.value > current.value)
  }

  // Scan k represents the direction: no eligible scan has a higher PCE, and no earlier one has as high a PCE or,
  // failing any PCE, exists at all.
  ghost predicate IsRepresentative(traces: seq<Trace>, rule: Rule, k: nat) {
    && k < |traces| && Eligible(traces[k], rule)
    && (forall i :: 0 <= i < |traces| && Eligible(traces[i], rule) ==> !HasHigherPce(Pce(traces[i]), Pce(traces[k])))
    && (forall i :: 0 <= i < k && Eligible(traces[i], rule) ==> HasHigherPce(Pce(traces[k]), Pce(traces[i])))
  }

  // The outcome of a choice: a representative, or no scan to choose from.
  ghost predicate Represents(traces: seq<Trace>, rule: Rule, choice: Option<nat>) {
    if choice.Some? then IsRepresentative(traces, rule, choice.value)
    else forall i :: 0 <= i < |traces| ==> !Eligible(traces[i], rule)
  }

  lemma OnlyOneRepresents(traces: seq<Trace>, rule: Rule, a: Option<nat>, b: Option<nat>)
    requires Represents(traces, rule, a) && Represents(traces, rule, b)
    ensures a == b
  {
    if a.Some? && b.Some? {
      var i, j := a.value, b.value;
      assert Eligible(traces[i], rule) && Eligible(traces[j], rule);
    }
  }

  // Keep the scan so far unless the next has a higher PCE.
  function Fold(traces: seq<Trace>, rule: Rule): (choice: Option<nat>)
    ensures choice.Some? ==> choice.value < |traces| && Eligible(traces[choice.value], rule)
  {
    if traces == [] then None
    else
      var n := |traces| - 1;
      var earlier := Fold(traces[..n], rule);
      if Eligible(traces[n], rule) && (earlier.None? || HasHigherPce(Pce(traces[n]), Pce(traces[earlier.value])))
      then Some(n)
      else earlier
  }

  lemma {:induction false} FoldRepresents(traces: seq<Trace>, rule: Rule)
    ensures Represents(traces, rule, Fold(traces, rule))
  {
    if traces != [] {
      FoldRepresents(traces[..|traces| - 1], rule);
    }
  }

  /** Folding with _has_higher_pce picks the representative, and there is only one to pick. */
  lemma FoldPicksRepresentative(traces: seq<Trace>, rule: Rule)
    ensures forall choice :: Represents(traces, rule, choice) <==> choice == Fold(traces, rule)
  {
    FoldRepresents(traces, rule);
    forall choice | Represents(traces, rule, choice) ensures choice == Fold(traces, rule) {
      OnlyOneRepresents(traces, rule, choice, Fold(traces, rule));
    }
  }

  // A valid scan of the direction with a PCE, one that can be drawn if that is asked for.
  predicate IsRated(t: Trace, d: Direction, drawn: bool) {
    && t.valid && t.direction == d && t.metrics.Some? && t.metrics.value.pce.Some? && (drawn ==> t.points != [])
  }

  // Scan k has the highest PCE of the scans to choose from, and is the first with that PCE.
  predicate HasHighestPce(traces: seq<Trace>, rule: Rule, k: nat) {
    && k < |traces| && IsRated(traces[k], rule.direction, rule.Drawn?)
    && (forall i :: 0 <= i < |traces| && IsRated(traces[i], rule.direction, rule.Drawn?) ==>
          traces[i].metrics.value.pce.value <= traces[k].metrics.value.pce.value)
    && (forall i :: 0 <= i < k && IsRated(traces[i], rule.direction, rule.Drawn?) ==>
          traces[i].metrics.value.pce.value < traces[k].metrics.value.pce.value)
  }

  // What may stand for the direction without a PCE: a scan with metrics in the record, one with points in a figure,
  // none in a table.
  predicate IsFallback(t: Trace, rule: Rule) {
    && t.valid && t.direction == rule.direction
    && ((rule.Recorded? && t.metrics.Some?) || (rule.Drawn? && t.points != []))
  }

  /** What is chosen, in numbers: the first scan with the highest PCE; if no scan has one, the first scan; and none only
      when there is none to choose from. */
  lemma FoldIsHighest(traces: seq<Trace>, rule: Rule)
    ensures var choice := Fold(traces, rule);
      if exists i :: 0 <= i < |traces| && IsRated(traces[i], rule.direction, rule.Drawn?)
      then choice.Some? && HasHighestPce(traces, rule, choice.value)
      else if choice.Some?
      then IsFallback(traces[choice.value], rule) && forall i :: 0 <= i < choice.value ==> !IsFallback(traces[i], rule)
      else forall i :: 0 <= i < |traces| ==> !IsFallback(traces[i], rule)
  {
    FoldRepresents(traces, rule);
    forall i | 0 <= i < |traces|
      ensures Eligible(traces[i], rule) <==> IsRated(traces[i], rule.direction, rule.Drawn?)
                                             || IsFallback(traces[i], rule)
    {
    }
    if i :| 0 <= i < |traces| && IsRated(traces[i], rule.direction, rule.Drawn?) {
      var k := Fold(traces, rule).value;
      assert !HasHigherPce(Pce(traces[i]), Pce(traces[k]));
    }
  }

  lemma FoldStep(traces: seq<Trace>, t: Trace, rule: Rule)
    ensures var earlier, after := Fold(traces, rule), Fold(traces + [t], rule);
      after == if Eligible(t, rule) && (earlier.None? || HasHigherPce(Pce(t), Pce(traces[earlier.value])))
               then Some(|traces|) else earlier
  {
    assert (traces + [t])[..|traces|] == traces;
  }

  predicate HasScan(traces: seq<Trace>, rule: Rule) { Fold(traces, rule).Some? }

  // ----- the device record -----

  datatype Tier = ForwardTier | ReverseTier | CombinedTier

  // The metrics of a device by tier; a tier may be present as None.
  type Directional = map<Tier, Option<Metrics>>

  function TierOf(d: Direction): Tier { if d == Forward then ForwardTier else ReverseTier }

  function TierMetrics(metrics: Directional, tier: Tier): Option<Metrics> {
    if tier in metrics then metrics[tier] else None
  }

  // The metrics of the scan that represents a direction in the device record.
  function RecordOf(traces: seq<Trace>, d: Direction): Option<Metrics> {
    var choice := Fold(traces, Recorded(d));
    if choice.Some? then traces[choice.value].metrics else None
  }

  lemma RecordStep(traces: seq<Trace>, t: Trace, d: Direction)
    ensures var earlier, after := RecordOf(traces, d), RecordOf(traces + [t], d);
      after == if Eligible(t, Recorded(d)) && (earlier.None? || HasHigherPce(Pce(t), earlier.value.pce))
               then t.metrics else earlier
  {
    FoldStep(traces, t, Recorded(d));
  }

  // The metrics a device has: none, one flat record (v5), or records by tier.
  datatype Saved = NoMetrics | Flat(record: Metrics) | Tiers(tiers: Directional)

  // The metrics of _device_record: both directions, one of them possibly None, or no metrics at all.
  function FreshMetrics(traces: seq<Trace>): Saved {
    var forward, reverse := RecordOf(traces, Forward), RecordOf(traces, Reverse);
    if forward.None? && reverse.None? then NoMetrics else Tiers(map[ForwardTier := forward, ReverseTier := reverse])
  }

  method DeviceMetrics(traces: seq<Trace>) returns (metrics: Saved)
    requires AllFresh(traces)
    ensures metrics == FreshMetrics(traces)
  {
    var directional: Directional := map[ForwardTier := None, ReverseTier := None];
    for i := 0 to |traces|
      invariant directional == map[ForwardTier := RecordOf(traces[..i], Forward),
                                   ReverseTier := RecordOf(traces[..i], Reverse)]
    {
      var trace := traces[i];
      assert traces[..i + 1] == traces[..i] + [trace];
      RecordStep(traces[..i], trace, Forward);
      RecordStep(traces[..i], trace, Reverse);
      if trace.valid && trace.direction != OtherDirection {
        var tier, candidate := TierOf(trace.direction), trace.metrics.value;
        var current := directional[tier];
        if current.None? || HasHigherPce(candidate.pce, current.value.pce) {
          directional := directional[tier := Some(candidate)];
        }
      }
    }
    assert traces[..|traces|] == traces;
    metrics := if directional[ForwardTier].Some? || directional[ReverseTier].Some? then Tiers(directional) else NoMetrics;
  }

  // ----- the upgrade of a stored device -----

  // Python's truth of the stored metrics: neither None nor an empty dictionary.
  predicate IsTruthy(saved: Saved) { saved.Flat? || (saved.Tiers? && saved.tiers != map[]) }

  // What was saved for a tier, where it is a record.
  function SavedTier(saved: Saved, tier: Tier): Option<Metrics> {
    match saved
    case NoMetrics => None
    case Flat(record) => if tier == CombinedTier then Some(record) else None
    case Tiers(tiers) => TierMetrics(tiers, tier)
  }

  // A tier of the upgraded device: its representative scan, or else what was saved.
  function UpgradedTier(traces: seq<Trace>, saved: Saved, tier: Tier): Option<Metrics> {
    var rebuilt := match tier
      case ForwardTier => RecordOf(traces, Forward)
      case ReverseTier => RecordOf(traces, Reverse)
      case CombinedTier => None;
    if rebuilt.Some? then rebuilt else SavedTier(saved, tier)
  }

  function UpgradedTiers(traces: seq<Trace>, saved: Saved): Directional {
    map tier: Tier | UpgradedTier(traces, saved, tier).Some? :: UpgradedTier(traces, saved, tier)
  }

  // The metrics that the device part of _normalize_legacy_analysis leaves.
  function Upgraded(traces: seq<Trace>, saved: Saved): Saved {
    if RecordOf(traces, Forward).Some? || RecordOf(traces, Reverse).Some? || IsTruthy(saved)
    then Tiers(UpgradedTiers(traces, saved))
    else NoMetrics
  }

  class StoredDevice {
    const traces: seq<Trace>
    var metrics: Saved

    constructor (traces: seq<Trace>, metrics: Saved)
      ensures this.traces == traces && this.metrics == metrics
    {
      this.traces, this.metrics := traces, metrics;
    }

    // The directions are rebuilt from the traces, and what was saved fills the gaps.
    method Normalize()
      modifies `metrics
      ensures metrics == Upgraded(traces, old(metrics))
    {
      var directional: Directional := map[];
      var forward := RebuiltTier(traces, Forward);
      if forward.Some? {
        directional := directional[ForwardTier := forward];
      }
      var reverse := RebuiltTier(traces, Reverse);
      if reverse.Some? {
        directional := directional[ReverseTier := reverse];
      }
      var rebuilt := forward.Some? || reverse.Some?;
      FilledIsUpgraded(traces, metrics, directional);
      directional := Filled(directional, metrics);
      metrics := if rebuilt || IsTruthy(metrics) then Tiers(directional) else NoMetrics;
    }
  }

  // A saved tier is taken over where it is missing and what was saved is a record.
  function Fill(directional: Directional, saved: Directional, tier: Tier): Directional {
    if tier !in directional && TierMetrics(saved, tier).Some? then directional[tier := saved[tier]] else directional
  }

  function Filled(directional: Directional, saved: Saved): Directional {
    match saved
    case NoMetrics => directional
    case Flat(record) => directional[CombinedTier := Some(record)]
    case Tiers(tiers) => Fill(Fill(Fill(directional, tiers, ForwardTier), tiers, ReverseTier), tiers, CombinedTier)
  }

  lemma FilledIsUpgraded(traces: seq<Trace>, saved: Saved, rebuilt: Directional)
    requires forall tier :: tier in rebuilt <==>
      (tier == ForwardTier && RecordOf(traces, Forward).Some?) || (tier == ReverseTier && RecordOf(traces, Reverse).Some?)
    requires ForwardTier in rebuilt ==> rebuilt[ForwardTier] == RecordOf(traces, Forward)
    requires ReverseTier in rebuilt ==> rebuilt[ReverseTier] == RecordOf(traces, Reverse)
    ensures Filled(rebuilt, saved) == UpgradedTiers(traces, saved)
  {
    forall tier: Tier
      ensures tier in Filled(rebuilt, saved) <==> UpgradedTier(traces, saved, tier).Some?
      ensures tier in Filled(rebuilt, saved) ==> Filled(rebuilt, saved)[tier] == UpgradedTier(traces, saved, tier)
    {
      match tier
      case ForwardTier =>
      case ReverseTier =>
      case CombinedTier =>
    }
  }

  // The inner loop of the rebuild; unlike a fresh record, a stored one may hold a valid trace without metrics.
  method RebuiltTier(traces: seq<Trace>, d: Direction) returns (best: Option<Metrics>)
    ensures best == RecordOf(traces, d)
  {
    best := None;
    for i := 0 to |traces|
      invariant best == RecordOf(traces[..i], d)
    {
      var trace := traces[i];
      assert traces[..i + 1] == traces[..i] + [trace];
      RecordStep(traces[..i], trace, d);
      if trace.valid && trace.direction == d && trace.metrics.Some? {
        var candidate := trace.metrics.value;
        if best.None? || HasHigherPce(candidate.pce, best.value.pce) {
          best := Some(candidate);
        }
      }
    }
    assert traces[..|traces|] == traces;
  }

  /** Upgrading the metrics of a fresh record gives those metrics back, tier by tier. */
  lemma UpgradeKeepsFresh(traces: seq<Trace>, tier: Tier)
    ensures FreshMetrics(traces).NoMetrics? ==> Upgraded(traces, FreshMetrics(traces)).NoMetrics?
    ensures FreshMetrics(traces).Tiers? ==> var after := Upgraded(traces, FreshMetrics(traces));
      after.Tiers? && TierMetrics(after.tiers, tier) == TierMetrics(FreshMetrics(traces).tiers, tier)
  {
  }

  // ----- the tables and the figures -----

  // bestTrace of deviceMetrics.ts: scans without a PCE are passed over.
  method BestTrace(traces: seq<Trace>, d: Direction) returns (best: Option<nat>)
    ensures best == Fold(traces, Tabulated(d))
  {
    best := None;
    var bestPce: Option<real> := None;
    for i := 0 to |traces|
      invariant best == Fold(traces[..i], Tabulated(d))
      invariant bestPce == if best.Some? then Pce(traces[best.value]) else None
    {
      assert traces[..i + 1] == traces[..i] + [traces[i]];
      FoldStep(traces[..i], traces[i], Tabulated(d));
      if traces[i].valid && traces[i].direction == d {
        var pce := Pce(traces[i]);
        if pce.Some? && (best.None? || bestPce.None? || pce.value > bestPce.value) {
          best, bestPce := Some(i), pce;
        }
      }
    }
    assert traces[..|traces|] == traces;
  }

  // _representative_trace of publication_plots.py: max over the scans with points, a missing PCE counting as minus
  // infinity.
  method RepresentativeTrace(traces: seq<Trace>, d: Direction) returns (best: Option<nat>)
    ensures best == Fold(traces, Drawn(d))
  {
    best := None;
    for i := 0 to |traces|
      invariant best == Fold(traces[..i], Drawn(d))
    {
      assert traces[..i + 1] == traces[..i] + [traces[i]];
      FoldStep(traces[..i], traces[i], Drawn(d));
      if traces[i].valid && traces[i].direction == d && traces[i].points != [] {
        if best.None? || HasHigherPce(Pce(traces[i]), Pce(traces[best.value])) {
          best := Some(i);
        }
      }
    }
    assert traces[..|traces|] == traces;
  }

  // ----- agreement -----

  predicate SomePce(traces: seq<Trace>, d: Direction) {
    exists i :: 0 <= i < |traces| && Eligible(traces[i], Recorded(d)) && Pce(traces[i]).Some?
  }

  predicate NoneEligible(traces: seq<Trace>, rule: Rule) {
    forall i :: 0 <= i < |traces| ==> !Eligible(traces[i], rule)
  }

  predicate ScansHavePoints(traces: seq<Trace>, d: Direction) {
    forall i :: 0 <= i < |traces| && Eligible(traces[i], Recorded(d)) ==> traces[i].points != []
  }

  /** The tables show the scan the device record holds exactly when some scan has a PCE, or there is no scan at all. */
  lemma TablesAgree(traces: seq<Trace>, d: Direction)
    ensures Fold(traces, Tabulated(d)) == Fold(traces, Recorded(d))
       <==> SomePce(traces, d) || NoneEligible(traces, Recorded(d))
  {
    FoldRepresents(traces, Recorded(d));
    FoldRepresents(traces, Tabulated(d));
    var k := Fold(traces, Recorded(d));
    if SomePce(traces, d) {
      var i :| 0 <= i < |traces| && Eligible(traces[i], Recorded(d)) && Pce(traces[i]).Some?;
      assert !HasHigherPce(Pce(traces[i]), Pce(traces[k.value]));
      assert IsRepresentative(traces, Tabulated(d), k.value);
      OnlyOneRepresents(traces, Tabulated(d), k, Fold(traces, Tabulated(d)));
    }
  }

  // A scan that can be drawn stands in for every one that cannot outrank it: either it has a PCE, or nothing drawable
  // comes before it.
  predicate DrawnFirst(traces: seq<Trace>, d: Direction, k: nat)
    requires k < |traces|
  {
    && traces[k].points != []
    && (Pce(traces[k]).Some? || forall i :: 0 <= i < k ==> !Eligible(traces[i], Drawn(d)))
  }

  /** The figures draw the scan the device record holds exactly when that scan has points and, if it has no PCE, no
      drawable scan comes before it; or, where the record has no scan, when nothing can be drawn. */
  lemma FiguresAgree(traces: seq<Trace>, d: Direction)
    ensures var k := Fold(traces, Recorded(d));
      Fold(traces, Drawn(d)) == k
      <==> if k.Some? then DrawnFirst(traces, d, k.value) else NoneEligible(traces, Drawn(d))
  {
    var k, drawn := Fold(traces, Recorded(d)), Fold(traces, Drawn(d));
    FoldRepresents(traces, Recorded(d));
    FoldRepresents(traces, Drawn(d));
    if k.Some? && DrawnFirst(traces, d, k.value) {
      RecordIsDrawn(traces, d, k.value);
      OnlyOneRepresents(traces, Drawn(d), k, drawn);
    }
  }

  lemma RecordIsDrawn(traces: seq<Trace>, d: Direction, k: nat)
    requires IsRepresentative(traces, Recorded(d), k) && DrawnFirst(traces, d, k)
    ensures IsRepresentative(traces, Drawn(d), k)
  {
    forall i | 0 <= i < |traces| && Eligible(traces[i], Drawn(d))
      ensures !HasHigherPce(Pce(traces[i]), Pce(traces[k])) && (i < k ==> HasHigherPce(Pce(traces[k]), Pce(traces[i])))
    {
      if traces[i].metrics.Some? {
        assert Eligible(traces[i], Recorded(d));
      }
    }
  }

  /** With a PCE among the scans and points in all of them, the record, the tables and the figures show one scan: the
      first with the highest PCE. */
  lemma AllAgree(traces: seq<Trace>, d: Direction)
    requires SomePce(traces, d) && ScansHavePoints(traces, d)
    ensures HasScan(traces, Recorded(d)) && HasHighestPce(traces, Recorded(d), Fold(traces, Recorded(d)).value)
    ensures Fold(traces, Tabulated(d)) == Fold(traces, Recorded(d)) == Fold(traces, Drawn(d))
  {
    FoldRepresents(traces, Recorded(d));
    TablesAgree(traces, d);
    FiguresAgree(traces, d);
    FoldIsHighest(traces, Recorded(d));
    var i :| 0 <= i < |traces| && Eligible(traces[i], Recorded(d)) && Pce(traces[i]).Some?;
    assert Pce(traces[Fold(traces, Recorded(d)).value]).Some?;
  }

  /** A failing input: one valid scan without a PCE is recorded, but the tables show none. */
  lemma TablesDisagree(points: seq<(real, real)>)
    ensures var traces := [Trace(true, Forward, Some(Metrics(Some(1.0), None, None, None)), points)];
      Fold(traces, Recorded(Forward)) == Some(0) && Fold(traces, Tabulated(Forward)) == None
  {
    var t := Trace(true, Forward, Some(Metrics(Some(1.0), None, None, None)), points);
    FoldStep([], t, Recorded(Forward));
    FoldStep([], t, Tabulated(Forward));
    assert [] + [t] == [t];
  }

  /** A failing input: one stored valid trace with points and no metrics is drawn, but the record has no scan. */
  lemma FiguresDisagree(point: (real, real))
    ensures var traces := [Trace(true, Forward, None, [point])];
      Fold(traces, Recorded(Forward)) == None && Fold(traces, Drawn(Forward)) == Some(0)
  {
    var t := Trace(true, Forward, None, [point]);
    FoldStep([], t, Recorded(Forward));
    FoldStep([], t, Drawn(Forward));
    assert [] + [t] == [t];
  }

  // bestPce of deviceMetrics.ts
  function BestPce(metrics: Saved): Option<real> {
    if !metrics.Tiers? then None
    else
      Higher(TierPce(metrics.tiers, CombinedTier),
             Higher(TierPce(metrics.tiers, ForwardTier), TierPce(metrics.tiers, ReverseTier)))
  }

  function TierPce(metrics: Directional, tier: Tier): Option<real> {
    var record := TierMetrics(metrics, tier);
    if record.Some? then record.value.pce else None
  }

  function Higher(a: Option<real>, b: Option<real>): Option<real> { if HasHigherPce(b, a) then b else a }

  predicate ShowsPce(tiers: Directional, tier: Tier, x: real) {
    TierMetrics(tiers, tier).Some? && TierMetrics(tiers, tier).value.pce == Some(x)
  }

  /** The best PCE of any record, stored or fresh, is the maximum over all its tiers; a flat record shows none. */
  lemma BestPceIsMaximum(metrics: Saved)
    ensures var best := BestPce(metrics);
      if metrics.Tiers?
      then (forall tier, x :: ShowsPce(metrics.tiers, tier, x) ==> best.Some? && x <= best.value)
           && (best.Some? ==> exists tier :: ShowsPce(metrics.tiers, tier, best.value))
      else best.None?
  {
    if metrics.Tiers? {
      var tiers, best := metrics.tiers, BestPce(metrics);
      forall tier, x | ShowsPce(tiers, tier, x) ensures best.Some? && x <= best.value {
        assert TierPce(tiers, tier) == Some(x);
        assert tier == CombinedTier || tier == ForwardTier || tier == ReverseTier;
      }
      if best.Some? {
        var tier := if TierPce(tiers, CombinedTier) == best then CombinedTier
                    else if TierPce(tiers, ForwardTier) == best then ForwardTier else ReverseTier;
        assert ShowsPce(tiers, tier, best.value);
      }
    }
  }

  predicate IsDirectional(t: Trace) { t.valid && t.metrics.Some? && t.direction != OtherDirection }

  /** The best PCE shown for a freshly parsed device is that of its best scan, whatever the direction: no scan has a higher
      one, and there is one exactly when some scan has one. */
  lemma BestPceIsBestScan(traces: seq<Trace>)
    ensures var best := BestPce(FreshMetrics(traces));
      && (forall i :: 0 <= i < |traces| && IsDirectional(traces[i]) && Pce(traces[i]).Some? ==>
            best.Some? && Pce(traces[i]).value <= best.value)
      && (best.Some? ==> exists i :: 0 <= i < |traces| && IsDirectional(traces[i]) && Pce(traces[i]) == best)
  {
    FoldIsHighest(traces, Recorded(Forward));
    FoldIsHighest(traces, Recorded(Reverse));
    var best := BestPce(FreshMetrics(traces));
    forall i | 0 <= i < |traces| && IsDirectional(traces[i]) && Pce(traces[i]).Some?
      ensures best.Some? && Pce(traces[i]).value <= best.value
    {
      assert Eligible(traces[i], Recorded(traces[i].direction));
    }
    if best.Some? {
      var tiers := FreshMetrics(traces).tiers;
      var d := if TierPce(tiers, ForwardTier) == best then Forward else Reverse;
      var k := Fold(traces, Recorded(d)).value;
      assert IsDirectional(traces[k]) && Pce(traces[k]) == best;
    }
  }

  // ----- what an upgrade leaves -----

  predicate NoScans(traces: seq<Trace>, d: Direction) {
    forall i :: 0 <= i < |traces| ==> !(traces[i].valid && traces[i].direction == d && traces[i].metrics.Some?)
  }

  /** Upgrading a stored device: a direction with scans gets the metrics of the chosen one, a direction without keeps what
      was saved for it, the combined tier is what was saved as such or the flat record, and nothing else is there. */
  lemma UpgradeFillsGaps(traces: seq<Trace>, saved: Saved)
    ensures Upgraded(traces, saved).NoMetrics?
       <==> NoScans(traces, Forward) && NoScans(traces, Reverse) && (saved.NoMetrics? || saved == Tiers(map[]))
    ensures !Upgraded(traces, saved).Flat?
    ensures Upgraded(traces, saved).Tiers? ==> var tiers := Upgraded(traces, saved).tiers;
      && (forall d :: d != OtherDirection ==>
            TierMetrics(tiers, TierOf(d)) ==
            if !NoScans(traces, d) then RecordOf(traces, d)
            else if saved.Tiers? then TierMetrics(saved.tiers, TierOf(d)) else None)
      && TierMetrics(tiers, CombinedTier) ==
         (match saved
          case NoMetrics => None
          case Flat(record) => Some(record)
          case Tiers(kept) => TierMetrics(kept, CombinedTier))
  {
    forall d: Direction ensures NoScans(traces, d) <==> RecordOf(traces, d).None? {
      RecordExists(traces, d);
    }
  }

  lemma RecordExists(traces: seq<Trace>, d: Direction)
    ensures NoScans(traces, d) <==> RecordOf(traces, d).None?
  {
    FoldRepresents(traces, Recorded(d));
    if RecordOf(traces, d).None? {
      forall i | 0 <= i < |traces| ensures !Eligible(traces[i], Recorded(d)) {
      }
    }
  }
}
