// _group_statistics of src/web/jv_parser.py: what each control or target group shows of its devices, and how every
// target compares with the control.
module GroupStatistics {
  import opened Reals
  import opened Representatives
  import opened Sequences
  import opened Sorting
  import opened Wrappers
  import BH = BenjaminiHochberg
  import DescriptiveStats
  import P = Permutation

  // What an instrument computed itself, for the device and for each of its traces.
  datatype Tables = Tables(device: Option<Table>, traces: seq<Option<Table>>)

  type Table = map<string, real>

  // A device of an analysis; exclusion is the recorded reason of an excluded one.
  datatype DeviceRow = DeviceRow(deviceId: string, substrateId: string, instrumentLabel: string, groupId: string,
                                 traces: seq<Trace>, tables: Tables, metrics: Saved, exclusion: Option<string>)

  datatype Kind = Control | Target | Standalone

  datatype Group = Group(groupId: string, name: string, kind: Kind)

  datatype GroupRow = GroupRow(group: Group, deviceCount: nat, validCount: nat, excludedCount: nat,
                               metrics: map<string, DescriptiveStats.Stats>)

  datatype ComparisonRow = ComparisonRow(target: Group, control: Group, metrics: map<string, Option<BH.Comparison>>)

  datatype Statistics = Statistics(groups: seq<GroupRow>, comparisons: seq<ComparisonRow>)

  // The names of the metrics (voc, jsc, ff and pce), the square root, and the samples that the generator seeded for a
  // group and a metric draws.
  datatype Settings = Settings(names: seq<string>, sqrt: real -> real, draws: (string, string) -> seq<seq<nat>>) {
    ghost predicate Valid() {
      Distinct(names) && forall group, metric :: |draws(group, metric)| == P.DRAW_COUNT
    }
  }

  // ----- samples -----

  function Reading(m: Metrics, name: string): Option<real> {
    if name == "voc" then m.voc
    else if name == "jsc" then m.jsc
    else if name == "ff" then m.ff
    else if name == "pce" then m.pce
    else None
  }

  function RecordValues(m: Option<Metrics>, name: string): seq<real> {
    if m.Some? && Reading(m.value, name).Some? then [Reading(m.value, name).value] else []
  }

  // _device_metric_values: forward and reverse are pooled, and a flat record counts as it is.
  function DeviceValues(metrics: Saved, name: string): seq<real> {
    match metrics
    case NoMetrics => []
    case Flat(record) => RecordValues(Some(record), name)
    case Tiers(tiers) =>
      RecordValues(TierMetrics(tiers, ForwardTier), name) + RecordValues(TierMetrics(tiers, ReverseTier), name)
  }

  predicate IsSample(d: DeviceRow) { IsTruthy(d.metrics) && d.exclusion.None? }

  predicate IsExcluded(d: DeviceRow) { d.exclusion.Some? }

  function InGroup(devices: seq<DeviceRow>, id: string): seq<DeviceRow> {
    if devices == [] then []
    else
      var last := devices[|devices| - 1];
      InGroup(devices[..|devices| - 1], id) + (if last.groupId == id then [last] else [])
  }

  // The readings of the devices that count, in order.
  function Samples(devices: seq<DeviceRow>, name: string): seq<real> {
    if devices == [] then []
    else
      var last := devices[|devices| - 1];
      Samples(devices[..|devices| - 1], name) + (if IsSample(last) then DeviceValues(last.metrics, name) else [])
  }

  // group_metric_values, which filters all devices once more
  function GroupMetricValues(devices: seq<DeviceRow>, id: string, name: string): seq<real> {
    if devices == [] then []
    else
      var last := devices[|devices| - 1];
      GroupMetricValues(devices[..|devices| - 1], id, name)
      + (if last.groupId == id && IsSample(last) then DeviceValues(last.metrics, name) else [])
  }

  /** The values a comparison is made of are those the group's statistics describe. */
  lemma {:induction false} ComparedAreDescribed(devices: seq<DeviceRow>, id: string, name: string)
    ensures GroupMetricValues(devices, id, name) == Samples(InGroup(devices, id), name)
  {
    if devices != [] {
      var front, last := devices[..|devices| - 1], devices[|devices| - 1];
      ComparedAreDescribed(front, id, name);
      if last.groupId == id {
        assert (InGroup(front, id) + [last])[..|InGroup(front, id)|] == InGroup(front, id);
      } else {
        assert InGroup(front, id) + [] == InGroup(front, id);
      }
    }
  }

  // ----- one group -----

  function CountIf(devices: seq<DeviceRow>, holds: DeviceRow -> bool): (n: nat)
    ensures n <= |devices|
  {
    if devices == [] then 0 else (if holds(devices[0]) then 1 else 0) + CountIf(devices[1..], holds)
  }

  function GroupRowOf(devices: seq<DeviceRow>, group: Group, c: Settings): GroupRow {
    var own := InGroup(devices, group.groupId);
    GroupRow(group, |own|, CountIf(own, IsSample), CountIf(own, IsExcluded),
             map name | name in c.names :: DescriptiveStats.Server(Samples(own, name), c.sqrt))
  }

  function GroupRows(devices: seq<DeviceRow>, groups: seq<Group>, c: Settings): seq<GroupRow> {
    seq(|groups|, i requires 0 <= i < |groups| => GroupRowOf(devices, groups[i], c))
  }

  // ----- comparisons -----

  // statistics.variance
  function Variance(xs: seq<real>): real
    requires |xs| > 1
  {
    DescriptiveStats.SquaredDeviations(xs, Mean(xs)) / (|xs| - 1) as real
  }

  function PooledStandardDeviation(left: seq<real>, right: seq<real>, sqrt: real -> real): real {
    if |left| < 2 || |right| < 2 then 0.0
    else
      var numerator := Product((|left| - 1) as real, Variance(left)) + Product((|right| - 1) as real, Variance(right));
      if numerator > 0.0 then sqrt(numerator / (|left| + |right| - 2) as real) else 0.0
  }

  // One metric of a target against the control: nothing to compare unless both have a mean.
  function Compared(controlMean: Option<real>, targetMean: Option<real>, denominator: real, test: Option<P.PValue>)
    : Option<BH.Comparison>
  {
    if controlMean.None? || targetMean.None? then None
    else
      var difference := targetMean.value - controlMean.value;
      Some(BH.Comparison(
             difference,
             if controlMean.value == 0.0 then None else Some(difference / Abs(controlMean.value) * 100.0),
             if denominator == 0.0 then None else Some(difference / denominator),
             if test.Some? then Some(test.value.p) else None,
             None,
             if test.Some? then Some(test.value.test) else None))
  }

  function MeanOf(xs: seq<real>, sqrt: real -> real): Option<real> { DescriptiveStats.Server(xs, sqrt).mean }

  function Compare(control: seq<real>, target: seq<real>, draws: seq<seq<nat>>, sqrt: real -> real)
    : Option<BH.Comparison>
    requires |draws| == P.DRAW_COUNT
  {
    Compared(MeanOf(control, sqrt), MeanOf(target, sqrt), PooledStandardDeviation(control, target, sqrt),
             P.PermutationPValue(control, target, draws))
  }

  function CompareMetric(devices: seq<DeviceRow>, control: Group, target: Group, c: Settings, name: string)
    : Option<BH.Comparison>
    requires c.Valid()
  {
    Compare(GroupMetricValues(devices, control.groupId, name), GroupMetricValues(devices, target.groupId, name),
            c.draws(target.groupId, name), c.sqrt)
  }

  function CompareEach(devices: seq<DeviceRow>, control: Group, target: Group, c: Settings, names: seq<string>)
    : map<string, Option<BH.Comparison>>
    requires c.Valid()
  {
    map name | name in names :: CompareMetric(devices, control, target, c, name)
  }

  // All metrics of a target, before the adjustment.
  function RawComparisons(devices: seq<DeviceRow>, control: Group, target: Group, c: Settings)
    : map<string, Option<BH.Comparison>>
    requires c.Valid()
  {
    CompareEach(devices, control, target, c, c.names)
  }

  function CompareGroups(devices: seq<DeviceRow>, control: Group, target: Group, c: Settings): ComparisonRow
    requires c.Valid()
  {
    ComparisonRow(target, control, BH.Adjusted(c.names, RawComparisons(devices, control, target, c)))
  }

  // The control group that targets are compared with.
  function FirstControl(groups: seq<Group>): Option<Group> {
    if groups == [] then None else if groups[0].kind == Control then Some(groups[0]) else FirstControl(groups[1..])
  }

  function Targets(groups: seq<Group>): seq<Group> {
    if groups == [] then []
    else
      var last := groups[|groups| - 1];
      Targets(groups[..|groups| - 1]) + (if last.kind == Target then [last] else [])
  }

  function Comparisons(devices: seq<DeviceRow>, groups: seq<Group>, c: Settings): seq<ComparisonRow>
    requires c.Valid()
  {
    var control, targets := FirstControl(groups), Targets(groups);
    if control.None? then []
    else seq(|targets|, i requires 0 <= i < |targets| => CompareGroups(devices, control.value, targets[i], c))
  }

  function StatisticsOf(devices: seq<DeviceRow>, groups: seq<Group>, c: Settings): Statistics
    requires c.Valid()
  {
    Statistics(GroupRows(devices, groups, c), Comparisons(devices, groups, c))
  }

  lemma CompareOneMore(devices: seq<DeviceRow>, control: Group, target: Group, c: Settings, names: seq<string>, name: string)
    requires c.Valid()
    ensures CompareEach(devices, control, target, c, names + [name]) ==
            CompareEach(devices, control, target, c, names)[name := CompareMetric(devices, control, target, c, name)]
  {
  }

  method CompareMetrics(devices: seq<DeviceRow>, control: Group, target: Group, c: Settings)
    returns (rows: map<string, Option<BH.Comparison>>)
    requires c.Valid()
    ensures rows == CompareEach(devices, control, target, c, c.names)
  {
    rows := map[];
    ghost var seen: seq<string> := [];
    for i := 0 to |c.names|
      invariant seen == c.names[..i] && rows == CompareEach(devices, control, target, c, seen)
    {
      CompareOneMore(devices, control, target, c, seen, c.names[i]);
      var comparison := CompareMetric(devices, control, target, c, c.names[i]);
      rows := rows[c.names[i] := comparison];
      seen := seen + [c.names[i]];
    }
    assert seen == c.names;
  }

  // The dictionary of one target: filled metric by metric, then adjusted in place.
  method CompareTarget(devices: seq<DeviceRow>, control: Group, target: Group, c: Settings) returns (row: ComparisonRow)
    requires c.Valid()
    ensures row == CompareGroups(devices, control, target, c)
  {
    var rows := CompareMetrics(devices, control, target, c);
    var table := new BH.MetricComparisons(c.names, rows);
    table.AddBenjaminiHochbergAdjustment();
    BH.AdjustmentIsAdjusted(c.names, rows, table.rows);
    row := ComparisonRow(target, control, table.rows);
  }

  method DescribeGroups(devices: seq<DeviceRow>, groups: seq<Group>, c: Settings) returns (rows: seq<GroupRow>)
    ensures rows == GroupRows(devices, groups, c)
  {
    rows := [];
    for i := 0 to |groups|
      invariant rows == GroupRows(devices, groups, c)[..i]
    {
      rows := rows + [GroupRowOf(devices, groups[i], c)];
    }
  }

  method CompareTargets(devices: seq<DeviceRow>, control: Group, targets: seq<Group>, c: Settings)
    returns (rows: seq<ComparisonRow>)
    requires c.Valid()
    ensures |rows| == |targets|
    ensures forall i :: 0 <= i < |rows| ==> rows[i] == CompareGroups(devices, control, targets[i], c)
  {
    rows := [];
    for i := 0 to |targets|
      invariant |rows| == i
      invariant forall j :: 0 <= j < i ==> rows[j] == CompareGroups(devices, control, targets[j], c)
    {
      var row := CompareTarget(devices, control, targets[i], c);
      rows := rows + [row];
    }
  }

  // _group_statistics
  method ComputeStatistics(devices: seq<DeviceRow>, groups: seq<Group>, c: Settings) returns (statistics: Statistics)
    requires c.Valid()
    ensures statistics == StatisticsOf(devices, groups, c)
  {
    var rows := DescribeGroups(devices, groups, c);
    var comparisons: seq<ComparisonRow> := [];
    var control := FirstControl(groups);
    if control.Some? {
      comparisons := CompareTargets(devices, control.value, Targets(groups), c);
    }
    assert comparisons == Comparisons(devices, groups, c);
    statistics := Statistics(rows, comparisons);
  }

  // ----- what the statistics say -----

  /** A metric is compared exactly when control and target both have a sample of it. */
  lemma ComparedWhen(devices: seq<DeviceRow>, control: Group, target: Group, c: Settings, name: string)
    requires c.Valid() && name in c.names
    ensures name in CompareGroups(devices, control, target, c).metrics
    ensures CompareGroups(devices, control, target, c).metrics[name].Some?
       <==> Samples(InGroup(devices, control.groupId), name) != [] && Samples(InGroup(devices, target.groupId), name) != []
  {
    ComparedAreDescribed(devices, control.groupId, name);
    ComparedAreDescribed(devices, target.groupId, name);
    var raw := RawComparisons(devices, control, target, c);
    BH.AdjustedKeepsRaw(c.names, raw, name);
  }

  lemma PIsProbability(control: seq<real>, target: seq<real>, draws: seq<seq<nat>>)
    requires |draws| == P.DRAW_COUNT && P.PermutationPValue(control, target, draws).Some?
    ensures 0.0 <= P.PermutationPValue(control, target, draws).value.p <= 1.0
  {
    if P.Comb(|control + target|, |control|) <= P.EXACT_LIMIT {
      P.ExactBounds(control, target, draws);
    } else {
      P.MonteCarloBounds(control, target, draws);
    }
  }

  /** For every level the adjusted value of a metric is at most the level exactly when the step-up test rejects its
      p-value among those of the metrics of the same target. */
  lemma AdjustedDecidesTarget(devices: seq<DeviceRow>, control: Group, target: Group, c: Settings, name: string, alpha: real)
    requires c.Valid() && name in c.names
    requires BH.HasP(RawComparisons(devices, control, target, c), name)
    ensures var raw := RawComparisons(devices, control, target, c);
      var after := CompareGroups(devices, control, target, c).metrics;
      && name in after && after[name].Some? && after[name].value.adjustedPValue.Some?
      && (after[name].value.adjustedPValue.value <= alpha
          <==> BH.Rejects(BH.Ps(BH.Available(c.names, raw)), alpha, raw[name].value.pValue.value))
  {
    var raw := RawComparisons(devices, control, target, c);
    BH.AdjustedIsAdjustment(c.names, raw);
    forall m | BH.HasP(raw, m) ensures 0.0 <= raw[m].value.pValue.value <= 1.0 {
      PIsProbability(GroupMetricValues(devices, control.groupId, m), GroupMetricValues(devices, target.groupId, m),
                     c.draws(target.groupId, m));
    }
    BH.AdjustmentDecides(c.names, raw, BH.Adjusted(c.names, raw), BH.Ps(BH.Available(c.names, raw)),
                         name, alpha);
  }

  /** Comparing the other way round turns the difference and the effect size about and, where the test is exact, leaves
      the p-value as it was. */
  lemma ComparisonTurnsRound(control: seq<real>, target: seq<real>, draws: seq<seq<nat>>, draws': seq<seq<nat>>,
                             sqrt: real -> real)
    requires |draws| == |draws'| == P.DRAW_COUNT
    requires P.Comb(|control + target|, |control|) <= P.EXACT_LIMIT
    ensures TurnedRound(Compare(control, target, draws, sqrt), Compare(target, control, draws', sqrt))
  {
    P.GroupsAreInterchangeable(control, target, draws, draws');
    PooledIsSymmetric(control, target, sqrt);
    ComparedTurnsRound(MeanOf(control, sqrt), MeanOf(target, sqrt), PooledStandardDeviation(control, target, sqrt),
                       P.PermutationPValue(control, target, draws));
  }

  predicate TurnedRound(there: Option<BH.Comparison>, back: Option<BH.Comparison>) {
    if there.None? then back.None?
    else
      && back.Some? && back.value.meanDifference == -there.value.meanDifference
      && back.value.pValue == there.value.pValue && back.value.test == there.value.test
      && if there.value.effectSize.None? then back.value.effectSize.None?
         else back.value.effectSize == Some(-there.value.effectSize.value)
  }

  lemma ComparedTurnsRound(controlMean: Option<real>, targetMean: Option<real>, denominator: real, test: Option<P.PValue>)
    ensures TurnedRound(Compared(controlMean, targetMean, denominator, test),
                        Compared(targetMean, controlMean, denominator, test))
  {
    if controlMean.Some? && targetMean.Some? && denominator != 0.0 {
      assert controlMean.value - targetMean.value == -(targetMean.value - controlMean.value);
      NegatedQuotient(targetMean.value - controlMean.value, denominator);
    }
  }

  lemma PooledIsSymmetric(left: seq<real>, right: seq<real>, sqrt: real -> real)
    ensures PooledStandardDeviation(left, right, sqrt) == PooledStandardDeviation(right, left, sqrt)
  {
  }

  lemma NegatedQuotient(x: real, d: real)
    requires d != 0.0
    ensures (-x) / d == -(x / d)
  {
    QuotientTimes(x, d);
    QuotientTimes(-x, d);
  }

  lemma ServerMean(xs: seq<real>, sqrt: real -> real)
    ensures MeanOf(xs, sqrt) == if xs == [] then None else Some(Mean(xs))
  {
    if xs != [] {
      SumOfPermuted(SortReals(xs), xs);
    }
  }

  // The squared deviations of both samples from their own means.
  function WithinSquares(control: seq<real>, target: seq<real>): real
    requires control != [] && target != []
  {
    Sum(DescriptiveStats.SquaresFrom(control, Mean(control))) + Sum(DescriptiveStats.SquaresFrom(target, Mean(target)))
  }

  lemma VarianceIs(xs: seq<real>)
    requires |xs| > 1
    ensures Product((|xs| - 1) as real, Variance(xs)) == Sum(DescriptiveStats.SquaresFrom(xs, Mean(xs))) >= 0.0
  {
    DescriptiveStats.SquaredDeviationsAre(xs, Mean(xs));
    DescriptiveStats.SquaresAreNonNegative(xs, Mean(xs));
    QuotientTimes(DescriptiveStats.SquaredDeviations(xs, Mean(xs)), (|xs| - 1) as real);
  }

  // The pooled standard deviation, squared and times the degrees of freedom.
  lemma PooledIs(control: seq<real>, target: seq<real>, sqrt: real -> real)
    requires |control| > 1 && |target| > 1 && IsSqrt(sqrt)
    ensures var d := PooledStandardDeviation(control, target, sqrt);
      && d >= 0.0 && Product(Product(d, d), (|control| + |target| - 2) as real) == WithinSquares(control, target)
      && (d == 0.0 <==> WithinSquares(control, target) == 0.0)
  {
    VarianceIs(control);
    VarianceIs(target);
    var numerator, n := WithinSquares(control, target), (|control| + |target| - 2) as real;
    if numerator > 0.0 {
      DescriptiveStats.QuotientSquared(numerator, n, sqrt);
    } else {
      ProductSigns(0.0, 0.0);
      ProductSigns(0.0, n);
    }
  }

  lemma RatioIs(x: real, d: real, n: real, w: real)
    requires d > 0.0 && Product(Product(d, d), n) == w
    ensures Product(Product(x / d, x / d), w) == Product(Product(x, x), n)
    ensures (x / d >= 0.0 <==> x >= 0.0) && (x / d <= 0.0 <==> x <= 0.0)
  {
    var e := x / d;
    QuotientTimes(x, d);
    ProductOrder(0.0, e, d);
    ProductOrder(e, 0.0, d);
    assert Product(e, d) == x;
    assert Product(Product(e, e), Product(Product(d, d), n)) == Product(Product(Product(e, d), Product(e, d)), n);
  }

  function MeanOption(xs: seq<real>): Option<real> { if xs == [] then None else Some(Mean(xs)) }

  lemma CompareParts(control: seq<real>, target: seq<real>, draws: seq<seq<nat>>, sqrt: real -> real)
    requires |draws| == P.DRAW_COUNT
    ensures Compare(control, target, draws, sqrt)
         == Compared(MeanOption(control), MeanOption(target), PooledStandardDeviation(control, target, sqrt),
                     P.PermutationPValue(control, target, draws))
  {
    ServerMean(control, sqrt);
    ServerMean(target, sqrt);
  }

  lemma ComparedParts(c: real, t: real, d: real, test: Option<P.PValue>)
    ensures var r := Compared(Some(c), Some(t), d, test);
      && r.Some? && r.value.meanDifference == t - c
      && (r.value.percentDifference.None? <==> c == 0.0)
      && (c != 0.0 ==> Product(r.value.percentDifference.value, Abs(c)) == (t - c) * 100.0)
      && r.value.effectSize == (if d == 0.0 then None else Some((t - c) / d))
      && (r.value.pValue.Some? <==> test.Some?) && (test.Some? ==> r.value.pValue.value == test.value.p)
  {
    if c != 0.0 {
      PerCent(t - c, Abs(c));
    }
  }

  /** A comparison exists when both groups have samples.  It states the difference of the means, and that difference in per
      cent of the size of the control mean where this is not zero; and its p-value is that of the test on the samples. */
  lemma DifferenceIs(control: seq<real>, target: seq<real>, draws: seq<seq<nat>>, sqrt: real -> real)
    requires |draws| == P.DRAW_COUNT
    ensures var r, test := Compare(control, target, draws, sqrt), P.PermutationPValue(control, target, draws);
      && (r.Some? <==> control != [] && target != [])
      && (r.Some? ==>
            && r.value.meanDifference == Mean(target) - Mean(control)
            && (r.value.percentDifference.None? <==> Mean(control) == 0.0)
            && (r.value.percentDifference.Some? ==>
                  Product(r.value.percentDifference.value, Abs(Mean(control))) == (Mean(target) - Mean(control)) * 100.0)
            && (r.value.pValue.Some? <==> |control| >= 2 && |target| >= 2)
            && (test.Some? ==> r.value.pValue == Some(test.value.p)))
  {
    CompareParts(control, target, draws, sqrt);
    if control != [] && target != [] {
      ComparedParts(Mean(control), Mean(target), PooledStandardDeviation(control, target, sqrt),
                    P.PermutationPValue(control, target, draws));
    }
  }

  // The effect has the sign of the difference, and squared it is the squared difference over the pooled variance: w are
  // the squared deviations within both samples, and n their degrees of freedom.
  predicate EffectFits(effect: Option<real>, difference: real, n: real, w: real) {
    effect.Some? ==>
      && (effect.value >= 0.0 <==> difference >= 0.0)
      && Product(Product(effect.value, effect.value), w) == Product(Product(difference, difference), n)
  }

  lemma ComparedEffect(c: real, t: real, d: real, n: real, w: real, few: bool, test: Option<P.PValue>)
    requires d >= 0.0 && (d == 0.0 <==> few || w == 0.0) && (d != 0.0 ==> Product(Product(d, d), n) == w)
    ensures var r := Compared(Some(c), Some(t), d, test);
      r.Some? && (r.value.effectSize.None? <==> few || w == 0.0) && EffectFits(r.value.effectSize, t - c, n, w)
  {
    if d > 0.0 {
      RatioIs(t - c, d, n, w);
    }
  }

  lemma PooledFits(control: seq<real>, target: seq<real>, sqrt: real -> real)
    requires IsSqrt(sqrt) && control != [] && target != []
    ensures var d, w := PooledStandardDeviation(control, target, sqrt), WithinSquares(control, target);
      && d >= 0.0
      && (d == 0.0 <==> |control| < 2 || |target| < 2 || w == 0.0)
      && (d != 0.0 ==> Product(Product(d, d), (|control| + |target| - 2) as real) == w)
  {
    if |control| < 2 || |target| < 2 {
      NoSpread(control, target, sqrt);
    } else {
      PooledIs(control, target, sqrt);
    }
  }

  predicate HasEffect(control: seq<real>, target: seq<real>, effect: Option<real>)
    requires control != [] && target != []
  {
    && (effect.None? <==> |control| < 2 || |target| < 2 || WithinSquares(control, target) == 0.0)
    && EffectFits(effect, Mean(target) - Mean(control), (|control| + |target| - 2) as real,
                  WithinSquares(control, target))
  }

  lemma ComparedHasEffect(control: seq<real>, target: seq<real>, sqrt: real -> real, test: Option<P.PValue>)
    requires IsSqrt(sqrt) && control != [] && target != []
    ensures var r := Compared(Some(Mean(control)), Some(Mean(target)), PooledStandardDeviation(control, target, sqrt), test);
      r.Some? && HasEffect(control, target, r.value.effectSize)
  {
    PooledFits(control, target, sqrt);
    ComparedEffect(Mean(control), Mean(target), PooledStandardDeviation(control, target, sqrt),
                   (|control| + |target| - 2) as real, WithinSquares(control, target), |control| < 2 || |target| < 2, test);
  }

  /** There is an effect size when both groups have two samples and these deviate from their means, and it fits. */
  lemma EffectIs(control: seq<real>, target: seq<real>, draws: seq<seq<nat>>, sqrt: real -> real)
    requires |draws| == P.DRAW_COUNT && IsSqrt(sqrt) && control != [] && target != []
    ensures Compare(control, target, draws, sqrt).Some?
    ensures HasEffect(control, target, Compare(control, target, draws, sqrt).value.effectSize)
  {
    CompareParts(control, target, draws, sqrt);
    ComparedHasEffect(control, target, sqrt, P.PermutationPValue(control, target, draws));
  }

  lemma NoSpread(control: seq<real>, target: seq<real>, sqrt: real -> real)
    requires |control| < 2 || |target| < 2
    ensures PooledStandardDeviation(control, target, sqrt) == 0.0
  {
  }

  lemma PerCent(x: real, d: real)
    requires d > 0.0
    ensures Product(x / d * 100.0, d) == x * 100.0
  {
    QuotientTimes(x, d);
    assert x / d * 100.0 * d == x / d * d * 100.0;
  }

  // The devices that are not excluded, in order.
  function Kept(devices: seq<DeviceRow>): seq<DeviceRow> {
    if devices == [] then []
    else
      var last := devices[|devices| - 1];
      Kept(devices[..|devices| - 1]) + (if last.exclusion.None? then [last] else [])
  }

  lemma {:induction false} KeptValues(devices: seq<DeviceRow>, id: string, name: string)
    ensures GroupMetricValues(Kept(devices), id, name) == GroupMetricValues(devices, id, name)
  {
    if devices != [] {
      var front, last := devices[..|devices| - 1], devices[|devices| - 1];
      KeptValues(front, id, name);
      if last.exclusion.None? {
        assert (Kept(front) + [last])[..|Kept(front)|] == Kept(front);
      } else {
        assert Kept(front) + [] == Kept(front);
      }
    }
  }

  lemma KeptComparison(devices: seq<DeviceRow>, control: Group, target: Group, c: Settings)
    requires c.Valid()
    ensures RawComparisons(Kept(devices), control, target, c) == RawComparisons(devices, control, target, c)
  {
    forall name | name in c.names
      ensures CompareMetric(Kept(devices), control, target, c, name) == CompareMetric(devices, control, target, c, name)
    {
      KeptValues(devices, control.groupId, name);
      KeptValues(devices, target.groupId, name);
    }
  }

  lemma KeptGroup(devices: seq<DeviceRow>, group: Group, c: Settings)
    ensures GroupRowOf(Kept(devices), group, c).metrics == GroupRowOf(devices, group, c).metrics
  {
    forall name | name in c.names
      ensures Samples(InGroup(Kept(devices), group.groupId), name) == Samples(InGroup(devices, group.groupId), name)
    {
      KeptValues(devices, group.groupId, name);
      ComparedAreDescribed(devices, group.groupId, name);
      ComparedAreDescribed(Kept(devices), group.groupId, name);
    }
  }

  /** Excluded devices have no influence on the metrics of any group, nor on any comparison. */
  lemma ExcludedDoNotCount(devices: seq<DeviceRow>, groups: seq<Group>, c: Settings)
    requires c.Valid()
    ensures Comparisons(Kept(devices), groups, c) == Comparisons(devices, groups, c)
    ensures forall i :: 0 <= i < |groups| ==>
      GroupRowOf(Kept(devices), groups[i], c).metrics == GroupRowOf(devices, groups[i], c).metrics
  {
    if FirstControl(groups).Some? {
      forall i | 0 <= i < |Targets(groups)|
        ensures Comparisons(Kept(devices), groups, c)[i] == Comparisons(devices, groups, c)[i]
      {
        KeptComparison(devices, FirstControl(groups).value, Targets(groups)[i], c);
      }
    }
    forall i | 0 <= i < |groups|
      ensures GroupRowOf(Kept(devices), groups[i], c).metrics == GroupRowOf(devices, groups[i], c).metrics
    {
      KeptGroup(devices, groups[i], c);
    }
  }

  // ----- what is counted, device by device -----

  // The devices of a group for which something holds, by their places.
  function Places(devices: seq<DeviceRow>, id: string, holds: DeviceRow -> bool): set<nat> {
    set i | 0 <= i < |devices| && devices[i].groupId == id && holds(devices[i])
  }

  lemma {:induction false} CountOneMore(devices: seq<DeviceRow>, d: DeviceRow, holds: DeviceRow -> bool)
    ensures CountIf(devices + [d], holds) == CountIf(devices, holds) + if holds(d) then 1 else 0
  {
    if devices == [] {
      assert [] + [d] == [d] && [d][1..] == [];
    } else {
      assert (devices + [d])[0] == devices[0] && (devices + [d])[1..] == devices[1..] + [d];
      CountOneMore(devices[1..], d, holds);
    }
  }

  lemma OneMorePlace(devices: seq<DeviceRow>, id: string, holds: DeviceRow -> bool)
    requires devices != []
    ensures var last := |devices| - 1;
      |Places(devices, id, holds)| == |Places(devices[..last], id, holds)|
                                      + if devices[last].groupId == id && holds(devices[last]) then 1 else 0
  {
    var last := |devices| - 1;
    var counts := devices[last].groupId == id && holds(devices[last]);
    var before, now := Places(devices[..last], id, holds), Places(devices, id, holds);
    forall i ensures i in now <==> i in before || (i == last && counts) {
      if 0 <= i < last {
        assert devices[..last][i] == devices[i];
      }
    }
    assert now == if counts then before + {last} else before;
    assert last !in before;
  }

  lemma {:induction false} CountIsPlaces(devices: seq<DeviceRow>, id: string, holds: DeviceRow -> bool)
    ensures CountIf(InGroup(devices, id), holds) == |Places(devices, id, holds)|
  {
    if devices != [] {
      var last := |devices| - 1;
      CountIsPlaces(devices[..last], id, holds);
      OneMorePlace(devices, id, holds);
      if devices[last].groupId == id {
        CountOneMore(InGroup(devices[..last], id), devices[last], holds);
      } else {
        assert InGroup(devices[..last], id) + [] == InGroup(devices[..last], id);
      }
    }
  }

  predicate Anything(d: DeviceRow) { true }

  lemma {:induction false} CountOfAll(devices: seq<DeviceRow>)
    ensures CountIf(devices, Anything) == |devices|
  {
    if devices != [] {
      CountOfAll(devices[1..]);
    }
  }

  /** The counts of a row are those of the devices of the group: all, the ones with metrics that are not excluded, and the
      excluded ones. */
  lemma RowCountsAre(devices: seq<DeviceRow>, group: Group, c: Settings)
    ensures var row, id := GroupRowOf(devices, group, c), group.groupId;
      && row.deviceCount == |set i | 0 <= i < |devices| && devices[i].groupId == id|
      && row.validCount
         == |set i | 0 <= i < |devices| && devices[i].groupId == id
                     && IsTruthy(devices[i].metrics) && devices[i].exclusion.None?|
      && row.excludedCount == |set i | 0 <= i < |devices| && devices[i].groupId == id && devices[i].exclusion.Some?|
  {
    var id := group.groupId;
    CountIsPlaces(devices, id, Anything);
    CountOfAll(InGroup(devices, id));
    assert Places(devices, id, Anything) == set i | 0 <= i < |devices| && devices[i].groupId == id;
    CountIsPlaces(devices, id, IsSample);
    assert Places(devices, id, IsSample) ==
      set i | 0 <= i < |devices| && devices[i].groupId == id
              && IsTruthy(devices[i].metrics) && devices[i].exclusion.None?;
    CountIsPlaces(devices, id, IsExcluded);
    assert Places(devices, id, IsExcluded) ==
      set i | 0 <= i < |devices| && devices[i].groupId == id && devices[i].exclusion.Some?;
  }

  // What a record holds under a name.
  predicate Holds(m: Metrics, name: string, x: real) {
    || (name == "voc" && m.voc == Some(x)) || (name == "jsc" && m.jsc == Some(x))
    || (name == "ff" && m.ff == Some(x)) || (name == "pce" && m.pce == Some(x))
  }

  // A device that counts, with the reading in its flat record or in the record of a direction.
  predicate ReadsFlat(d: DeviceRow, name: string, x: real) {
    d.exclusion.None? && d.metrics.Flat? && Holds(d.metrics.record, name, x)
  }

  predicate ReadsTier(d: DeviceRow, tier: Tier, name: string, x: real) {
    && d.exclusion.None? && d.metrics.Tiers? && TierMetrics(d.metrics.tiers, tier).Some?
    && Holds(TierMetrics(d.metrics.tiers, tier).value, name, x)
  }

  function One(b: bool): nat { if b then 1 else 0 }

  lemma ValueCounted(record: Option<Metrics>, name: string, x: real)
    ensures multiset(RecordValues(record, name))[x] == One(record.Some? && Holds(record.value, name, x))
  {
  }

  lemma ValuesCounted(d: DeviceRow, name: string, x: real)
    ensures multiset(if IsSample(d) then DeviceValues(d.metrics, name) else [])[x]
         == One(ReadsFlat(d, name, x)) + One(ReadsTier(d, ForwardTier, name, x)) + One(ReadsTier(d, ReverseTier, name, x))
  {
    match d.metrics
    case NoMetrics =>
    case Flat(record) => ValueCounted(Some(record), name, x);
    case Tiers(tiers) =>
      ValueCounted(TierMetrics(tiers, ForwardTier), name, x);
      ValueCounted(TierMetrics(tiers, ReverseTier), name, x);
  }

  function FlatPlaces(devices: seq<DeviceRow>, id: string, name: string, x: real): set<nat> {
    Places(devices, id, d => ReadsFlat(d, name, x))
  }

  function TierPlaces(devices: seq<DeviceRow>, id: string, tier: Tier, name: string, x: real): set<nat> {
    Places(devices, id, d => ReadsTier(d, tier, name, x))
  }

  lemma {:induction false} SamplesCounted(devices: seq<DeviceRow>, id: string, name: string, x: real)
    ensures multiset(GroupMetricValues(devices, id, name))[x]
         == |FlatPlaces(devices, id, name, x)| + |TierPlaces(devices, id, ForwardTier, name, x)|
            + |TierPlaces(devices, id, ReverseTier, name, x)|
  {
    if devices != [] {
      SamplesCounted(devices[..|devices| - 1], id, name, x);
      ValuesCounted(devices[|devices| - 1], name, x);
      OneMorePlace(devices, id, d => ReadsFlat(d, name, x));
      OneMorePlace(devices, id, d => ReadsTier(d, ForwardTier, name, x));
      OneMorePlace(devices, id, d => ReadsTier(d, ReverseTier, name, x));
    }
  }

  /** The values a group is described by are the readings of its devices that are not excluded, each as often as it is
      read: once in a flat record, and once in each direction of the others. */
  lemma {:induction false} SamplesAre(devices: seq<DeviceRow>, id: string, name: string, x: real)
    ensures multiset(Samples(InGroup(devices, id), name))[x]
         == |set i | 0 <= i < |devices| && devices[i].groupId == id && ReadsFlat(devices[i], name, x)|
            + |set i | 0 <= i < |devices| && devices[i].groupId == id && ReadsTier(devices[i], ForwardTier, name, x)|
            + |set i | 0 <= i < |devices| && devices[i].groupId == id && ReadsTier(devices[i], ReverseTier, name, x)|
  {
    ComparedAreDescribed(devices, id, name);
    SamplesCounted(devices, id, name, x);
    FlatPlacesAre(devices, id, name, x);
    TierPlacesAre(devices, id, ForwardTier, name, x);
    TierPlacesAre(devices, id, ReverseTier, name, x);
  }

  lemma FlatPlacesAre(devices: seq<DeviceRow>, id: string, name: string, x: real)
    ensures FlatPlaces(devices, id, name, x)
         == set i | 0 <= i < |devices| && devices[i].groupId == id && ReadsFlat(devices[i], name, x)
  {
  }

  lemma TierPlacesAre(devices: seq<DeviceRow>, id: string, tier: Tier, name: string, x: real)
    ensures TierPlaces(devices, id, tier, name, x)
         == set i | 0 <= i < |devices| && devices[i].groupId == id && ReadsTier(devices[i], tier, name, x)
  {
  }

  // ----- which groups are compared -----

  /** Every target is compared with the control that is listed first, and each target once, in the order listed. */
  lemma {:induction false} FirstControlIs(groups: seq<Group>)
    ensures var control := FirstControl(groups);
      if control.None? then forall i :: 0 <= i < |groups| ==> groups[i].kind != Control
      else exists k :: 0 <= k < |groups| && groups[k] == control.value && groups[k].kind == Control
                       && forall i :: 0 <= i < k ==> groups[i].kind != Control
  {
    if groups != [] && groups[0].kind != Control {
      FirstControlIs(groups[1..]);
      if FirstControl(groups).Some? {
        var k :| 0 <= k < |groups[1..]| && groups[1..][k] == FirstControl(groups).value && groups[1..][k].kind == Control
                 && forall i :: 0 <= i < k ==> groups[1..][i].kind != Control;
        assert groups[k + 1] == groups[1..][k];
        forall i | 0 <= i < k + 1 ensures groups[i].kind != Control {
          assert i > 0 ==> groups[i] == groups[1..][i - 1];
        }
      } else {
        forall i | 0 <= i < |groups| ensures groups[i].kind != Control {
          assert i > 0 ==> groups[i] == groups[1..][i - 1];
        }
      }
    }
  }

  /** As many comparisons are made of a group as it is listed as a target. */
  lemma {:induction false} TargetsAre(groups: seq<Group>, g: Group)
    ensures multiset(Targets(groups))[g] == if g.kind == Target then multiset(groups)[g] else 0
  {
    if groups != [] {
      var front, last := groups[..|groups| - 1], groups[|groups| - 1];
      TargetsAre(front, g);
      assert groups == front + [last];
    }
  }

  // The samples of a group, as SamplesAre counts them.
  function SamplesOf(devices: seq<DeviceRow>, group: Group, name: string): seq<real> {
    Samples(InGroup(devices, group.groupId), name)
  }

  /** The report has a row for every group, in order, with the statistics of the group's samples under each name. */
  lemma RowsDescribe(devices: seq<DeviceRow>, groups: seq<Group>, c: Settings, i: nat, name: string)
    requires c.Valid() && i < |groups| && name in c.names
    ensures |StatisticsOf(devices, groups, c).groups| == |groups|
    ensures var row := StatisticsOf(devices, groups, c).groups[i];
      && row.group == groups[i] && row.metrics.Keys == set n | n in c.names
      && row.metrics[name] == DescriptiveStats.Server(SamplesOf(devices, groups[i], name), c.sqrt)
  {
    assert StatisticsOf(devices, groups, c).groups[i] == GroupRowOf(devices, groups[i], c);
  }

  predicate SameButAdjusted(after: Option<BH.Comparison>, before: Option<BH.Comparison>) {
    && (after.Some? <==> before.Some?)
    && (after.Some? ==> after.value.(adjustedPValue := None) == before.value.(adjustedPValue := None))
  }

  /** It has a comparison for every target, in order, with the first control: under each name that of the samples of the
      two groups, but for the adjusted p-value; and none without a control. */
  lemma TargetsCompared(devices: seq<DeviceRow>, groups: seq<Group>, c: Settings, j: nat, name: string)
    requires c.Valid() && j < |Targets(groups)| && name in c.names
    ensures var rows, control, target := StatisticsOf(devices, groups, c).comparisons, FirstControl(groups), Targets(groups)[j];
      if control.None? then rows == []
      else
        && |rows| == |Targets(groups)| && rows[j].target == target && rows[j].control == control.value
        && rows[j].metrics.Keys == (set n | n in c.names)
        && SameButAdjusted(rows[j].metrics[name],
                           Compare(SamplesOf(devices, control.value, name), SamplesOf(devices, target, name),
                                   c.draws(target.groupId, name), c.sqrt))
  {
    var control, target := FirstControl(groups), Targets(groups)[j];
    if control.Some? {
      var raw := RawComparisons(devices, control.value, target, c);
      BH.AdjustedKeepsRaw(c.names, raw, name);
      ComparedAreDescribed(devices, control.value.groupId, name);
      ComparedAreDescribed(devices, target.groupId, name);
      assert StatisticsOf(devices, groups, c).comparisons[j] == CompareGroups(devices, control.value, target, c);
      assert raw.Keys == set n | n in c.names;
    }
  }

  // ----- devices that the statistics cannot tell apart -----

  predicate SameSample(a: DeviceRow, b: DeviceRow, name: string) {
    && a.groupId == b.groupId && a.exclusion == b.exclusion && IsSample(a) == IsSample(b)
    && DeviceValues(a.metrics, name) == DeviceValues(b.metrics, name)
  }

  predicate SameSamples(a: seq<DeviceRow>, b: seq<DeviceRow>, name: string) {
    |a| == |b| && forall i :: 0 <= i < |a| ==> SameSample(a[i], b[i], name)
  }

  lemma {:induction false} GroupsAlike(a: seq<DeviceRow>, b: seq<DeviceRow>, id: string, name: string)
    requires SameSamples(a, b, name)
    ensures SameSamples(InGroup(a, id), InGroup(b, id), name)
  {
    if a != [] {
      assert SameSample(a[|a| - 1], b[|b| - 1], name);
      GroupsAlike(a[..|a| - 1], b[..|b| - 1], id, name);
    }
  }

  lemma {:induction false} SamplesAlike(a: seq<DeviceRow>, b: seq<DeviceRow>, name: string)
    requires SameSamples(a, b, name)
    ensures Samples(a, name) == Samples(b, name)
  {
    if a != [] {
      assert SameSample(a[|a| - 1], b[|b| - 1], name);
      SamplesAlike(a[..|a| - 1], b[..|b| - 1], name);
    }
  }

  lemma {:induction false} CountsAlike(a: seq<DeviceRow>, b: seq<DeviceRow>, holds: DeviceRow -> bool)
    requires |a| == |b| && forall i :: 0 <= i < |a| ==> holds(a[i]) == holds(b[i])
    ensures CountIf(a, holds) == CountIf(b, holds)
  {
    if a != [] {
      CountsAlike(a[1..], b[1..], holds);
    }
  }

  lemma ValuesAlike(a: seq<DeviceRow>, b: seq<DeviceRow>, id: string, name: string)
    requires SameSamples(a, b, name)
    ensures Samples(InGroup(a, id), name) == Samples(InGroup(b, id), name)
    ensures GroupMetricValues(a, id, name) == GroupMetricValues(b, id, name)
  {
    GroupsAlike(a, b, id, name);
    SamplesAlike(InGroup(a, id), InGroup(b, id), name);
    ComparedAreDescribed(a, id, name);
    ComparedAreDescribed(b, id, name);
  }

  lemma CountedAlike(a: seq<DeviceRow>, b: seq<DeviceRow>, name: string)
    requires SameSamples(a, b, name)
    ensures CountIf(a, IsSample) == CountIf(b, IsSample) && CountIf(a, IsExcluded) == CountIf(b, IsExcluded)
  {
    assert forall i :: 0 <= i < |a| ==> SameSample(a[i], b[i], name);
    CountsAlike(a, b, IsSample);
    CountsAlike(a, b, IsExcluded);
  }

  lemma GroupRowsAlike(a: seq<DeviceRow>, b: seq<DeviceRow>, group: Group, c: Settings)
    requires forall name :: SameSamples(a, b, name)
    ensures GroupRowOf(a, group, c) == GroupRowOf(b, group, c)
  {
    var own, other := InGroup(a, group.groupId), InGroup(b, group.groupId);
    forall name | name in c.names ensures Samples(own, name) == Samples(other, name) {
      ValuesAlike(a, b, group.groupId, name);
    }
    GroupsAlike(a, b, group.groupId, "");
    CountedAlike(own, other, "");
  }

  lemma ComparisonsAlike(a: seq<DeviceRow>, b: seq<DeviceRow>, control: Group, target: Group, c: Settings)
    requires c.Valid() && forall name :: SameSamples(a, b, name)
    ensures CompareGroups(a, control, target, c) == CompareGroups(b, control, target, c)
  {
    forall name | name in c.names
      ensures CompareMetric(a, control, target, c, name) == CompareMetric(b, control, target, c, name)
    {
      ValuesAlike(a, b, control.groupId, name);
      ValuesAlike(a, b, target.groupId, name);
    }
    assert RawComparisons(a, control, target, c) == RawComparisons(b, control, target, c);
  }

  /** The statistics see of a device its group, its exclusion, whether it has metrics, and its readings. */
  lemma StatisticsAlike(a: seq<DeviceRow>, b: seq<DeviceRow>, groups: seq<Group>, c: Settings)
    requires c.Valid() && forall name :: SameSamples(a, b, name)
    ensures StatisticsOf(a, groups, c) == StatisticsOf(b, groups, c)
  {
    forall i | 0 <= i < |groups| ensures GroupRows(a, groups, c)[i] == GroupRows(b, groups, c)[i] {
      GroupRowsAlike(a, b, groups[i], c);
    }
    if FirstControl(groups).Some? {
      forall i | 0 <= i < |Targets(groups)| ensures Comparisons(a, groups, c)[i] == Comparisons(b, groups, c)[i] {
        ComparisonsAlike(a, b, FirstControl(groups).value, Targets(groups)[i], c);
      }
    }
    assert GroupRows(a, groups, c) == GroupRows(b, groups, c);
    assert Comparisons(a, groups, c) == Comparisons(b, groups, c);
  }

  // ----- upgraded v5 devices -----

  // The samples of a stored device after its upgrade are the readings of the scans that represent its directions.  A
  // flat v5 record has no part in them: whatever it holds, a device without such readings gives none.
  lemma FlatRecordIsNoSample(traces: seq<Trace>, record: Metrics, name: string)
    ensures var samples := DeviceValues(Upgraded(traces, Flat(record)), name);
      && samples == RecordValues(RecordOf(traces, Forward), name) + RecordValues(RecordOf(traces, Reverse), name)
      && (samples == [] <==>
            forall d: Direction :: d != OtherDirection ==> RecordValues(RecordOf(traces, d), name) == [])
  {
    var tiers := UpgradedTiers(traces, Flat(record));
    assert TierMetrics(tiers, ForwardTier) == RecordOf(traces, Forward);
    assert TierMetrics(tiers, ReverseTier) == RecordOf(traces, Reverse);
  }

  /** A failing input for the documented rule that a flat record is the sample: a v5 device without scans, whose record
      counts until it is upgraded and not after. */
  lemma FlatRecordIsLost(pce: real)
    ensures var record := Metrics(None, None, None, Some(pce));
      && DeviceValues(Flat(record), "pce") == [pce]
      && DeviceValues(Upgraded([], Flat(record)), "pce") == []
      && IsTruthy(Upgraded([], Flat(record)))
  {
    var record := Metrics(None, None, None, Some(pce));
    FlatRecordIsNoSample([], record, "pce");
    assert CombinedTier in UpgradedTiers([], Flat(record));
  }
}
