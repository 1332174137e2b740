// The vacuum program of a snapshot: two lists of stages and a sequence of references into them.
// frontend/src/components/SnapshotEditor.tsx edits it; src/web/execution_snapshots.py validates it.
module VcdProgram {
  import opened Sequences
  import opened Wrappers

  datatype Stage = Stage(valve: string, pressurePa: Option<nat>, seconds: Option<nat>)

  datatype Gas = Gas(gas: string, flowSccm: Option<nat>, targetPressurePa: Option<nat>, holdSeconds: Option<nat>)

  // "vcd_stage3", "gas_backfill_stage2", or a string that is neither.
  datatype Ref = VcdStage(number: int) | GasStage(number: int) | Other(text: string)

  datatype Snapshot = Snapshot(stages: seq<Stage>, gases: seq<Gas>, sequence: Option<seq<Ref>>)

  const MAX_STAGES := 5
  const MIN_STAGES := 1
  const BLANK_STAGE := Stage("", None, None)
  const BLANK_GAS := Gas("N2", None, None, None)

  // ----- the backend validator -----

  // Every reference to one of n evacuation and m gas stages.
  function Expected(n: nat, m: nat): set<Ref> {
    (set i | 1 <= i <= n :: VcdStage(i)) + (set i | 1 <= i <= m :: GasStage(i))
  }

  // VcdOperation: the bounds on the lists, and validate_sequence.
  predicate Accepts(s: Snapshot) {
    && MIN_STAGES <= |s.stages| <= MAX_STAGES && |s.gases| <= MAX_STAGES
    && s.sequence.Some? && 1 <= |s.sequence.value| <= 2 * MAX_STAGES
    && |s.sequence.value| == |Expected(|s.stages|, |s.gases|)|
    && (set r | r in s.sequence.value) == Expected(|s.stages|, |s.gases|)
  }

  // ----- the editor -----

  // The sequence without any reference to the removed stage.
  function Without(sequence: seq<Ref>, removed: Ref): seq<Ref> {
    if sequence == [] then []
    else (if sequence[0] == removed then [] else [sequence[0]]) + Without(sequence[1..], removed)
  }

  // References of the removed stage's kind with a higher number count down by one.
  function Renumber(r: Ref, removed: Ref): Ref {
    if r.VcdStage? && removed.VcdStage? && r.number > removed.number then VcdStage(r.number - 1)
    else if r.GasStage? && removed.GasStage? && r.number > removed.number then GasStage(r.number - 1)
    else r
  }

  function RenumberAll(sequence: seq<Ref>, removed: Ref): (r: seq<Ref>)
    ensures |r| == |sequence| && forall i :: 0 <= i < |r| ==> r[i] == Renumber(sequence[i], removed)
  {
    seq(|sequence|, i requires 0 <= i < |sequence| => Renumber(sequence[i], removed))
  }

  // removeStageFromSequence
  function RemoveFromSequence(sequence: Option<seq<Ref>>, removed: Ref): Option<seq<Ref>> {
    if sequence.None? then None else Some(RenumberAll(Without(sequence.value, removed), removed))
  }

  function AppendToSequence(sequence: Option<seq<Ref>>, added: Ref): Option<seq<Ref>> {
    if sequence.None? then None else Some(sequence.value + [added])
  }

  function Delete<T>(s: seq<T>, i: nat): (r: seq<T>)
    requires i < |s|
    ensures |r| == |s| - 1 && forall k :: 0 <= k < |r| ==> r[k] == if k < i then s[k] else s[k + 1]
  {
    s[..i] + s[i + 1..]
  }

  datatype Edit =
    | AddStage
    | AddGas
    | RemoveStage(index: nat)
    | RemoveGas(index: nat)
    | Swap(index: nat, up: bool)
    | SetStage(index: nat, stage: Stage)
    | SetGas(index: nat, gas: Gas)

  // A button that is disabled, or not drawn, changes nothing.
  predicate Enabled(s: Snapshot, e: Edit) {
    match e
    case AddStage => |s.stages| < MAX_STAGES
    case AddGas => |s.gases| < MAX_STAGES
    case RemoveStage(i) => i < |s.stages| && |s.stages| > MIN_STAGES
    case RemoveGas(i) => i < |s.gases|
    case Swap(i, up) => s.sequence.Some? && i < |s.sequence.value| && (if up then i > 0 else i < |s.sequence.value| - 1)
    case SetStage(i, _) => i < |s.stages|
    case SetGas(i, _) => i < |s.gases|
  }

  function SwapAt<T>(s: seq<T>, i: nat, j: nat): (r: seq<T>)
    requires i < |s| && j < |s|
    ensures |r| == |s| && r[i] == s[j] && r[j] == s[i]
    ensures forall k :: 0 <= k < |s| && k != i && k != j ==> r[k] == s[k]
  {
    s[i := s[j]][j := s[i]]
  }

  function Apply(s: Snapshot, e: Edit): Snapshot {
    if !Enabled(s, e) then s
    else
      match e
      case AddStage =>
        var next := s.stages + [BLANK_STAGE];
        s.(stages := next, sequence := AppendToSequence(s.sequence, VcdStage(|next|)))
      case AddGas =>
        var next := s.gases + [BLANK_GAS];
        s.(gases := next, sequence := AppendToSequence(s.sequence, GasStage(|next|)))
      case RemoveStage(i) =>
        s.(stages := Delete(s.stages, i), sequence := RemoveFromSequence(s.sequence, VcdStage(i + 1)))
      case RemoveGas(i) =>
        s.(gases := Delete(s.gases, i), sequence := RemoveFromSequence(s.sequence, GasStage(i + 1)))
      case Swap(i, up) =>
        s.(sequence := Some(SwapAt(s.sequence.value, i, if up then i - 1 else i + 1)))
      case SetStage(i, stage) => s.(stages := s.stages[i := stage])
      case SetGas(i, gas) => s.(gases := s.gases[i := gas])
  }

  function Run(s: Snapshot, edits: seq<Edit>): Snapshot
    decreases |edits|
  {
    if edits == [] then s else Run(Apply(s, edits[0]), edits[1..])
  }

  // ----- the program a snapshot stands for -----

  datatype Step = Evacuate(stage: Stage) | Backfill(gas: Gas) | Dangling

  function Deref(stages: seq<Stage>, gases: seq<Gas>, r: Ref): Step {
    match r
    case VcdStage(n) => if 1 <= n <= |stages| then Evacuate(stages[n - 1]) else Dangling
    case GasStage(n) => if 1 <= n <= |gases| then Backfill(gases[n - 1]) else Dangling
    case Other(_) => Dangling
  }

  function Resolve(stages: seq<Stage>, gases: seq<Gas>, sequence: seq<Ref>): (r: seq<Step>)
    ensures |r| == |sequence| && forall i :: 0 <= i < |r| ==> r[i] == Deref(stages, gases, sequence[i])
  {
    seq(|sequence|, i requires 0 <= i < |sequence| => Deref(stages, gases, sequence[i]))
  }

  function Program(s: Snapshot): seq<Step> {
    if s.sequence.None? then [] else Resolve(s.stages, s.gases, s.sequence.value)
  }

  // ----- a sequence the validator accepts is a permutation -----

  function Elements<T(==)>(s: seq<T>): set<T> { set x | x in s }

  lemma {:induction false} ElementsAtMost<T>(s: seq<T>)
    ensures |Elements(s)| <= |s|
    ensures |Elements(s)| == |s| <==> Distinct(s)
  {
    if s != [] {
      ElementsAtMost(s[1..]);
      assert Elements(s) == {s[0]} + Elements(s[1..]);
      if s[0] in s[1..] {
        assert Elements(s) == Elements(s[1..]);
        var k :| 0 <= k < |s[1..]| && s[1..][k] == s[0];
        assert s[0] == s[k + 1];
      } else {
        assert |Elements(s)| == 1 + |Elements(s[1..])|;
      }
    }
  }

  lemma {:induction false} StageRefs(n: nat)
    ensures |set i | 1 <= i <= n :: VcdStage(i)| == n
  {
    if n > 0 {
      StageRefs(n - 1);
      assert (set i | 1 <= i <= n :: VcdStage(i)) == (set i | 1 <= i <= n - 1 :: VcdStage(i)) + {VcdStage(n)};
    }
  }

  lemma {:induction false} GasRefs(n: nat)
    ensures |set i | 1 <= i <= n :: GasStage(i)| == n
  {
    if n > 0 {
      GasRefs(n - 1);
      assert (set i | 1 <= i <= n :: GasStage(i)) == (set i | 1 <= i <= n - 1 :: GasStage(i)) + {GasStage(n)};
    }
  }

  lemma ExpectedSize(n: nat, m: nat)
    ensures |Expected(n, m)| == n + m
  {
    StageRefs(n);
    GasRefs(m);
  }

  predicate IsExpected(r: Ref, n: nat, m: nat) {
    (r.VcdStage? && 1 <= r.number <= n) || (r.GasStage? && 1 <= r.number <= m)
  }

  // Each reference once, and no others.
  predicate Lists(sequence: seq<Ref>, n: nat, m: nat) {
    && |sequence| == n + m
    && Distinct(sequence)
    && forall i :: 0 <= i < |sequence| ==> IsExpected(sequence[i], n, m)
  }

  lemma AllListed(sequence: seq<Ref>, n: nat, m: nat)
    requires Lists(sequence, n, m)
    ensures Elements(sequence) == Expected(n, m)
  {
    ElementsAtMost(sequence);
    ExpectedSize(n, m);
    assert Elements(sequence) <= Expected(n, m) by {
      forall r | r in sequence ensures r in Expected(n, m) {
        var i :| 0 <= i < |sequence| && sequence[i] == r;
        assert IsExpected(r, n, m);
      }
    }
    SubsetOfSameSize(Elements(sequence), Expected(n, m));
  }

  lemma SubsetOfSameSize(a: set<Ref>, b: set<Ref>)
    requires a <= b && |a| == |b|
    ensures a == b
  {
    assert b == a + (b - a);
    assert |b| == |a| + |b - a|;
    assert b - a == {};
  }

  // The validator's verdict, reference by reference.
  predicate IsProgram(s: Snapshot) {
    && 1 <= |s.stages| <= 5 && |s.gases| <= 5
    && s.sequence.Some? && Lists(s.sequence.value, |s.stages|, |s.gases|)
  }

  /** Equal length and equal set make a permutation: the validator accepts exactly the sequences that
      list every stage once. */
  lemma AcceptsPermutations(s: Snapshot)
    ensures Accepts(s) <==> IsProgram(s)
  {
    var n, m := |s.stages|, |s.gases|;
    ExpectedSize(n, m);
    if s.sequence.Some? {
      var q := s.sequence.value;
      assert (set r | r in q) == Elements(q);
      if Lists(q, n, m) {
        AllListed(q, n, m);
      }
      if |q| == n + m && Elements(q) == Expected(n, m) {
        ElementsAtMost(q);
        forall i | 0 <= i < |q| ensures IsExpected(q[i], n, m) {
          assert q[i] in Elements(q);
        }
      }
    }
  }

  // ----- removal -----

  lemma {:induction false} WithoutAbsent(q: seq<Ref>, r: Ref)
    requires r !in q
    ensures Without(q, r) == q
  {
    if q != [] {
      WithoutAbsent(q[1..], r);
    }
  }

  lemma {:induction false} WithoutDeletes(q: seq<Ref>, p: nat)
    requires Distinct(q) && p < |q|
    ensures Without(q, q[p]) == Delete(q, p)
  {
    if p == 0 {
      WithoutAbsent(q[1..], q[0]);
    } else {
      WithoutDeletes(q[1..], p - 1);
      assert q[1..][p - 1] == q[p];
      assert Delete(q, p) == [q[0]] + Delete(q[1..], p - 1);
    }
  }

  lemma RenumberedOnce(a: Ref, b: Ref, removed: Ref)
    requires a != b && a != removed && b != removed
    ensures Renumber(a, removed) != Renumber(b, removed)
  {
  }

  lemma RenumberedIsExpected(r: Ref, removed: Ref, n: nat, m: nat)
    requires IsExpected(r, n, m) && IsExpected(removed, n, m) && r != removed
    ensures IsExpected(Renumber(r, removed), if removed.VcdStage? then n - 1 else n, if removed.VcdStage? then m else m - 1)
  {
  }

  lemma RenumberedDistinct(rest: seq<Ref>, removed: Ref)
    requires Distinct(rest) && forall k :: 0 <= k < |rest| ==> rest[k] != removed
    ensures Distinct(RenumberAll(rest, removed))
  {
    forall i, j | 0 <= i < j < |rest| ensures Renumber(rest[i], removed) != Renumber(rest[j], removed) {
      RenumberedOnce(rest[i], rest[j], removed);
    }
  }

  lemma {:induction false} RemovedLists(q: seq<Ref>, n: nat, m: nat, p: nat)
    requires Lists(q, n, m) && p < |q|
    ensures Without(q, q[p]) == Delete(q, p)
    ensures n + m > 0 && IsExpected(q[p], n, m)
    ensures Lists(RenumberAll(Delete(q, p), q[p]), if q[p].VcdStage? then n - 1 else n, if q[p].VcdStage? then m else m - 1)
  {
    WithoutDeletes(q, p);
    var rest := Delete(q, p);
    forall k | 0 <= k < |rest| ensures rest[k] != q[p] && IsExpected(rest[k], n, m) {
      assert rest[k] == q[if k < p then k else k + 1];
    }
    forall k | 0 <= k < |rest|
      ensures IsExpected(Renumber(rest[k], q[p]), if q[p].VcdStage? then n - 1 else n, if q[p].VcdStage? then m else m - 1)
    {
      RenumberedIsExpected(rest[k], q[p], n, m);
    }
    RenumberedDistinct(rest, q[p]);
  }

  lemma PositionOf(q: seq<Ref>, n: nat, m: nat, r: Ref) returns (p: nat)
    requires Lists(q, n, m) && IsExpected(r, n, m)
    ensures p < |q| && q[p] == r
  {
    AllListed(q, n, m);
    assert r in Expected(n, m);
    assert r in q;
    p :| 0 <= p < |q| && q[p] == r;
  }

  lemma AddKeepsLists(q: seq<Ref>, n: nat, m: nat)
    requires Lists(q, n, m)
    ensures Lists(q + [VcdStage(n + 1)], n + 1, m) && Lists(q + [GasStage(m + 1)], n, m + 1)
  {
    assert forall i :: 0 <= i < |q| ==> IsExpected(q[i], n, m);
  }

  lemma AddKeepsProgram(s: Snapshot)
    requires IsProgram(s)
    ensures IsProgram(Apply(s, AddStage)) && IsProgram(Apply(s, AddGas))
  {
    AddKeepsLists(s.sequence.value, |s.stages|, |s.gases|);
  }

  lemma RemoveStageKeepsProgram(s: Snapshot, i: nat)
    requires IsProgram(s)
    ensures IsProgram(Apply(s, RemoveStage(i)))
  {
    if Enabled(s, RemoveStage(i)) {
      var p := PositionOf(s.sequence.value, |s.stages|, |s.gases|, VcdStage(i + 1));
      RemovedLists(s.sequence.value, |s.stages|, |s.gases|, p);
    }
  }

  lemma RemoveGasKeepsProgram(s: Snapshot, i: nat)
    requires IsProgram(s)
    ensures IsProgram(Apply(s, RemoveGas(i)))
  {
    if Enabled(s, RemoveGas(i)) {
      var p := PositionOf(s.sequence.value, |s.stages|, |s.gases|, GasStage(i + 1));
      RemovedLists(s.sequence.value, |s.stages|, |s.gases|, p);
    }
  }

  lemma SwapKeepsDistinct(q: seq<Ref>, i: nat, j: nat)
    requires Distinct(q) && i < |q| && j < |q| && i != j
    ensures Distinct(SwapAt(q, i, j))
  {
  }

  lemma SwapKeepsProgram(s: Snapshot, i: nat, up: bool)
    requires IsProgram(s)
    ensures IsProgram(Apply(s, Swap(i, up)))
  {
    if Enabled(s, Swap(i, up)) {
      SwapKeepsDistinct(s.sequence.value, i, if up then i - 1 else i + 1);
    }
  }

  /** One edit keeps the sequence acceptable to the backend. */
  lemma ApplyKeepsAccepted(s: Snapshot, e: Edit)
    requires Accepts(s)
    ensures Accepts(Apply(s, e))
  {
    AcceptsPermutations(s);
    AcceptsPermutations(Apply(s, e));
    match e
    case AddStage => AddKeepsProgram(s);
    case AddGas => AddKeepsProgram(s);
    case RemoveStage(i) => RemoveStageKeepsProgram(s, i);
    case RemoveGas(i) => RemoveGasKeepsProgram(s, i);
    case Swap(i, up) => SwapKeepsProgram(s, i, up);
    case SetStage(_, _) =>
    case SetGas(_, _) =>
  }

  /** Every run of edits keeps the sequence acceptable to the backend. */
  lemma {:induction false} RunKeepsAccepted(s: Snapshot, edits: seq<Edit>)
    requires Accepts(s)
    ensures Accepts(Run(s, edits))
    decreases |edits|
  {
    if edits != [] {
      ApplyKeepsAccepted(s, edits[0]);
      RunKeepsAccepted(Apply(s, edits[0]), edits[1..]);
    }
  }

  // ----- what an edit does to the program -----

  // A reference that survives a removal still leads to the stage it led to before.
  lemma SurvivorLeadsToSame(s: Snapshot, e: Edit, removed: Ref, r: Ref)
    requires Enabled(s, e)
    requires (e.RemoveStage? && removed == VcdStage(e.index + 1)) || (e.RemoveGas? && removed == GasStage(e.index + 1))
    requires IsExpected(r, |s.stages|, |s.gases|) && r != removed
    ensures Deref(Apply(s, e).stages, Apply(s, e).gases, Renumber(r, removed)) == Deref(s.stages, s.gases, r)
  {
  }

  lemma RemovedSequence(s: Snapshot, e: Edit, removed: Ref) returns (p: nat)
    requires IsProgram(s) && Enabled(s, e)
    requires (e.RemoveStage? && removed == VcdStage(e.index + 1)) || (e.RemoveGas? && removed == GasStage(e.index + 1))
    ensures p < |s.sequence.value| && s.sequence.value[p] == removed
    ensures Apply(s, e).sequence == Some(RenumberAll(Delete(s.sequence.value, p), removed))
  {
    p := PositionOf(s.sequence.value, |s.stages|, |s.gases|, removed);
    WithoutDeletes(s.sequence.value, p);
  }

  lemma StepSurvives(s: Snapshot, e: Edit, removed: Ref, p: nat, k: nat)
    requires IsProgram(s) && Enabled(s, e)
    requires (e.RemoveStage? && removed == VcdStage(e.index + 1)) || (e.RemoveGas? && removed == GasStage(e.index + 1))
    requires p < |s.sequence.value| && s.sequence.value[p] == removed && k < |s.sequence.value| - 1
    requires Apply(s, e).sequence == Some(RenumberAll(Delete(s.sequence.value, p), removed))
    ensures Deref(Apply(s, e).stages, Apply(s, e).gases, Apply(s, e).sequence.value[k])
         == Deref(s.stages, s.gases, s.sequence.value[if k < p then k else k + 1])
  {
    var q := s.sequence.value;
    var was := if k < p then k else k + 1;
    assert IsExpected(q[was], |s.stages|, |s.gases|);
    assert q[was] != q[p];
    SurvivorLeadsToSame(s, e, removed, q[was]);
  }

  lemma SameSteps(left: seq<Step>, right: seq<Step>, p: nat)
    requires p < |right| && |left| == |right| - 1
    requires forall k :: 0 <= k < |left| ==> left[k] == right[if k < p then k else k + 1]
    ensures left == Delete(right, p)
  {
  }

  /** Removing a stage, of either kind, deletes its one step from the program and leaves the others as they were,
      in the same order. */
  lemma {:induction false} RemoveDeletesStep(s: Snapshot, e: Edit, removed: Ref) returns (p: nat)
    requires Accepts(s) && Enabled(s, e)
    requires (e.RemoveStage? && removed == VcdStage(e.index + 1)) || (e.RemoveGas? && removed == GasStage(e.index + 1))
    ensures p < |Program(s)| && s.sequence.value[p] == removed
    ensures Program(Apply(s, e)) == Delete(Program(s), p)
  {
    AcceptsPermutations(s);
    p := RemovedSequence(s, e, removed);
    var left, right := Program(Apply(s, e)), Program(s);
    forall k | 0 <= k < |left| ensures left[k] == right[if k < p then k else k + 1] {
      StepSurvives(s, e, removed, p, k);
    }
    SameSteps(left, right, p);
  }

  lemma SamePrefix(s: Snapshot, e: Edit, r: Ref)
    requires (e.AddStage? || e.AddGas?) && IsExpected(r, |s.stages|, |s.gases|)
    ensures Deref(Apply(s, e).stages, Apply(s, e).gases, r) == Deref(s.stages, s.gases, r)
  {
  }

  lemma NewStep(s: Snapshot, e: Edit)
    requires Enabled(s, e) && (e.AddStage? || e.AddGas?)
    ensures Deref(Apply(s, e).stages, Apply(s, e).gases,
                  if e.AddStage? then VcdStage(|s.stages| + 1) else GasStage(|s.gases| + 1))
         == if e.AddStage? then Evacuate(BLANK_STAGE) else Backfill(BLANK_GAS)
  {
  }

  lemma AddedSequence(s: Snapshot, e: Edit)
    requires IsProgram(s) && Enabled(s, e) && (e.AddStage? || e.AddGas?)
    ensures Apply(s, e).sequence
         == Some(s.sequence.value + [if e.AddStage? then VcdStage(|s.stages| + 1) else GasStage(|s.gases| + 1)])
  {
  }

  lemma Appended(left: seq<Step>, right: seq<Step>, last: Step)
    requires |left| == |right| + 1 && left[|right|] == last && forall k :: 0 <= k < |right| ==> left[k] == right[k]
    ensures left == right + [last]
  {
  }

  /** Adding a stage appends one blank step. */
  lemma {:induction false} AddAppendsStep(s: Snapshot, e: Edit)
    requires Accepts(s) && Enabled(s, e) && (e.AddStage? || e.AddGas?)
    ensures Program(Apply(s, e)) == Program(s) + [if e.AddStage? then Evacuate(BLANK_STAGE) else Backfill(BLANK_GAS)]
  {
    AcceptsPermutations(s);
    AddedSequence(s, e);
    NewStep(s, e);
    var left, right := Program(Apply(s, e)), Program(s);
    forall k | 0 <= k < |right| ensures left[k] == right[k] {
      assert IsExpected(s.sequence.value[k], |s.stages|, |s.gases|);
      SamePrefix(s, e, s.sequence.value[k]);
    }
    Appended(left, right, if e.AddStage? then Evacuate(BLANK_STAGE) else Backfill(BLANK_GAS));
  }

  lemma ResolveSwapped(stages: seq<Stage>, gases: seq<Gas>, q: seq<Ref>, i: nat, j: nat)
    requires i < |q| && j < |q|
    ensures Resolve(stages, gases, SwapAt(q, i, j)) == SwapAt(Resolve(stages, gases, q), i, j)
  {
  }

  // Swapping exchanges two neighbouring steps.
  lemma {:induction false} SwapExchangesSteps(s: Snapshot, i: nat, up: bool, j: int)
    requires Accepts(s) && Enabled(s, Swap(i, up)) && j == if up then i - 1 else i + 1
    ensures 0 <= j < |Program(s)| && i < |Program(s)|
    ensures Program(Apply(s, Swap(i, up))) == SwapAt(Program(s), i, j)
  {
    ResolveSwapped(s.stages, s.gases, s.sequence.value, i, j);
  }

  /** An accepted program has no dangling reference, and runs every stage of both lists exactly once. */
  lemma ProgramRunsEverything(s: Snapshot, r: Ref) returns (p: nat)
    requires Accepts(s) && IsExpected(r, |s.stages|, |s.gases|)
    ensures |Program(s)| == |s.stages| + |s.gases| && forall k :: 0 <= k < |Program(s)| ==> !Program(s)[k].Dangling?
    ensures p < |Program(s)| && s.sequence.value[p] == r
    ensures forall k :: 0 <= k < |Program(s)| && s.sequence.value[k] == r ==> k == p
  {
    AcceptsPermutations(s);
    p := PositionOf(s.sequence.value, |s.stages|, |s.gases|, r);
    forall k | 0 <= k < |Program(s)| ensures !Program(s)[k].Dangling? {
      assert IsExpected(s.sequence.value[k], |s.stages|, |s.gases|);
    }
  }

  // ----- every edit is one edit of the program -----

  datatype Change = Append(step: Step) | DeleteAt(p: nat) | Exchange(p: nat, q: nat) | Replace(p: nat, step: Step)

  predicate Fits(program: seq<Step>, c: Change) {
    match c
    case Append(_) => true
    case DeleteAt(p) => p < |program|
    case Exchange(p, q) => p < |program| && q < |program|
    case Replace(p, _) => p < |program|
  }

  function Changed(program: seq<Step>, c: Change): seq<Step>
    requires Fits(program, c)
  {
    match c
    case Append(step) => program + [step]
    case DeleteAt(p) => Delete(program, p)
    case Exchange(p, q) => SwapAt(program, p, q)
    case Replace(p, step) => program[p := step]
  }

  predicate StandsAt(s: Snapshot, p: nat, r: Ref) {
    s.sequence.Some? && p < |s.sequence.value| && s.sequence.value[p] == r
  }

  // What the button is meant to do to the program.
  predicate IsMeant(s: Snapshot, e: Edit, c: Change) {
    match e
    case AddStage => c == Append(Evacuate(Stage("", None, None)))
    case AddGas => c == Append(Backfill(Gas("N2", None, None, None)))
    case RemoveStage(i) => c.DeleteAt? && StandsAt(s, c.p, VcdStage(i + 1))
    case RemoveGas(i) => c.DeleteAt? && StandsAt(s, c.p, GasStage(i + 1))
    case Swap(i, up) => c.Exchange? && c.p == i && c.q == if up then i - 1 else i + 1
    case SetStage(i, stage) => c.Replace? && c.step == Evacuate(stage) && StandsAt(s, c.p, VcdStage(i + 1))
    case SetGas(i, gas) => c.Replace? && c.step == Backfill(gas) && StandsAt(s, c.p, GasStage(i + 1))
  }

  // The button is disabled, or there is none: a list is full, the last evacuation stage would go, a step would move
  // over an end, or there is nothing at the index.
  predicate HasNoButton(s: Snapshot, e: Edit) {
    match e
    case AddStage => |s.stages| == 5
    case AddGas => |s.gases| == 5
    case RemoveStage(i) => i >= |s.stages| || |s.stages| == 1
    case RemoveGas(i) => i >= |s.gases|
    case Swap(i, up) => i >= |Program(s)| || i == if up then 0 else |Program(s)| - 1
    case SetStage(i, _) => i >= |s.stages|
    case SetGas(i, _) => i >= |s.gases|
  }

  predicate IsSet(e: Edit, r: Ref, step: Step) {
    || (e.SetStage? && r == VcdStage(e.index + 1) && step == Evacuate(e.stage))
    || (e.SetGas? && r == GasStage(e.index + 1) && step == Backfill(e.gas))
  }

  lemma SetLeadsTo(s: Snapshot, e: Edit, ref: Ref, step: Step, r: Ref)
    requires Enabled(s, e) && IsSet(e, ref, step)
    ensures Deref(Apply(s, e).stages, Apply(s, e).gases, r) == if r == ref then step else Deref(s.stages, s.gases, r)
  {
  }

  lemma Replaced(left: seq<Step>, right: seq<Step>, p: nat, step: Step)
    requires p < |right| == |left| && left[p] == step
    requires forall k :: 0 <= k < |left| && k != p ==> left[k] == right[k]
    ensures left == right[p := step]
  {
  }

  lemma SetReplacesStep(s: Snapshot, e: Edit, ref: Ref, step: Step) returns (p: nat)
    requires Accepts(s) && Enabled(s, e) && IsSet(e, ref, step)
    ensures StandsAt(s, p, ref) && p < |Program(s)|
    ensures Program(Apply(s, e)) == Program(s)[p := step]
  {
    p := ProgramRunsEverything(s, ref);
    var left, right := Program(Apply(s, e)), Program(s);
    assert Apply(s, e).sequence == s.sequence;
    forall k | 0 <= k < |right| ensures left[k] == if k == p then step else right[k] {
      SetLeadsTo(s, e, ref, step, s.sequence.value[k]);
    }
    Replaced(left, right, p, step);
  }

  lemma {:induction false} EnabledIsOneChange(s: Snapshot, e: Edit) returns (c: Change)
    requires Accepts(s) && Enabled(s, e)
    ensures IsMeant(s, e, c) && Fits(Program(s), c)
    ensures Program(Apply(s, e)) == Changed(Program(s), c)
  {
    match e
    case AddStage =>
      AddAppendsStep(s, e);
      c := Append(Evacuate(BLANK_STAGE));
    case AddGas =>
      AddAppendsStep(s, e);
      c := Append(Backfill(BLANK_GAS));
    case RemoveStage(i) =>
      var p := RemoveDeletesStep(s, e, VcdStage(i + 1));
      c := DeleteAt(p);
    case RemoveGas(i) =>
      var p := RemoveDeletesStep(s, e, GasStage(i + 1));
      c := DeleteAt(p);
    case Swap(i, up) =>
      var j := if up then i - 1 else i + 1;
      SwapExchangesSteps(s, i, up, j);
      c := Exchange(i, j);
    case SetStage(i, stage) =>
      var p := SetReplacesStep(s, e, VcdStage(i + 1), Evacuate(stage));
      c := Replace(p, Evacuate(stage));
    case SetGas(i, gas) =>
      var p := SetReplacesStep(s, e, GasStage(i + 1), Backfill(gas));
      c := Replace(p, Backfill(gas));
  }

  /** Whatever an edit does to lists, references and numbers, to the program of steps that the snapshot stands for it is
      the one change the button is meant to make: append, delete, exchange or replace a step. An edit without a button
      changes nothing. */
  lemma EditIsOneChange(s: Snapshot, e: Edit) returns (c: Option<Change>)
    requires Accepts(s)
    ensures c.None? <==> HasNoButton(s, e)
    ensures c.None? ==> Apply(s, e) == s
    ensures c.Some? ==> IsMeant(s, e, c.value) && Fits(Program(s), c.value)
    ensures c.Some? ==> Program(Apply(s, e)) == Changed(Program(s), c.value)
  {
    AcceptsPermutations(s);
    c := None;
    if Enabled(s, e) {
      var change := EnabledIsOneChange(s, e);
      c := Some(change);
    }
  }
}
