// Route isolation on the batch page (frontend/src/pages/BatchDetailPage.tsx): every mutation
// captures the route generation it started on and does nothing once the route has moved on.
module RunSheet {
  import opened Wrappers
  import Api = ApiResource

  // A run sheet, as far as the page edits it: the batch it belongs to and the saved version of each preparation.
  datatype Sheet = Sheet(batchId: nat, preparations: map<nat, nat>)

  datatype Problem = SaveFailed | RefreshFailed

  datatype Toast = PreparationSaved(generation: nat) | StatusChanged(generation: nat, reload: nat)

  // Where an asynchronous handler is waiting.
  datatype Phase =
    // savePreparation, in its PATCH; its closure holds the resource's data, and so many responses were applied by then
    | Saving(captured: Option<Sheet>, applied: nat)
    | Patching                                     // changeBatchStatus, in its PATCH
    | Refetching(reload: nat)                      // refetchSheet, in resource.reload()
    | Refetched(reload: nat, outcome: Api.Outcome) // the reload has settled, the handler has not resumed yet

  datatype Op = Op(generation: nat, phase: Phase)

  datatype Page = Page(
    route: nat, generation: nat,
    localSheet: Option<Sheet>, actionError: Option<Problem>, submitting: bool, refreshFailed: bool,
    toasts: seq<Toast>,
    resource: Api.State<Sheet>,
    ops: map<nat, Op>, nextOp: nat)

  datatype Event =
    | ChangeRoute(route: nat)                 // the layout effect
    | Hook(e: Api.Event<Sheet>)               // the resource hook's own effects, reloads and responses
    | SuccessEffect                           // the effect on resource.status
    | StartSave
    | SaveOk(op: nat, preparation: nat, version: nat)
    | SaveError(op: nat)
    | StartStatus
    | PatchOk(op: nat)
    | PatchError(op: nat)
    | Settle(op: nat, e: Api.Event<Sheet>)    // the handler's own reload settles
    | Resume(op: nat)                         // and the handler runs on

  function Initial(route: nat): Page {
    Page(route, 0, None, None, false, false, [], Api.Initial(0), map[], 0)
  }

  // The optimistic copy, or without one the resource's data, unless it belongs to another batch.
  function ActiveSheet(p: Page): Option<Sheet> {
    var sheet := if p.localSheet.Some? then p.localSheet else p.resource.data;
    if sheet.Some? && sheet.value.batchId == p.route then sheet else None
  }

  predicate IsCurrentGeneration(p: Page, op: Op) { p.generation == op.generation }

  function Without(ops: map<nat, Op>, op: nat): map<nat, Op> {
    map k | k in ops && k != op :: ops[k]
  }

  function Patched(sheet: Sheet, preparation: nat, version: nat): Sheet {
    if preparation !in sheet.preparations then sheet
    else sheet.(preparations := sheet.preparations[preparation := version])
  }

  // replacePreparation, as the render that started the save knows it: on the optimistic copy there is now, or else on
  // the data there was then.
  function ReplacePreparation(p: Page, captured: Option<Sheet>, preparation: nat, version: nat): Option<Sheet> {
    var base := if p.localSheet.Some? then p.localSheet else captured;
    if base.None? then None else Some(Patched(base.value, preparation, version))
  }

  // What the closure of a save started now holds.
  function Captured(p: Page): Phase { Saving(p.resource.data, |p.resource.applied|) }

  predicate Possible(p: Page, e: Event) {
    match e
    case ChangeRoute(_) => true
    case Hook(h) => Api.Possible(p.resource, h) && ((h.Resolve? || h.Reject?) ==> !Awaited(p, h.id))
    case SuccessEffect => p.resource.status == Api.Success
    case StartSave => true
    case SaveOk(op, _, _) => op in p.ops && p.ops[op].phase.Saving?
    case SaveError(op) => op in p.ops && p.ops[op].phase.Saving?
    case StartStatus => true
    case PatchOk(op) => op in p.ops && p.ops[op].phase.Patching?
    case PatchError(op) => op in p.ops && p.ops[op].phase.Patching?
    case Settle(op, h) =>
      && op in p.ops && p.ops[op].phase.Refetching?
      && (h.Resolve? || h.Reject?) && h.id == p.ops[op].phase.reload && Api.Possible(p.resource, h)
    case Resume(op) => op in p.ops && p.ops[op].phase.Refetched?
  }

  // Some handler is waiting for this request.
  predicate Awaited(p: Page, id: nat) {
    exists op :: op in p.ops && p.ops[op].phase == Refetching(id)
  }

  function Next(p: Page, e: Event): Page
    requires Possible(p, e)
  {
    match e
    case ChangeRoute(route) =>
      p.(route := route, generation := p.generation + 1,
         localSheet := None, actionError := None, submitting := false, refreshFailed := false)
    case Hook(h) => p.(resource := Api.Next(p.resource, h))
    case SuccessEffect => p.(refreshFailed := false, actionError := None, localSheet := None)
    case StartSave => p.(ops := p.ops[p.nextOp := Op(p.generation, Captured(p))], nextOp := p.nextOp + 1)
    case SaveOk(op, preparation, version) =>
      var done := p.(ops := Without(p.ops, op));
      if !IsCurrentGeneration(p, p.ops[op]) then done
      else done.(localSheet := ReplacePreparation(p, p.ops[op].phase.captured, preparation, version),
                 toasts := p.toasts + [PreparationSaved(p.ops[op].generation)])
    case SaveError(op) => p.(ops := Without(p.ops, op))
    case StartStatus =>
      if ActiveSheet(p).None? then p
      else p.(submitting := true, actionError := None,
              ops := p.ops[p.nextOp := Op(p.generation, Patching)], nextOp := p.nextOp + 1)
    case PatchOk(op) =>
      if !IsCurrentGeneration(p, p.ops[op]) then p.(ops := Without(p.ops, op))
      else
        var resource := Api.Issue(p.resource);
        p.(resource := resource, ops := p.ops[op := Op(p.generation, Refetching(resource.requestId))])
    case PatchError(op) =>
      var done := p.(ops := Without(p.ops, op));
      if !IsCurrentGeneration(p, p.ops[op]) then done
      else done.(actionError := Some(SaveFailed), submitting := false)
    case Settle(op, h) =>
      p.(resource := Api.Next(p.resource, h),
         ops := p.ops[op := p.ops[op].(phase := Refetched(h.id, Api.OutcomeOf(p.resource, h)))])
    case Resume(op) =>
      var done := p.(ops := Without(p.ops, op));
      if !IsCurrentGeneration(p, p.ops[op]) then done
      else
        match p.ops[op].phase.outcome
        case Applied =>
          done.(localSheet := None, actionError := None, refreshFailed := false, submitting := false,
                toasts := p.toasts + [StatusChanged(p.ops[op].generation, p.ops[op].phase.reload)])
        case Superseded => done.(submitting := false)
        case Failed =>
          done.(localSheet := None, refreshFailed := true, actionError := Some(RefreshFailed), submitting := false)
  }

  predicate IsRun(p: Page, events: seq<Event>)
    decreases |events|
  {
    events == [] || (Possible(p, events[0]) && IsRun(Next(p, events[0]), events[1..]))
  }

  function Run(p: Page, events: seq<Event>): Page
    requires IsRun(p, events)
    decreases |events|
  {
    if events == [] then p else Run(Next(p, events[0]), events[1..])
  }

  // ----- isolation -----

  // The handler an event continues.
  function Continues(e: Event): Option<nat> {
    match e
    case SaveOk(op, _, _) => Some(op)
    case SaveError(op) => Some(op)
    case PatchOk(op) => Some(op)
    case PatchError(op) => Some(op)
    case Resume(op) => Some(op)
    case _ => None
  }

  // A handler started under an earlier route generation that runs on after the route changed writes nothing: no sheet,
  // no error, no submitting flag, no toast, and it starts no reload.
  lemma StaleHandlerDoesNothing(p: Page, e: Event)
    requires Possible(p, e) && Continues(e).Some? && p.ops[Continues(e).value].generation != p.generation
    ensures Next(p, e) == p.(ops := Without(p.ops, Continues(e).value))
  {
  }

  ghost predicate Isolated(p: Page) {
    && Api.Safe(p.resource)
    && (forall k :: k in p.ops ==> k < p.nextOp && p.ops[k].generation <= p.generation)
    // a settled reload that reported "applied" really is among the applied responses
    && (forall k :: k in p.ops && p.ops[k].phase.Refetched? && p.ops[k].phase.outcome == Api.Applied ==>
          HasApplied(p.resource.applied, p.ops[k].phase.reload))
    && (forall i :: 0 <= i < |p.toasts| && p.toasts[i].StatusChanged? ==>
          HasApplied(p.resource.applied, p.toasts[i].reload))
    && (forall i :: 0 <= i < |p.toasts| ==> p.toasts[i].generation <= p.generation)
    // the button is disabled only while a status change of this route is under way
    && (p.submitting ==> exists k :: k in p.ops && p.ops[k].generation == p.generation && !p.ops[k].phase.Saving?)
  }

  predicate HasApplied(applied: seq<Api.Response<Sheet>>, id: nat) {
    exists i :: 0 <= i < |applied| && applied[i].id == id
  }

  lemma InitialIsIsolated(route: nat)
    ensures Isolated(Initial(route))
  {
  }

  lemma HookExtends(r: Api.State<Sheet>, h: Api.Event<Sheet>, id: nat)
    requires HasApplied(r.applied, id)
    ensures HasApplied(Api.Next(r, h).applied, id)
  {
    Api.NextExtends(r, h);
    var i :| 0 <= i < |r.applied| && r.applied[i].id == id;
    assert Api.Next(r, h).applied[i].id == id;
  }

  lemma HookIsIsolated(p: Page, h: Api.Event<Sheet>)
    requires Isolated(p) && Api.Possible(p.resource, h)
    ensures Isolated(p.(resource := Api.Next(p.resource, h)))
  {
    Api.NextIsSafe(p.resource, h);
    forall id | HasApplied(p.resource.applied, id) ensures HasApplied(Api.Next(p.resource, h).applied, id) {
      HookExtends(p.resource, h, id);
    }
  }

  lemma SettleIsIsolated(p: Page, op: nat, h: Api.Event<Sheet>)
    requires Isolated(p) && Possible(p, Settle(op, h))
    ensures Isolated(Next(p, Settle(op, h)))
  {
    HookIsIsolated(p, h);
    var p' := Next(p, Settle(op, h));
    if Api.OutcomeOf(p.resource, h) == Api.Applied {
      Api.AppliedIsTrue(p.resource, h);
      assert p'.resource.applied[|p'.resource.applied| - 1].id == h.id;
    }
    if p.submitting {
      var k :| k in p.ops && p.ops[k].generation == p.generation && !p.ops[k].phase.Saving?;
      assert k in p'.ops && p'.ops[k].generation == p'.generation && !p'.ops[k].phase.Saving?;
    }
  }

  lemma PatchOkIsIsolated(p: Page, op: nat)
    requires Isolated(p) && Possible(p, PatchOk(op))
    ensures Isolated(Next(p, PatchOk(op)))
  {
    var p' := Next(p, PatchOk(op));
    Api.NextIsSafe(p.resource, Api.Reload);
    if p.submitting {
      var k :| k in p.ops && p.ops[k].generation == p.generation && !p.ops[k].phase.Saving?;
      assert k in p'.ops && p'.ops[k].generation == p'.generation && !p'.ops[k].phase.Saving?;
    }
  }

  lemma DropIsIsolated(p: Page, op: nat)
    requires Isolated(p) && op in p.ops && (p.ops[op].generation != p.generation || p.ops[op].phase.Saving? || !p.submitting)
    ensures Isolated(p.(ops := Without(p.ops, op)))
  {
    if p.submitting {
      var k :| k in p.ops && p.ops[k].generation == p.generation && !p.ops[k].phase.Saving?;
      assert k in Without(p.ops, op);
    }
  }

  /** Every step keeps the invariant. */
  lemma NextIsIsolated(p: Page, e: Event)
    requires Isolated(p) && Possible(p, e)
    ensures Isolated(Next(p, e))
  {
    match e
    case ChangeRoute(_) =>
    case Hook(h) => HookIsIsolated(p, h);
    case SuccessEffect =>
    case StartSave => StartIsIsolated(p, Captured(p));
    case SaveOk(op, _, _) => DropIsIsolated(p, op);
    case SaveError(op) => DropIsIsolated(p, op);
    case StartStatus =>
      if ActiveSheet(p).Some? {
        StartIsIsolated(p, Patching);
      }
    case PatchOk(op) => PatchOkIsIsolated(p, op);
    case PatchError(op) => PatchErrorIsIsolated(p, op);
    case Settle(op, h) => SettleIsIsolated(p, op, h);
    case Resume(op) => ResumeIsIsolated(p, op);
  }

  lemma StartIsIsolated(p: Page, phase: Phase)
    requires Isolated(p) && (phase.Saving? || phase.Patching?)
    ensures Isolated(p.(ops := p.ops[p.nextOp := Op(p.generation, phase)], nextOp := p.nextOp + 1,
                        submitting := p.submitting || phase.Patching?))
  {
    var ops' := p.ops[p.nextOp := Op(p.generation, phase)];
    assert p.nextOp in ops' && ops'[p.nextOp] == Op(p.generation, phase);
    if p.submitting {
      var k :| k in p.ops && p.ops[k].generation == p.generation && !p.ops[k].phase.Saving?;
      assert k in ops' && ops'[k] == p.ops[k];
    }
  }

  predicate MayShow(p: Page, toasts: seq<Toast>) {
    && |toasts| == |p.toasts| + 1 && p.toasts <= toasts
    && toasts[|p.toasts|].generation <= p.generation
    && (toasts[|p.toasts|].StatusChanged? ==> HasApplied(p.resource.applied, toasts[|p.toasts|].reload))
  }

  // A status handler of the current route ends.
  lemma FinishIsIsolated(p: Page, op: nat, p': Page)
    requires Isolated(p) && op in p.ops
    requires p' == p.(ops := Without(p.ops, op), submitting := false, localSheet := p'.localSheet,
                      actionError := p'.actionError, refreshFailed := p'.refreshFailed, toasts := p'.toasts)
    requires p'.toasts == p.toasts || MayShow(p, p'.toasts)
    ensures Isolated(p')
  {
  }

  lemma PatchErrorIsIsolated(p: Page, op: nat)
    requires Isolated(p) && Possible(p, PatchError(op))
    ensures Isolated(Next(p, PatchError(op)))
  {
    if p.ops[op].generation != p.generation {
      DropIsIsolated(p, op);
    } else {
      FinishIsIsolated(p, op, Next(p, PatchError(op)));
    }
  }

  lemma ResumeIsIsolated(p: Page, op: nat)
    requires Isolated(p) && Possible(p, Resume(op))
    ensures Isolated(Next(p, Resume(op)))
  {
    if p.ops[op].generation != p.generation {
      DropIsIsolated(p, op);
    } else {
      FinishIsIsolated(p, op, Next(p, Resume(op)));
    }
  }

  /** Every run keeps the invariant. */
  lemma {:induction false} RunIsIsolated(p: Page, events: seq<Event>)
    requires Isolated(p) && IsRun(p, events)
    ensures Isolated(Run(p, events))
    decreases |events|
  {
    if events != [] {
      NextIsIsolated(p, events[0]);
      RunIsIsolated(Next(p, events[0]), events[1..]);
    }
  }

  /** The invariant holds in every state that any interleaving reaches from the first render. */
  lemma PageIsIsolated(route: nat, events: seq<Event>)
    requires IsRun(Initial(route), events)
    ensures Isolated(Run(Initial(route), events))
  {
    InitialIsIsolated(route);
    RunIsIsolated(Initial(route), events);
  }

  /** A toast is only ever shown for work started on the route that is current when it appears, and a status
      change is only announced when the handler's own reload is the one that was applied. */
  lemma ToastsAreCurrent(p: Page, e: Event)
    requires Isolated(p) && Possible(p, e) && Next(p, e).toasts != p.toasts
    ensures |Next(p, e).toasts| == |p.toasts| + 1 && p.toasts <= Next(p, e).toasts
    ensures var toast := Next(p, e).toasts[|p.toasts|];
      && toast.generation == p.generation == Next(p, e).generation
      && (toast.StatusChanged? ==> HasApplied(p.resource.applied, toast.reload) && Next(p, e).localSheet.None?)
  {
  }

  // The event continues a handler of the current route.
  predicate IsOwn(p: Page, e: Event)
    requires Possible(p, e)
  {
    Continues(e).Some? && p.ops[Continues(e).value].generation == p.generation
  }

  // It ends a status change of the current route, whose reload had the outcome.
  predicate Ends(p: Page, e: Event, outcome: Api.Outcome)
    requires Possible(p, e)
  {
    e.Resume? && IsOwn(p, e) && p.ops[e.op].phase.outcome == outcome
  }

  /** What the page shows, item by item, and the only steps that change it. A new route, a load and an applied reload drop
      the optimistic copy and every error; a failed reload drops the copy and blocks the sheet; a superseded one leaves
      both. The button is disabled from the start of a status change to its end, or to a new route. */
  lemma PageShows(p: Page, e: Event)
    requires Possible(p, e)
    ensures var n := Next(p, e);
      var clears := e.ChangeRoute? || e.SuccessEffect? || Ends(p, e, Api.Applied);
      var fails := Ends(p, e, Api.Failed);
      var starts := e.StartStatus? && ActiveSheet(p).Some?;
      && (if clears || fails then n.localSheet.None? else (e.SaveOk? && IsOwn(p, e)) || n.localSheet == p.localSheet)
      && (n.refreshFailed <==> fails || (p.refreshFailed && !clears))
      && (n.actionError.Some? <==>
            fails || (e.PatchError? && IsOwn(p, e)) || (p.actionError.Some? && !clears && !starts))
      && (n.submitting <==>
            starts || (p.submitting && !e.ChangeRoute? && !((e.Resume? || e.PatchError?) && IsOwn(p, e))))
      && (|n.toasts| > |p.toasts| <==> (e.SaveOk? && IsOwn(p, e)) || Ends(p, e, Api.Applied))
      && n.route == (if e.ChangeRoute? then e.route else p.route)
      && n.generation == p.generation + if e.ChangeRoute? then 1 else 0
  {
  }

  // ----- non-interference -----

  predicate IsStale(p: Page, e: Event)
    requires Possible(p, e)
  {
    Continues(e).Some? && p.ops[Continues(e).value].generation != p.generation
  }

  // The run with every stale continuation left out.
  function Live(p: Page, events: seq<Event>): seq<Event>
    requires IsRun(p, events)
    decreases |events|
  {
    if events == [] then []
    else (if IsStale(p, events[0]) then [] else [events[0]]) + Live(Next(p, events[0]), events[1..])
  }

  // q is p, except that some handlers of earlier routes are still waiting in q.
  ghost predicate Alike(p: Page, q: Page) {
    && q == p.(ops := q.ops)
    && (forall k :: k in p.ops ==> k in q.ops && q.ops[k] == p.ops[k])
    && (forall k :: k in q.ops ==> k < q.nextOp)
    && (forall k :: k in q.ops && k !in p.ops ==> q.ops[k].generation < p.generation && !q.ops[k].phase.Refetching?)
  }

  lemma AwaitedAlike(p: Page, q: Page, id: nat)
    requires Alike(p, q)
    ensures Awaited(p, id) <==> Awaited(q, id)
  {
  }

  // Dropping one handler from both pages.
  lemma DropAlike(p: Page, q: Page, op: nat)
    requires Alike(p, q) && op in p.ops
    ensures Alike(p.(ops := Without(p.ops, op)), q.(ops := Without(q.ops, op)))
  {
  }

  lemma LiveSaveAlike(p: Page, q: Page, e: Event)
    requires Isolated(p) && Alike(p, q) && Possible(p, e) && !IsStale(p, e) && (e.SaveOk? || e.SaveError?)
    ensures Possible(q, e) && Alike(Next(p, e), Next(q, e))
  {
    DropAlike(p, q, e.op);
  }

  lemma LivePatchAlike(p: Page, q: Page, e: Event)
    requires Isolated(p) && Alike(p, q) && Possible(p, e) && !IsStale(p, e) && (e.PatchOk? || e.PatchError?)
    ensures Possible(q, e) && Alike(Next(p, e), Next(q, e))
  {
    DropAlike(p, q, e.op);
  }

  lemma LiveResumeAlike(p: Page, q: Page, e: Event)
    requires Isolated(p) && Alike(p, q) && Possible(p, e) && !IsStale(p, e) && e.Resume?
    ensures Possible(q, e) && Alike(Next(p, e), Next(q, e))
  {
    DropAlike(p, q, e.op);
  }

  lemma HookAlike(p: Page, q: Page, h: Api.Event<Sheet>)
    requires Alike(p, q) && Possible(p, Hook(h))
    ensures Possible(q, Hook(h)) && Alike(Next(p, Hook(h)), Next(q, Hook(h)))
  {
    if h.Resolve? || h.Reject? {
      AwaitedAlike(p, q, h.id);
    }
  }

  lemma SettleAlike(p: Page, q: Page, e: Event)
    requires Isolated(p) && Alike(p, q) && Possible(p, e) && e.Settle?
    ensures Possible(q, e) && Alike(Next(p, e), Next(q, e))
  {
  }

  lemma OtherStepAlike(p: Page, q: Page, e: Event)
    requires Isolated(p) && Alike(p, q) && Possible(p, e) && Continues(e).None? && !e.Hook? && !e.Settle?
    ensures Possible(q, e) && Alike(Next(p, e), Next(q, e))
  {
  }

  lemma LiveStepAlike(p: Page, q: Page, e: Event)
    requires Isolated(p) && Alike(p, q) && Possible(p, e) && !IsStale(p, e)
    ensures Possible(q, e) && Alike(Next(p, e), Next(q, e))
  {
    match e
    case SaveOk(_, _, _) => LiveSaveAlike(p, q, e);
    case SaveError(_) => LiveSaveAlike(p, q, e);
    case PatchOk(_) => LivePatchAlike(p, q, e);
    case PatchError(_) => LivePatchAlike(p, q, e);
    case Resume(_) => LiveResumeAlike(p, q, e);
    case Hook(h) => HookAlike(p, q, h);
    case Settle(_, _) => SettleAlike(p, q, e);
    case _ => OtherStepAlike(p, q, e);
  }

  lemma StaleStepAlike(p: Page, q: Page, e: Event)
    requires Isolated(p) && Alike(p, q) && Possible(p, e) && IsStale(p, e)
    ensures Alike(Next(p, e), q)
  {
    StaleHandlerDoesNothing(p, e);
  }

  /** The page cannot tell whether handlers of an earlier route ever ran on: leaving out all their continuations
      is again a possible run, and it ends with the same sheet, errors, flags, toasts and resource. */
  lemma {:induction false} StaleHandlersDoNotInterfere(p: Page, q: Page, events: seq<Event>)
    requires Isolated(p) && Alike(p, q) && IsRun(p, events)
    ensures IsRun(q, Live(p, events))
    ensures Alike(Run(p, events), Run(q, Live(p, events)))
    decreases |events|
  {
    if events != [] {
      var e, rest := events[0], events[1..];
      NextIsIsolated(p, e);
      if IsStale(p, e) {
        StaleStepAlike(p, q, e);
        StaleHandlersDoNotInterfere(Next(p, e), q, rest);
        assert Live(p, events) == Live(Next(p, e), rest);
      } else {
        LiveStepAlike(p, q, e);
        StaleHandlersDoNotInterfere(Next(p, e), Next(q, e), rest);
        assert Live(p, events) == [e] + Live(Next(p, e), rest);
        assert Live(p, events)[1..] == Live(Next(p, e), rest);
      }
    }
  }

  // ----- what a save is based on -----

  // The sheet on the page: the optimistic copy, or without one the resource's data.
  function Shown(p: Page): Option<Sheet> { if p.localSheet.Some? then p.localSheet else p.resource.data }

  // What a save is to show: the sheet on the page with the one preparation replaced.
  function Saved(shown: Option<Sheet>, preparation: nat, version: nat): Option<Sheet> {
    if shown.None? then None else Some(Patched(shown.value, preparation, version))
  }

  // The same sheet, but for the version of one preparation.
  predicate SameBut(a: Option<Sheet>, b: Option<Sheet>, preparation: nat) {
    if a.None? || b.None? then a == b
    else
      && a.value.batchId == b.value.batchId && a.value.preparations.Keys == b.value.preparations.Keys
      && forall k :: k in a.value.preparations && k != preparation ==> a.value.preparations[k] == b.value.preparations[k]
  }

  lemma PatchedAlike(a: Sheet, b: Sheet, preparation: nat, version: nat)
    ensures Patched(a, preparation, version) == Patched(b, preparation, version)
       <==> SameBut(Some(a), Some(b), preparation)
  {
    var x, y := Patched(a, preparation, version), Patched(b, preparation, version);
    assert x.preparations.Keys == a.preparations.Keys && y.preparations.Keys == b.preparations.Keys;
    assert forall k :: k in a.preparations && k != preparation ==> x.preparations[k] == a.preparations[k];
    assert forall k :: k in b.preparations && k != preparation ==> y.preparations[k] == b.preparations[k];
    if SameBut(Some(a), Some(b), preparation) {
      assert x.preparations == y.preparations;
    }
  }

  // The sheet has the preparation, in another version.
  predicate Changes(sheet: Option<Sheet>, preparation: nat, version: nat) {
    && sheet.Some? && preparation in sheet.value.preparations
    && sheet.value.preparations[preparation] != version
  }

  lemma PatchedIsSame(sheet: Sheet, preparation: nat, version: nat)
    ensures Patched(sheet, preparation, version) == sheet <==> !Changes(Some(sheet), preparation, version)
  {
    if preparation in sheet.preparations && Patched(sheet, preparation, version) == sheet {
      assert sheet.preparations[preparation := version][preparation] == version;
    }
    if preparation in sheet.preparations && sheet.preparations[preparation] == version {
      assert sheet.preparations[preparation := version] == sheet.preparations;
    }
  }

  /** A save of the current route shows the sheet on the page with its preparation replaced exactly when there is an
      optimistic copy, or the data its closure holds is the resource's data but for that preparation, or when it holds
      none and the resource's data does not have the preparation in another version. */
  lemma SaveShows(p: Page, op: nat, preparation: nat, version: nat)
    requires Possible(p, SaveOk(op, preparation, version)) && p.ops[op].generation == p.generation
    ensures var captured := p.ops[op].phase.captured;
      Shown(Next(p, SaveOk(op, preparation, version))) == Saved(Shown(p), preparation, version)
      <==> || p.localSheet.Some?
           || SameBut(captured, p.resource.data, preparation)
           || (captured.None? && !Changes(p.resource.data, preparation, version))
  {
    var captured := p.ops[op].phase.captured;
    if p.localSheet.None? && captured.Some? && p.resource.data.Some? {
      PatchedAlike(captured.value, p.resource.data.value, preparation, version);
    }
    if p.resource.data.Some? {
      PatchedIsSame(p.resource.data.value, preparation, version);
    }
  }

  // What a closure holds is still the data, unless a response has been applied since or a new loader has cleared it.
  ghost predicate ClosuresHold(p: Page) {
    forall k :: k in p.ops && p.ops[k].phase.Saving? ==>
      && p.ops[k].phase.applied <= |p.resource.applied|
      && (p.ops[k].phase.applied == |p.resource.applied| ==>
            p.resource.data == p.ops[k].phase.captured || p.resource.data.None?)
  }

  lemma ResourceClosuresHold(p: Page, h: Api.Event<Sheet>)
    requires ClosuresHold(p)
    ensures ClosuresHold(p.(resource := Api.Next(p.resource, h)))
  {
  }

  lemma SettleClosuresHold(p: Page, op: nat, h: Api.Event<Sheet>)
    requires ClosuresHold(p) && Possible(p, Settle(op, h))
    ensures ClosuresHold(Next(p, Settle(op, h)))
  {
    ResourceClosuresHold(p, h);
  }

  lemma PatchClosuresHold(p: Page, op: nat)
    requires ClosuresHold(p) && Possible(p, PatchOk(op))
    ensures ClosuresHold(Next(p, PatchOk(op)))
  {
    ResourceClosuresHold(p, Api.Reload);
  }

  lemma NextClosuresHold(p: Page, e: Event)
    requires ClosuresHold(p) && Possible(p, e)
    ensures ClosuresHold(Next(p, e))
  {
    match e
    case Hook(h) => ResourceClosuresHold(p, h);
    case Settle(op, h) => SettleClosuresHold(p, op, h);
    case PatchOk(op) => PatchClosuresHold(p, op);
    case _ =>
  }

  lemma {:induction false} RunClosuresHold(p: Page, events: seq<Event>)
    requires ClosuresHold(p) && IsRun(p, events)
    ensures ClosuresHold(Run(p, events))
    decreases |events|
  {
    if events != [] {
      NextClosuresHold(p, events[0]);
      RunClosuresHold(Next(p, events[0]), events[1..]);
    }
  }

  /** In every reachable state, a save since whose start no response was applied, and whose data was not cleared, shows
      the sheet on the page with its preparation replaced. */
  lemma SaveOnSameData(route: nat, events: seq<Event>, op: nat, preparation: nat, version: nat)
    requires IsRun(Initial(route), events)
    requires var p := Run(Initial(route), events);
      && Possible(p, SaveOk(op, preparation, version)) && p.ops[op].generation == p.generation
      && p.ops[op].phase.applied == |p.resource.applied| && p.resource.data.Some?
    ensures var p := Run(Initial(route), events);
      Shown(Next(p, SaveOk(op, preparation, version))) == Saved(Shown(p), preparation, version)
  {
    RunClosuresHold(Initial(route), events);
    SaveShows(Run(Initial(route), events), op, preparation, version);
  }

  const OLDER := Sheet(7, map[1 := 1, 2 := 1])
  const NEWER := Sheet(7, map[1 := 1, 2 := 2])

  // The page after its first load.
  function Loaded(): Page {
    Initial(7).(resource := Api.Initial(0).(status := Api.Success, data := Some(OLDER), requestId := 1, lastIssued := 1,
                                            applied := [Api.Response(1, OLDER)]))
  }

  lemma FirstLoad()
    ensures Steps(Initial(7), [Hook(Api.Setup(0, false)), Hook(Api.Resolve(1, OLDER))], Loaded())
  {
    var p1 := Next(Initial(7), Hook(Api.Setup(0, false)));
    assert Possible(p1, Hook(Api.Resolve(1, OLDER)));
    assert Next(p1, Hook(Api.Resolve(1, OLDER))) == Loaded();
    OneStep(p1, Hook(Api.Resolve(1, OLDER)));
    OneStep(Initial(7), Hook(Api.Setup(0, false)));
    StepsConcat(Initial(7), [Hook(Api.Setup(0, false))], p1, [Hook(Api.Resolve(1, OLDER))], Loaded());
  }

  // A save is waiting, and meanwhile the resource was reloaded.
  function Reloaded(): Page {
    Loaded().(resource := Loaded().resource.(data := Some(NEWER), requestId := 2, lastIssued := 2,
                                             applied := [Api.Response(1, OLDER), Api.Response(2, NEWER)]),
              ops := map[0 := Op(0, Saving(Some(OLDER), 1))], nextOp := 1)
  }

  lemma SaveAndReload()
    ensures Steps(Loaded(), [StartSave, Hook(Api.Reload), Hook(Api.Resolve(2, NEWER))], Reloaded())
  {
    var p1 := Next(Loaded(), StartSave);
    var p2 := Next(p1, Hook(Api.Reload));
    assert Possible(p2, Hook(Api.Resolve(2, NEWER)));
    assert [Api.Response(1, OLDER)] + [Api.Response(2, NEWER)] == [Api.Response(1, OLDER), Api.Response(2, NEWER)];
    assert Next(p2, Hook(Api.Resolve(2, NEWER))) == Reloaded();
    OneStep(Loaded(), StartSave);
    OneStep(p1, Hook(Api.Reload));
    OneStep(p2, Hook(Api.Resolve(2, NEWER)));
    StepsConcat(Loaded(), [StartSave], p1, [Hook(Api.Reload)], p2);
    assert [StartSave] + [Hook(Api.Reload)] == [StartSave, Hook(Api.Reload)];
    StepsConcat(Loaded(), [StartSave, Hook(Api.Reload)], p2, [Hook(Api.Resolve(2, NEWER))], Reloaded());
    assert [StartSave, Hook(Api.Reload)] + [Hook(Api.Resolve(2, NEWER))]
        == [StartSave, Hook(Api.Reload), Hook(Api.Resolve(2, NEWER))];
  }

  /** Otherwise an older sheet can cover a newer one: after the first load a save of preparation 1 is started, a reload
      brings version 2 of preparation 2, and when the save succeeds the page shows version 1 of it again. */
  lemma OlderSheetOverFresh() returns (events: seq<Event>)
    ensures IsRun(Initial(7), events)
    ensures var p := Run(Initial(7), events);
      && p.resource.status == Api.Success && p.resource.data == Some(Sheet(7, map[1 := 1, 2 := 2]))
      && Shown(p) == Some(Sheet(7, map[1 := 2, 2 := 1]))
  {
    FirstLoad();
    SaveAndReload();
    var save := SaveOk(0, 1, 2);
    var last := Next(Reloaded(), save);
    assert last.localSheet == Some(Patched(OLDER, 1, 2));
    assert Patched(OLDER, 1, 2).preparations == map[1 := 2, 2 := 1];
    OneStep(Reloaded(), save);
    var load := [Hook(Api.Setup(0, false)), Hook(Api.Resolve(1, OLDER))];
    var wait := [StartSave, Hook(Api.Reload), Hook(Api.Resolve(2, NEWER))];
    StepsConcat(Initial(7), load, Loaded(), wait, Reloaded());
    StepsConcat(Initial(7), load + wait, Reloaded(), [save], last);
    events := load + wait + [save];
  }

  // The events lead from one state to another.
  ghost predicate Steps(p: Page, events: seq<Event>, q: Page) { IsRun(p, events) && Run(p, events) == q }

  lemma OneStep(p: Page, e: Event)
    requires Possible(p, e)
    ensures Steps(p, [e], Next(p, e))
  {
    assert [e][1..] == [];
  }

  lemma {:induction false} StepsConcat(p: Page, first: seq<Event>, q: Page, second: seq<Event>, r: Page)
    requires Steps(p, first, q) && Steps(q, second, r)
    ensures Steps(p, first + second, r)
    decreases |first|
  {
    if first == [] {
      assert first + second == second;
    } else {
      StepsConcat(Next(p, first[0]), first[1..], q, second, r);
      assert (first + second)[1..] == first[1..] + second;
    }
  }
}
