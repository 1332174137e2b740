// The batch page as the component runs it: refs and state updated by handlers, each handler cut at its awaits.
// Every method is a step of the RunSheet transition system.
module BatchDetailPage {
  import opened Wrappers
  import opened RunSheet
  import Api = ApiResource

  class BatchDetailPage {
    var route: nat
    var routeGeneration: nat
    var localSheet: Option<Sheet>
    var actionError: Option<Problem>
    var submitting: bool
    var refreshFailed: bool
    var toasts: seq<Toast>
    const resource: Api.ApiResource<Sheet>
    // The handlers that are waiting, for the specification only.
    ghost var ops: map<nat, Op>
    ghost var nextOp: nat

    ghost function Abstract(): Page
      reads this, resource
    {
      Page(route, routeGeneration, localSheet, actionError, submitting, refreshFailed, toasts,
           resource.Abstract(), ops, nextOp)
    }

    constructor (route: nat, resource: Api.ApiResource<Sheet>)
      requires resource.Abstract() == Api.Initial(0)
      ensures Abstract() == Initial(route) && this.resource == resource
    {
      this.route, this.resource := route, resource;
      routeGeneration, localSheet, actionError := 0, None, None;
      submitting, refreshFailed, toasts := false, false, [];
      ops, nextOp := map[], 0;
    }

    // useLayoutEffect on the route key
    method EnterRoute(newRoute: nat)
      modifies this
      ensures Abstract() == old(Next(Abstract(), ChangeRoute(newRoute)))
    {
      route, routeGeneration := newRoute, routeGeneration + 1;
      localSheet, actionError, submitting, refreshFailed := None, None, false, false;
    }

    // useEffect on resource.status
    method AfterSuccess()
      requires resource.status == Api.Success
      modifies this
      ensures Abstract() == old(Next(Abstract(), SuccessEffect))
    {
      refreshFailed, actionError, localSheet := false, None, None;
    }

    // savePreparation, up to its PATCH
    method SavePreparation() returns (generation: nat, captured: Option<Sheet>, ghost op: nat)
      modifies this
      ensures Abstract() == old(Next(Abstract(), StartSave))
      ensures op in ops && ops[op] == Op(generation, Saving(captured, |resource.applied|))
    {
      generation, captured := routeGeneration, resource.data;
      op := nextOp;
      ops, nextOp := ops[op := Op(generation, Saving(captured, |resource.applied|))], nextOp + 1;
    }

    // savePreparation, after its PATCH succeeded; captured is the data of the render that started it
    method PreparationSavedOnServer(generation: nat, captured: Option<Sheet>, preparation: nat, version: nat,
                                    ghost op: nat)
      requires op in ops && ops[op].generation == generation
      requires ops[op].phase.Saving? && ops[op].phase.captured == captured
      modifies this
      ensures Abstract() == old(Next(Abstract(), SaveOk(op, preparation, version)))
    {
      ops := Without(ops, op);
      if routeGeneration != generation {
        return;
      }
      var base := if localSheet.Some? then localSheet else captured;
      if base.Some? {
        var sheet := base.value;
        if preparation in sheet.preparations {
          sheet := sheet.(preparations := sheet.preparations[preparation := version]);
        }
        localSheet := Some(sheet);
      }
      toasts := toasts + [PreparationSaved(generation)];
    }

    // changeBatchStatus, up to its PATCH
    method ChangeBatchStatus() returns (generation: nat, started: bool, ghost op: nat)
      modifies this
      ensures Abstract() == old(Next(Abstract(), StartStatus))
      ensures started ==> op in ops && ops[op] == Op(generation, Patching)
      ensures started <==> old(ActiveSheet(Abstract())).Some?
    {
      generation, op := routeGeneration, nextOp;
      var sheet := if localSheet.Some? then localSheet else resource.data;
      started := sheet.Some? && sheet.value.batchId == route;
      if started {
        submitting, actionError := true, None;
        ops, nextOp := ops[op := Op(generation, Patching)], nextOp + 1;
      }
    }

    // changeBatchStatus, after its PATCH succeeded: refetchSheet starts a reload
    method StatusSavedOnServer(generation: nat, ghost op: nat) returns (reload: Option<nat>)
      requires Api.Safe(resource.Abstract())
      requires op in ops && ops[op] == Op(generation, Patching)
      modifies this, resource
      ensures Abstract() == old(Next(Abstract(), PatchOk(op)))
      ensures reload.Some? ==> op in ops && ops[op] == Op(generation, Refetching(reload.value))
    {
      if routeGeneration != generation {
        ops := Without(ops, op);
        return None;
      }
      var id := resource.Reload();
      ops := ops[op := Op(generation, Refetching(id))];
      reload := Some(id);
    }

    // changeBatchStatus, after its PATCH failed
    method StatusNotSaved(generation: nat, ghost op: nat)
      requires op in ops && ops[op] == Op(generation, Patching)
      modifies this
      ensures Abstract() == old(Next(Abstract(), PatchError(op)))
    {
      ops := Without(ops, op);
      if routeGeneration == generation {
        actionError := Some(SaveFailed);
        submitting := false;
      }
    }

    // refetchSheet after its reload settled, and the finally block behind it
    method Refreshed(generation: nat, reload: nat, outcome: Api.Outcome, ghost op: nat)
      requires op in ops && ops[op] == Op(generation, Refetched(reload, outcome))
      modifies this
      ensures Abstract() == old(Next(Abstract(), Resume(op)))
    {
      ops := Without(ops, op);
      if routeGeneration == generation {
        match outcome {
          case Applied =>
            localSheet, actionError, refreshFailed := None, None, false;
            toasts := toasts + [StatusChanged(generation, reload)];
          case Superseded =>
          case Failed =>
            localSheet, refreshFailed, actionError := None, true, Some(RefreshFailed);
        }
        submitting := false;
      }
    }
  }
}
