// The stale-response protocol of frontend/src/lib/useApiResource.ts.
//
// An asynchronous reload is two atomic steps: the call, and the continuation after the
// loader settles.  Between them anything else may happen, in any order.
module ApiResource {
  import opened Wrappers

  datatype Status = Loading | Success | Error

  datatype Outcome = Applied | Superseded | Failed

  datatype Response<T> = Response(id: nat, value: T)

  // The refs and the React state, with the requests in flight and a record of what was applied.
  datatype State<T> = State(
    status: Status, data: Option<T>, error: Option<string>,
    requestId: nat, mounted: bool, previousLoader: nat,
    lastIssued: nat, pending: set<nat>, applied: seq<Response<T>>)

  datatype Event<T> =
    | Reload
    | Resolve(id: nat, value: T)
    | Reject(id: nat, message: string)
    | Setup(loader: nat, resetOnLoaderChange: bool)
    | Cleanup

  function Initial<T>(loader: nat): State<T> {
    State(Loading, None, None, 0, true, loader, 0, {}, [])
  }

  // The synchronous part of reload().
  function Issue<T>(s: State<T>): State<T> {
    var id := s.requestId + 1;
    s.(requestId := id, status := Loading, error := None, lastIssued := id, pending := s.pending + {id})
  }

  // The continuation of a request still has a say: the hook is mounted, and nothing was issued or retired since.
  predicate IsCurrent<T>(s: State<T>, id: nat) { s.mounted && s.requestId == id }

  function OutcomeOf<T>(s: State<T>, e: Event<T>): Outcome {
    if e.Resolve? then if IsCurrent(s, e.id) then Applied else Superseded else Failed
  }

  function Next<T>(s: State<T>, e: Event<T>): State<T> {
    match e
    case Reload => Issue(s)
    case Resolve(id, value) =>
      var done := s.(pending := s.pending - {id});
      if IsCurrent(s, id) then done.(data := Some(value), status := Success, applied := s.applied + [Response(id, value)])
      else done
    case Reject(id, message) =>
      var done := s.(pending := s.pending - {id});
      if IsCurrent(s, id) then done.(error := Some(message), status := Error) else done
    case Setup(loader, reset) =>
      var cleared := if reset && s.previousLoader != loader then s.(data := None) else s;
      Issue(cleared.(previousLoader := loader, mounted := true))
    case Cleanup => s.(mounted := false, requestId := s.requestId + 1)
  }

  // Only a request in flight can settle.
  predicate Possible<T>(s: State<T>, e: Event<T>) {
    (e.Resolve? || e.Reject?) ==> e.id in s.pending
  }

  predicate IsRun<T>(s: State<T>, events: seq<Event<T>>)
    decreases |events|
  {
    events == [] || (Possible(s, events[0]) && IsRun(Next(s, events[0]), events[1..]))
  }

  function Run<T>(s: State<T>, events: seq<Event<T>>): State<T>
    decreases |events|
  {
    if events == [] then s else Run(Next(s, events[0]), events[1..])
  }

  // ----- safety over every interleaving -----

  predicate Increasing<T>(applied: seq<Response<T>>) {
    forall i, j :: 0 <= i < j < |applied| ==> applied[i].id < applied[j].id
  }

  ghost predicate Safe<T>(s: State<T>) {
    // ids are handed out once, in order; the latest is current unless a cleanup has retired it
    && s.lastIssued <= s.requestId
    && (forall id :: id in s.pending ==> 0 < id <= s.lastIssued)
    && (forall i :: 0 <= i < |s.applied| ==> s.applied[i].id <= s.lastIssued && s.applied[i].id !in s.pending)
    && Increasing(s.applied)
    // what is shown
    && (s.status == Success ==> s.applied != [] && s.applied[|s.applied| - 1].id == s.lastIssued
                                && s.data == Some(s.applied[|s.applied| - 1].value))
    && (s.status == Error <==> s.error.Some?)
    // a mounted hook that is loading is waiting for the latest request
    && (s.mounted && s.status == Loading && s.lastIssued > 0 ==> s.requestId == s.lastIssued && s.requestId in s.pending)
    && (s.lastIssued in s.pending ==> s.status == Loading)
  }

  lemma InitialIsSafe<T>(loader: nat)
    ensures Safe(Initial<T>(loader))
  {
  }

  /** Every step of the protocol keeps the invariant, whatever happened before it. */
  lemma {:induction false} NextIsSafe<T>(s: State<T>, e: Event<T>)
    requires Safe(s) && Possible(s, e)
    ensures Safe(Next(s, e))
  {
    match e
    case Reload =>
    case Resolve(id, value) =>
      if IsCurrent(s, id) {
        AppendIncreases(s.applied, Response(id, value));
      }
    case Reject(id, message) =>
    case Setup(loader, reset) =>
    case Cleanup =>
  }

  lemma AppendIncreases<T>(applied: seq<Response<T>>, r: Response<T>)
    requires Increasing(applied) && forall i :: 0 <= i < |applied| ==> applied[i].id < r.id
    ensures Increasing(applied + [r])
  {
  }

  /** Every run keeps the invariant: in particular status "success" means that data is the response to the request
      issued last, and applied responses have strictly increasing ids. */
  lemma {:induction false} RunIsSafe<T>(s: State<T>, events: seq<Event<T>>)
    requires Safe(s) && IsRun(s, events)
    ensures Safe(Run(s, events))
    decreases |events|
  {
    if events != [] {
      NextIsSafe(s, events[0]);
      RunIsSafe(Next(s, events[0]), events[1..]);
    }
  }

  /** What a page relies on, in every state that any interleaving reaches from the first render. */
  lemma PageGuarantees<T>(loader: nat, events: seq<Event<T>>)
    requires IsRun(Initial<T>(loader), events)
    ensures var s := Run(Initial<T>(loader), events);
      && (s.status == Success ==>
            exists r :: r in s.applied && r.id == s.lastIssued && s.data == Some(r.value))
      && Increasing(s.applied)
      && (s.mounted && s.lastIssued > 0 && s.pending == {} ==> s.status != Loading)
  {
    InitialIsSafe<T>(loader);
    RunIsSafe(Initial<T>(loader), events);
    var s := Run(Initial<T>(loader), events);
    if s.status == Success {
      assert s.applied[|s.applied| - 1] in s.applied;
    }
  }

  // ----- superseded requests -----

  // later extends earlier by responses with ids of at least id.
  predicate ExtendsFrom<T(==)>(earlier: seq<Response<T>>, later: seq<Response<T>>, id: nat) {
    earlier <= later && forall i :: |earlier| <= i < |later| ==> later[i].id >= id
  }

  lemma NextExtends<T>(s: State<T>, e: Event<T>)
    ensures s.requestId <= Next(s, e).requestId
    ensures ExtendsFrom(s.applied, Next(s, e).applied, s.requestId)
  {
  }

  /** Whatever happens later, only requests at least as recent as the current id are ever applied: a request
      that has been superseded, or that a cleanup has retired, stays without effect for good. */
  lemma {:induction false} SupersededForever<T>(s: State<T>, events: seq<Event<T>>)
    ensures s.requestId <= Run(s, events).requestId
    ensures ExtendsFrom(s.applied, Run(s, events).applied, s.requestId)
    decreases |events|
  {
    if events != [] {
      NextExtends(s, events[0]);
      SupersededForever(Next(s, events[0]), events[1..]);
    }
  }

  /** A reload reports "applied" exactly when its own response became the data. */
  lemma AppliedIsTrue<T>(s: State<T>, e: Event<T>)
    requires Safe(s) && Possible(s, e) && (e.Resolve? || e.Reject?)
    ensures OutcomeOf(s, e) == Applied
       <==> Next(s, e).applied != [] && Next(s, e).applied[|Next(s, e).applied| - 1].id == e.id
    ensures OutcomeOf(s, e) == Applied ==> e.Resolve? && Next(s, e).data == Some(e.value) && e.id == s.lastIssued
  {
    if s.applied != [] {
      assert s.applied[|s.applied| - 1].id !in s.pending;
    }
  }

  // ----- the hook -----

  class ApiResource<T> {
    var status: Status
    var data: Option<T>
    var error: Option<string>
    var requestId: nat
    var mounted: bool
    var previousLoader: nat
    // The requests in flight and what has been applied, for the specification only.
    ghost var lastIssued: nat
    ghost var pending: set<nat>
    ghost var applied: seq<Response<T>>

    ghost function Abstract(): State<T>
      reads this
    {
      State(status, data, error, requestId, mounted, previousLoader, lastIssued, pending, applied)
    }

    constructor (loader: nat)
      ensures Abstract() == Initial(loader) && Safe(Abstract())
    {
      status, data, error := Loading, None, None;
      requestId, mounted, previousLoader := 0, true, loader;
      lastIssued, pending, applied := 0, {}, [];
    }

    // reload(), up to its await
    method Reload() returns (activeRequest: nat)
      requires Safe(Abstract())
      modifies this
      ensures Abstract() == old(Next(Abstract(), Event.Reload)) && Safe(Abstract())
      ensures activeRequest == lastIssued && activeRequest in pending
    {
      NextIsSafe(Abstract(), Event.Reload);
      requestId := requestId + 1;
      activeRequest := requestId;
      lastIssued, pending := activeRequest, pending + {activeRequest};
      status, error := Loading, None;
    }

    // the continuation of a reload whose loader resolved
    method Resolved(activeRequest: nat, value: T) returns (outcome: Outcome)
      requires Safe(Abstract()) && activeRequest in pending
      modifies this
      ensures Abstract() == old(Next(Abstract(), Resolve(activeRequest, value))) && Safe(Abstract())
      ensures outcome == old(OutcomeOf(Abstract(), Resolve(activeRequest, value)))
    {
      NextIsSafe(Abstract(), Resolve(activeRequest, value));
      pending := pending - {activeRequest};
      if mounted && requestId == activeRequest {
        data, status := Some(value), Success;
        applied := applied + [Response(activeRequest, value)];
        return Applied;
      }
      return Superseded;
    }

    // the continuation of a reload whose loader rejected
    method Rejected(activeRequest: nat, message: string) returns (outcome: Outcome)
      requires Safe(Abstract()) && activeRequest in pending
      modifies this
      ensures Abstract() == old(Next(Abstract(), Reject(activeRequest, message))) && Safe(Abstract())
      ensures outcome == Failed
    {
      NextIsSafe(Abstract(), Reject(activeRequest, message));
      pending := pending - {activeRequest};
      if mounted && requestId == activeRequest {
        error, status := Some(message), Error;
      }
      return Failed;
    }

    // the effect
    method RunEffect(loader: nat, resetOnLoaderChange: bool) returns (activeRequest: nat)
      requires Safe(Abstract())
      modifies this
      ensures Abstract() == old(Next(Abstract(), Setup(loader, resetOnLoaderChange))) && Safe(Abstract())
      ensures mounted && status == Loading && activeRequest == lastIssued && activeRequest in pending
    {
      NextIsSafe(Abstract(), Setup(loader, resetOnLoaderChange));
      if resetOnLoaderChange && previousLoader != loader {
        data := None;
      }
      previousLoader := loader;
      mounted := true;
      requestId := requestId + 1;
      activeRequest := requestId;
      lastIssued, pending := activeRequest, pending + {activeRequest};
      status, error := Loading, None;
    }

    // the effect's cleanup
    method CleanUp()
      requires Safe(Abstract())
      modifies this
      ensures Abstract() == old(Next(Abstract(), Cleanup)) && Safe(Abstract())
    {
      NextIsSafe(Abstract(), Cleanup);
      mounted := false;
      requestId := requestId + 1;
    }
  }

  // ----- what the page sees of each event -----

  /** Event by event, for a hook that is mounted: the response or failure of the current request is shown as such, and a
      failure leaves the data there was; a reload goes back to loading without an error and keeps the data; a new loader
      does the same, and clears the data if asked to; and whatever is superseded or comes after a cleanup is not seen. */
  lemma PageSees<T>(s: State<T>, e: Event<T>)
    ensures var n := Next(s, e);
      match e
      case Reload => n.status == Loading && n.error == None && n.data == s.data && n.requestId > s.requestId
      case Resolve(id, value) =>
        if s.mounted && s.requestId == id
        then n.status == Success && n.data == Some(value) && n.error == s.error
        else n.status == s.status && n.data == s.data && n.error == s.error
      case Reject(id, message) =>
        if s.mounted && s.requestId == id
        then n.status == Error && n.error == Some(message) && n.data == s.data
        else n.status == s.status && n.data == s.data && n.error == s.error
      case Setup(loader, reset) =>
        && n.mounted && n.status == Loading && n.error == None
        && n.data == if reset && loader != s.previousLoader then None else s.data
      case Cleanup =>
        && !n.mounted && n.status == s.status && n.data == s.data && n.error == s.error
        && forall id :: id in s.pending && id <= s.requestId ==> !IsCurrent(n, id)
  {
  }
}
