// The request-body cap of src/web/middleware.py: a counting receive channel, and the search for the
// violation it raised inside whatever exception finally surfaces.
module Middleware {
  import opened Wrappers

  // ----- the exception graph -----

  // An exception: the bytes counted, when it is a RequestBodyTooLarge; its members, when it is a group.
  datatype Exc = Exc(violation: Option<nat>, members: seq<nat>, cause: Option<nat>, context: Option<nat>)

  // Exception objects by identity.  Links may be shared and may form cycles.
  type Graph = map<nat, Exc>

  predicate Edge(g: Graph, a: nat, b: nat) {
    a in g && (b in g[a].members || g[a].cause == Some(b) || g[a].context == Some(b))
  }

  // Every link leads to an object.
  ghost predicate Closed(g: Graph) {
    forall a, b :: Edge(g, a, b) ==> b in g
  }

  ghost predicate IsPath(g: Graph, path: seq<nat>) {
    path != [] && forall i :: 0 <= i < |path| - 1 ==> Edge(g, path[i], path[i + 1])
  }

  ghost predicate Reachable(g: Graph, root: nat, x: nat) {
    exists path :: IsPath(g, path) && path[0] == root && path[|path| - 1] == x
  }

  ghost predicate IsViolation(g: Graph, x: nat) {
    x in g && g[x].violation.Some?
  }

  lemma ReachableSelf(g: Graph, root: nat)
    ensures Reachable(g, root, root)
  {
    assert IsPath(g, [root]);
  }

  lemma ReachableStep(g: Graph, root: nat, a: nat, b: nat)
    requires Reachable(g, root, a) && Edge(g, a, b)
    ensures Reachable(g, root, b)
  {
    var path :| IsPath(g, path) && path[0] == root && path[|path| - 1] == a;
    assert IsPath(g, path + [b]);
  }

  // A set that contains the root and every successor of its elements contains everything reachable.
  lemma {:induction false} ClosedSetCovers(g: Graph, s: set<nat>, path: seq<nat>)
    requires IsPath(g, path) && path[0] in s
    requires forall a, b :: a in s && Edge(g, a, b) ==> b in s
    ensures path[|path| - 1] in s
  {
    if |path| > 1 {
      assert Edge(g, path[0], path[1]);
      ClosedSetCovers(g, s, path[1..]);
    }
  }

  // Everything waiting exists and is reachable.
  ghost predicate Waiting(g: Graph, exc: nat, stack: seq<nat>) {
    forall x :: x in stack ==> x in g && Reachable(g, exc, x)
  }

  // What is linked to something seen is seen or waiting.
  ghost predicate Followed(g: Graph, seen: set<nat>, stack: seq<nat>) {
    forall a, b :: a in seen && Edge(g, a, b) ==> b in seen || b in stack
  }

  // The links of the exception at hand go on the stack: members, cause, and a context not seen yet.
  method PushLinks(g: Graph, exc: nat, seen: set<nat>, before: seq<nat>, current: nat) returns (stack: seq<nat>)
    requires Closed(g) && current in g && current in seen && Reachable(g, exc, current) && Waiting(g, exc, before)
    ensures Waiting(g, exc, stack) && forall x :: x in before ==> x in stack
    ensures forall b :: Edge(g, current, b) ==> b in seen || b in stack
  {
    forall b | Edge(g, current, b) ensures b in g && Reachable(g, exc, b) {
      ReachableStep(g, exc, current, b);
    }
    stack := before + g[current].members;
    var cause := g[current].cause;
    if cause.Some? {
      assert Edge(g, current, cause.value);
      stack := stack + [cause.value];
    }
    var context := g[current].context;
    if context.Some? && context.value !in seen {
      assert Edge(g, current, context.value);
      stack := stack + [context.value];
    }
  }

  /** On any finite graph, cycles and sharing included, the search ends, and it finds a reachable violation
      exactly when there is one. */
  method FindRequestBodyViolation(g: Graph, exc: nat) returns (r: Option<nat>)
    requires Closed(g) && exc in g
    ensures r.Some? ==> IsViolation(g, r.value) && Reachable(g, exc, r.value)
    ensures r.None? ==> forall x :: Reachable(g, exc, x) ==> !IsViolation(g, x)
  {
    var seen: set<nat> := {};
    var stack := [exc];
    ReachableSelf(g, exc);
    while stack != []
      invariant seen <= g.Keys
      invariant Waiting(g, exc, stack)
      invariant exc in seen || exc in stack
      invariant forall a :: a in seen ==> !IsViolation(g, a)
      invariant Followed(g, seen, stack)
      decreases |g.Keys - seen|, |stack|
    {
      var current := stack[|stack| - 1];
      ghost var before := stack;
      stack := stack[..|stack| - 1];
      assert forall x :: x in before ==> x in stack || x == current;
      if current in seen {
        continue;
      }
      assert current in before;
      ghost var left := g.Keys - seen;
      seen := seen + {current};
      assert g.Keys - seen == left - {current};
      if g[current].violation.Some? {
        return Some(current);
      }
      stack := PushLinks(g, exc, seen, stack, current);
    }
    forall x | Reachable(g, exc, x) ensures !IsViolation(g, x) {
      var path :| IsPath(g, path) && path[0] == exc && path[|path| - 1] == x;
      ClosedSetCovers(g, seen, path);
    }
    r := None;
  }

  // ----- the counting channel -----

  // Only "http.request" messages carry body bytes.
  datatype Message = Request(bytes: nat) | Disconnect

  const MAX_REQUEST_BODY_BYTES := 12 * 1024 * 1024

  datatype TooLarge = TooLarge(receivedBytes: nat)

  function Bytes(m: Message): nat { if m.Request? then m.bytes else 0 }

  function Total(messages: seq<Message>): nat {
    if messages == [] then 0 else Total(messages[..|messages| - 1]) + Bytes(messages[|messages| - 1])
  }

  class CountingReceive {
    var receivedBytes: nat
    // Every message pulled so far, the rejected ones included, for the specification only.
    ghost var pulled: seq<Message>

    ghost predicate Valid()
      reads this
    {
      receivedBytes == Total(pulled)
    }

    constructor ()
      ensures Valid() && pulled == []
    {
      receivedBytes, pulled := 0, [];
    }

    // Pass the next message on, unless with it the body exceeds the cap.
    method Receive(message: Message) returns (r: Result<Message, TooLarge>)
      requires Valid()
      modifies this
      ensures Valid() && pulled == old(pulled) + [message]
      ensures r.Err? <==> message.Request? && Total(pulled) > MAX_REQUEST_BODY_BYTES
      ensures r.Err? ==> r.error == TooLarge(Total(pulled))
      ensures r.Ok? ==> r.value == message
    {
      pulled := pulled + [message];
      assert pulled[..|pulled| - 1] == old(pulled);
      if message.Request? {
        receivedBytes := receivedBytes + message.bytes;
        if receivedBytes > MAX_REQUEST_BODY_BYTES {
          return Err(TooLarge(receivedBytes));
        }
      }
      return Ok(message);
    }
  }

  // What an application sees that pulls every message: how many are passed on before the first rejection.
  function Passed(messages: seq<Message>, k: nat): nat
    requires k <= |messages|
    decreases |messages| - k
  {
    if k == |messages| then k
    else if messages[k].Request? && Total(messages[..k + 1]) > MAX_REQUEST_BODY_BYTES then k
    else Passed(messages, k + 1)
  }

  lemma TotalStep(messages: seq<Message>, k: nat)
    requires k < |messages|
    ensures Total(messages[..k + 1]) == Total(messages[..k]) + Bytes(messages[k])
  {
    assert messages[..k + 1][..k] == messages[..k];
  }

  lemma {:induction false} TotalMonotone(messages: seq<Message>, i: nat, j: nat)
    requires i <= j <= |messages|
    ensures Total(messages[..i]) <= Total(messages[..j])
    decreases j - i
  {
    if i < j {
      TotalStep(messages, j - 1);
      TotalMonotone(messages, i, j - 1);
    }
  }

  lemma {:induction false} PassedIsFirst(messages: seq<Message>, k: nat)
    requires k <= |messages| && Total(messages[..k]) <= MAX_REQUEST_BODY_BYTES
    ensures var p := Passed(messages, k);
      && k <= p <= |messages| && Total(messages[..p]) <= MAX_REQUEST_BODY_BYTES
      && (p < |messages| ==> messages[p].Request? && Total(messages[..p + 1]) > MAX_REQUEST_BODY_BYTES)
    decreases |messages| - k
  {
    if k < |messages| {
      TotalStep(messages, k);
      if !(messages[k].Request? && Total(messages[..k + 1]) > MAX_REQUEST_BODY_BYTES) {
        PassedIsFirst(messages, k + 1);
      }
    }
  }

  // An application that pulls every message until one is refused.
  method PullAll(messages: seq<Message>) returns (passed: nat, refusal: Option<TooLarge>)
    ensures passed == Passed(messages, 0)
    ensures refusal.Some? <==> passed < |messages|
    ensures refusal.Some? ==> refusal.value == TooLarge(Total(messages[..passed + 1]))
  {
    var channel := new CountingReceive();
    passed := 0;
    while passed < |messages|
      invariant passed <= |messages| && Passed(messages, 0) == Passed(messages, passed)
      invariant channel.Valid() && channel.pulled == messages[..passed]
      invariant fresh(channel)
    {
      var r := channel.Receive(messages[passed]);
      assert messages[..passed + 1] == messages[..passed] + [messages[passed]];
      if r.Err? {
        return passed, Some(r.error);
      }
      passed := passed + 1;
    }
    refusal := None;
  }

  /** However the body is cut into messages: what is passed on never exceeds 12 MiB, a rejection happens exactly
      when the whole body does, and only the one message that crosses the cap is read past it. */
  lemma {:induction false} CapIsExact(messages: seq<Message>)
    ensures var p := Passed(messages, 0);
      && p <= |messages|
      && Total(messages[..p]) <= 12_582_912
      && (p < |messages| <==> Total(messages) > 12_582_912)
      && (p < |messages| ==> Total(messages[..p + 1]) > 12_582_912)
  {
    PassedIsFirst(messages, 0);
    var p := Passed(messages, 0);
    assert messages[..|messages|] == messages;
    if p < |messages| {
      TotalMonotone(messages, p + 1, |messages|);
    }
  }
}
