/**
 * Best-effort closing of everything reachable from a resource.
 *
 * The objects of the process are a finite graph with sharing and cycles. What a call on an object
 * does (return, raise `TypeError`, raise something else) is part of the graph, so a theorem for all
 * graphs covers every pattern of failures.
 */
module ResourceLifecycle {
  import opened Reachability
  import opened Wrappers

  /** Object identity, Python's `id`. */
  type Ref = nat

  /** `None` or an object. */
  type Value = Option<Ref>

  datatype Outcome = Returns | RaisesTypeError | RaisesOther

  /** What looking up a method by name gives: nothing callable, or something with an outcome. */
  datatype Method = Absent | Callable(outcome: Outcome)

  const CLOSE_METHODS := ["aclose", "close", "shutdown", "disconnect", "terminate"]
  const NESTED_RESOURCE_ATTRS :=
    ["client", "async_client", "sync_client", "root_client", "connection_pool", "transport", "session",
     "imap_service", "_client", "_async_client", "_sync_client", "_transport", "_session"]

  datatype Resource = Resource(
    isMapping: bool,            // isinstance(resource, Mapping)
    isText: bool,               // isinstance(resource, (str, bytes, bytearray))
    isIterable: bool,           // isinstance(resource, Iterable)
    elements: seq<Value>,       // mapping values, or what iterating yields
    closers: map<string, Method>,
    nested: map<string, Value>, // attributes; missing is the same as None
    asyncExit: Method,
    syncExit: Method)

  predicate IsPlainIterable(r: Resource) {
    if r.isText then false else r.isIterable
  }

  predicate IsContainer(r: Resource) {
    r.isMapping || IsPlainIterable(r)
  }

  function Lookup<V>(m: map<string, V>, name: string, default: V): V {
    if name in m then m[name] else default
  }

  /** The values a visit of the object goes on to, in order. */
  function Children(r: Resource): seq<Value> {
    if IsContainer(r) then r.elements
    else seq(|NESTED_RESOURCE_ATTRS|, i requires 0 <= i < |NESTED_RESOURCE_ATTRS| =>
               Lookup(r.nested, NESTED_RESOURCE_ATTRS[i], None))
  }

  type Heap = map<Ref, Resource>

  /** No dangling references. */
  ghost predicate WellFormed(heap: Heap) {
    forall id, v | id in heap && v in Children(heap[id]) && v.Some? :: v.value in heap
  }

  /** The object graph that closing walks. */
  ghost function ChildGraph(heap: Heap): Graph<Ref> {
    map id | id in heap :: ChildSet(heap[id])
  }

  ghost function ChildSet(r: Resource): set<Ref> {
    set v | v in Children(r) && v.Some? :: v.value
  }

  // ---------- What is called on one object ----------

  /** An observable call: which close method, or a context exit. */
  datatype Event = Close(id: Ref, name: string) | AsyncExit(id: Ref) | SyncExit(id: Ref)

  /** The first name with a callable method, if any. */
  function FirstCallable(r: Resource, names: seq<string>): (name: Option<string>)
    ensures name.None? ==> forall n | n in names :: Lookup(r.closers, n, Absent).Absent?
    ensures name.Some? ==> exists i | 0 <= i < |names| ::
              && names[i] == name.value && Lookup(r.closers, names[i], Absent).Callable?
              && forall j | 0 <= j < i :: Lookup(r.closers, names[j], Absent).Absent?
  {
    if names == [] then None
    else if Lookup(r.closers, names[0], Absent).Callable? then Some(names[0])
    else FirstCallable(r, names[1..])
  }

  /** A close method accepted the call: it returned, or it failed otherwise than by its arguments. */
  predicate Accepts(r: Resource) {
    var name := FirstCallable(r, CLOSE_METHODS);
    name.Some? && Lookup(r.closers, name.value, Absent) != Callable(RaisesTypeError)
  }

  function CloseCalls(id: Ref, r: Resource): seq<Event> {
    var name := FirstCallable(r, CLOSE_METHODS);
    if name.Some? then [Close(id, name.value)] else []
  }

  function ExitCalls(id: Ref, r: Resource): seq<Event> {
    if Accepts(r) then []
    else
      (if r.asyncExit.Callable? then [AsyncExit(id)] else [])
      + (if r.asyncExit != Callable(Returns) && r.syncExit.Callable? then [SyncExit(id)] else [])
  }

  /** All calls an object must see: at most one close attempt, and exits only if it was not accepted. */
  function CallsOn(id: Ref, r: Resource): seq<Event> {
    if IsContainer(r) then [] else CloseCalls(id, r) + ExitCalls(id, r)
  }

  /** The calls on one object, out of a log. */
  function On(log: seq<Event>, id: Ref): seq<Event> {
    if log == [] then []
    else On(log[..|log| - 1], id) + if log[|log| - 1].id == id then [log[|log| - 1]] else []
  }

  lemma {:induction false} OnConcat(a: seq<Event>, b: seq<Event>, id: Ref)
    ensures On(a + b, id) == On(a, id) + On(b, id)
  {
    if b == [] {
      assert a + b == a;
    } else {
      assert (a + b)[..|a + b| - 1] == a + b[..|b| - 1];
      OnConcat(a, b[..|b| - 1], id);
    }
  }

  lemma {:induction false} OnOwn(log: seq<Event>, id: Ref, owner: Ref)
    requires forall e | e in log :: e.id == owner
    ensures On(log, id) == if id == owner then log else []
  {
    if log != [] {
      var rest, last := log[..|log| - 1], log[|log| - 1];
      assert log == rest + [last];
      OnOwn(rest, id, owner);
    }
  }

  lemma OnAround(pre: seq<Event>, mid: seq<Event>, post: seq<Event>, id: Ref, owner: Ref)
    requires (forall e | e in pre :: e.id == owner) && (forall e | e in post :: e.id == owner)
    ensures On(pre + mid + post, id) == if id == owner then pre + On(mid, id) + post else On(mid, id)
  {
    OnConcat(pre + mid, post, id);
    OnConcat(pre, mid, id);
    OnOwn(pre, id, owner);
    OnOwn(post, id, owner);
  }

  // ---------- The traversal ----------

  /** The calls due on every object. */
  ghost function Due(heap: Heap): map<Ref, seq<Event>> {
    map id | id in heap :: CallsOn(id, heap[id])
  }

  /** `log` is exactly the calls `due` on the objects `visited`, however interleaved. */
  ghost predicate ExactlyOnce(due: map<Ref, seq<Event>>, visited: set<Ref>, log: seq<Event>) {
    forall id :: On(log, id) == if id in visited && id in due then due[id] else []
  }

  lemma ExactlyOnceConcat(due: map<Ref, seq<Event>>, first: set<Ref>, a: seq<Event>, second: set<Ref>, b: seq<Event>)
    requires ExactlyOnce(due, first, a) && ExactlyOnce(due, second, b) && first !! second
    ensures ExactlyOnce(due, first + second, a + b)
  {
    forall id ensures On(a + b, id) == if id in first + second && id in due then due[id] else [] {
      OnConcat(a, b, id);
      assert On(a, id) == if id in first && id in due then due[id] else [];
      assert On(b, id) == if id in second && id in due then due[id] else [];
    }
  }

  /** The calls on `id` may have the calls on other objects between them. */
  lemma ExactlyOnceAround(due: map<Ref, seq<Event>>, id: Ref, visited: set<Ref>,
                          pre: seq<Event>, mid: seq<Event>, post: seq<Event>)
    requires ExactlyOnce(due, visited, mid) && id !in visited
    requires id in due && pre + post == due[id]
    requires (forall e | e in pre :: e.id == id) && (forall e | e in post :: e.id == id)
    ensures ExactlyOnce(due, visited + {id}, pre + mid + post)
  {
    hide On;
    forall x ensures On(pre + mid + post, x) == if x in visited + {id} && x in due then due[x] else [] {
      OnAround(pre, mid, post, x, id);
      assert On(mid, x) == if x in visited && x in due then due[x] else [];
    }
  }

  /** From `before` to `after` the traversal made the calls `events`, and left no child of a new object out. */
  ghost predicate Visit(heap: Heap, before: set<Ref>, after: set<Ref>, events: seq<Event>) {
    && before <= after <= heap.Keys
    && ExactlyOnce(Due(heap), after - before, events)
    && ChildrenWithin(ChildGraph(heap), after - before, after)
  }

  ghost predicate ChildrenWithin(g: Graph<Ref>, parents: set<Ref>, ids: set<Ref>) {
    forall parent, child | parent in parents && HasEdge(g, parent, child) :: child in ids
  }

  lemma VisitNothing(heap: Heap, seen: set<Ref>)
    requires seen <= heap.Keys
    ensures Visit(heap, seen, seen, [])
  {
  }

  lemma VisitThen(heap: Heap, s0: set<Ref>, s1: set<Ref>, s2: set<Ref>, a: seq<Event>, b: seq<Event>)
    requires Visit(heap, s0, s1, a) && Visit(heap, s1, s2, b)
    ensures Visit(heap, s0, s2, a + b)
  {
    ExactlyOnceConcat(Due(heap), s1 - s0, a, s2 - s1, b);
    assert (s1 - s0) + (s2 - s1) == s2 - s0;
  }

  /** Visiting an object: its close attempt, its children, its exits. */
  lemma VisitObject(heap: Heap, id: Ref, before: set<Ref>, after: set<Ref>,
                    pre: seq<Event>, mid: seq<Event>, post: seq<Event>)
    requires id in heap && id !in before
    requires Visit(heap, before + {id}, after, mid)
    requires forall v | v in Children(heap[id]) && v.Some? :: v.value in after
    requires pre + post == CallsOn(id, heap[id])
    requires (forall e | e in pre :: e.id == id) && (forall e | e in post :: e.id == id)
    ensures Visit(heap, before, after, pre + mid + post)
  {
    ExactlyOnceAround(Due(heap), id, after - (before + {id}), pre, mid, post);
    assert after - (before + {id}) + {id} == after - before;
    ChildrenVisited(heap, id, before, after);
  }

  lemma ChildrenVisited(heap: Heap, id: Ref, before: set<Ref>, after: set<Ref>)
    requires id in heap
    requires ChildrenWithin(ChildGraph(heap), after - (before + {id}), after)
    requires forall v | v in Children(heap[id]) && v.Some? :: v.value in after
    ensures ChildrenWithin(ChildGraph(heap), after - before, after)
  {
  }

  /** Everything in `ids` can be reached from one of `values`. */
  ghost predicate AllReachable(g: Graph<Ref>, values: seq<Value>, ids: set<Ref>) {
    forall id | id in ids :: exists v | v in values && v.Some? :: Reachable(g, v.value, id)
  }

  /** New objects other than `id` itself were reached through its children. */
  lemma NewlyReachable(heap: Heap, id: Ref, before: set<Ref>, after: set<Ref>)
    requires id in heap
    requires AllReachable(ChildGraph(heap), Children(heap[id]), after - (before + {id}))
    ensures AllReachable(ChildGraph(heap), [Some(id)], after - before)
  {
    forall x | x in after - before ensures Reachable(ChildGraph(heap), id, x) {
      assert x == id || x in after - (before + {id});
      if x == id {
        ReachableSelf(ChildGraph(heap), id);
      } else {
        var v :| v in Children(heap[id]) && v.Some? && Reachable(ChildGraph(heap), v.value, x);
        ReachableThroughEdge(ChildGraph(heap), id, v.value, x);
      }
    }
  }

  /** The first `n` of the values have been visited, and nothing that is not reachable from one of the values. */
  ghost predicate VisitedUpto(heap: Heap, values: seq<Value>, n: nat, before: set<Ref>, after: set<Ref>, events: seq<Event>) {
    && n <= |values| && Visit(heap, before, after, events)
    && (forall i | 0 <= i < n && values[i].Some? :: values[i].value in after)
    && AllReachable(ChildGraph(heap), values, after - before)
  }

  /** Visiting one more value: the calls add up, and what is new was reached through that value. */
  lemma VisitNext(heap: Heap, values: seq<Value>, n: nat, s0: set<Ref>, s1: set<Ref>, s2: set<Ref>,
                  a: seq<Event>, b: seq<Event>)
    requires n < |values| && VisitedUpto(heap, values, n, s0, s1, a) && Visit(heap, s1, s2, b)
    requires AllReachable(ChildGraph(heap), [values[n]], s2 - s1)
    requires values[n].Some? ==> values[n].value in s2
    ensures VisitedUpto(heap, values, n + 1, s0, s2, a + b)
  {
    VisitThen(heap, s0, s1, s2, a, b);
    assert values[n] in values;
  }

  lemma LogGrows(first: seq<Event>, second: seq<Event>, third: seq<Event>)
    requires first <= second <= third
    ensures first <= third && third[|first|..] == second[|first|..] + third[|second|..]
  {
  }

  // ---------- The order of the calls ----------

  /** Nothing was called yet on objects that were not seen, and the seen ones have had their close attempt. */
  ghost predicate Progress(heap: Heap, seen: set<Ref>, log: seq<Event>) {
    && (forall id | id !in seen :: On(log, id) == [])
    && forall id | id in seen && id in heap && !IsContainer(heap[id]) :: CloseCalls(id, heap[id]) <= On(log, id)
  }

  /** A container is seen without any call on it. */
  lemma ProgressContainer(heap: Heap, seen: set<Ref>, log: seq<Event>, id: Ref)
    requires Progress(heap, seen, log) && id in heap && IsContainer(heap[id])
    ensures Progress(heap, seen + {id}, log)
  {
  }

  lemma OnAppended(log: seq<Event>, own: seq<Event>, id: Ref, x: Ref)
    requires forall e | e in own :: e.id == id
    ensures On(log + own, x) == On(log, x) + if x == id then own else []
  {
    OnConcat(log, own, x);
    OnOwn(own, x, id);
  }

  lemma ProgressClient(heap: Heap, seen: set<Ref>, log: seq<Event>, id: Ref)
    requires Progress(heap, seen, log) && id !in seen && id in heap
    ensures Progress(heap, seen + {id}, log + CloseCalls(id, heap[id]))
  {
    var own := CloseCalls(id, heap[id]);
    assert On(log, id) == [];
    forall x | x !in seen + {id} ensures On(log + own, x) == [] {
      OnAppended(log, own, id, x);
    }
    forall x | x in seen + {id} && x in heap && !IsContainer(heap[x]) ensures CloseCalls(x, heap[x]) <= On(log + own, x) {
      OnAppended(log, own, id, x);
    }
  }

  lemma ProgressExit(heap: Heap, seen: set<Ref>, log: seq<Event>, id: Ref, own: seq<Event>)
    requires Progress(heap, seen, log) && id in seen && forall e | e in own :: e.id == id
    ensures Progress(heap, seen, log + own)
  {
    forall x | x !in seen ensures On(log + own, x) == [] {
      OnAppended(log, own, id, x);
    }
    forall x | x in seen && x in heap && !IsContainer(heap[x]) ensures CloseCalls(x, heap[x]) <= On(log + own, x) {
      OnAppended(log, own, id, x);
    }
  }

  /**
   * The close attempt on an object comes before, and its exits come after, exactly the calls `inside`
   * them: those on the objects first reached through it. These are all that can be reached from it
   * without passing one of the objects seen `before`, which have all had their close attempt already.
   */
  datatype Nesting = Nesting(before: set<Ref>, a: seq<Event>, inside: set<Ref>, m: seq<Event>)

  ghost predicate IsAround(heap: Heap, id: Ref, n: Nesting) {
    && id in heap && id !in n.before && n.inside !! n.before + {id}
    && Progress(heap, n.before, n.a)
    && Visit(heap, n.before + {id}, n.before + {id} + n.inside, n.m)
    && (forall v | v in Children(heap[id]) && v.Some? :: v.value in n.before + {id} + n.inside)
    && AllReachable(ChildGraph(heap), Children(heap[id]), n.inside)
  }

  ghost predicate IsNesting(heap: Heap, id: Ref, log: seq<Event>, n: Nesting) {
    && id in heap && n.a + (CloseCalls(id, heap[id]) + n.m + ExitCalls(id, heap[id])) <= log
    && IsAround(heap, id, n)
  }

  ghost predicate IsNested(heap: Heap, id: Ref, log: seq<Event>) {
    exists n :: IsNesting(heap, id, log, n)
  }

  ghost predicate AllNested(heap: Heap, ids: set<Ref>, log: seq<Event>) {
    forall id | id in ids && id in heap && !IsContainer(heap[id]) :: IsNested(heap, id, log)
  }

  lemma NestedLater(heap: Heap, ids: set<Ref>, log: seq<Event>, later: seq<Event>)
    requires AllNested(heap, ids, log) && log <= later
    ensures AllNested(heap, ids, later)
  {
    forall id | id in ids && id in heap && !IsContainer(heap[id]) ensures IsNested(heap, id, later) {
      NestingLater(heap, id, log, later);
    }
  }

  lemma NestingLater(heap: Heap, id: Ref, log: seq<Event>, later: seq<Event>)
    requires IsNested(heap, id, log) && log <= later
    ensures IsNested(heap, id, later)
  {
    var n :| IsNesting(heap, id, log, n);
    assert IsNesting(heap, id, later, n);
  }

  lemma NestedBoth(heap: Heap, s0: set<Ref>, s1: set<Ref>, s2: set<Ref>, log: seq<Event>, later: seq<Event>)
    requires AllNested(heap, s1 - s0, log) && AllNested(heap, s2 - s1, later) && log <= later
    ensures AllNested(heap, s2 - s0, later)
  {
    NestedLater(heap, s1 - s0, log, later);
  }

  lemma InsideIsDue(heap: Heap, id: Ref, n: Nesting, x: Ref)
    requires IsAround(heap, id, n) && x in n.inside
    ensures x != id && x in heap && On(n.m, x) == CallsOn(x, heap[x])
  {
    DueInside(heap, n.before + {id}, n.before + {id} + n.inside, n.m, x);
  }

  /** Nothing is called on the objects inside except there. */
  lemma CallsStayInside(heap: Heap, id: Ref, log: seq<Event>, n: Nesting, x: Ref)
    requires IsNesting(heap, id, log, n) && x in n.inside && x in heap && On(log, x) == CallsOn(x, heap[x])
    ensures var upto := n.a + (CloseCalls(id, heap[id]) + n.m + ExitCalls(id, heap[id]));
      On(n.m, x) == CallsOn(x, heap[x]) && On(n.a, x) == [] && On(log[|upto|..], x) == []
  {
    InsideIsDue(heap, id, n, x);
    OnlyInMiddle(log, n.a, CloseCalls(id, heap[id]), n.m, ExitCalls(id, heap[id]), id, x);
  }

  lemma OnlyInMiddle(log: seq<Event>, a: seq<Event>, pre: seq<Event>, m: seq<Event>, post: seq<Event>, id: Ref, x: Ref)
    requires a + (pre + m + post) <= log && On(log, x) == On(m, x)
    requires (forall e | e in pre :: e.id == id) && (forall e | e in post :: e.id == id) && x != id
    ensures On(a, x) == [] && On(log[|a + (pre + m + post)|..], x) == []
  {
    var b := log[|a + (pre + m + post)|..];
    assert log == a + (pre + m + post) + b;
    OnOther(a, pre, m, post, b, id, x);
    OnlyMiddle(On(a, x), On(m, x), On(b, x));
  }

  lemma OnOther(a: seq<Event>, pre: seq<Event>, m: seq<Event>, post: seq<Event>, b: seq<Event>, id: Ref, x: Ref)
    requires (forall e | e in pre :: e.id == id) && (forall e | e in post :: e.id == id) && x != id
    ensures On(a + (pre + m + post) + b, x) == On(a, x) + On(m, x) + On(b, x)
  {
    OnConcat(a + (pre + m + post), b, x);
    OnConcat(a, pre + m + post, x);
    OnAround(pre, m, post, x, id);
  }

  lemma DueInside(heap: Heap, before: set<Ref>, after: set<Ref>, m: seq<Event>, x: Ref)
    requires Visit(heap, before, after, m) && x in after - before
    ensures x in heap && On(m, x) == CallsOn(x, heap[x])
  {
  }

  lemma OnlyMiddle(a: seq<Event>, m: seq<Event>, b: seq<Event>)
    requires a + m + b == m
    ensures a == [] && b == []
  {
    assert |a + m + b| == |a| + |m| + |b|;
  }

  /** A client's own nesting, once everything below it is nested. */
  lemma ClientNested(heap: Heap, id: Ref, seen: set<Ref>, after: set<Ref>, start: seq<Event>, m: seq<Event>,
                     nested: seq<Event>, log: seq<Event>)
    requires id in heap && id in seen && Progress(heap, seen - {id}, start)
    requires Visit(heap, seen, after, m) && AllNested(heap, after - seen, nested) && nested <= log
    requires log == start + (CloseCalls(id, heap[id]) + m + ExitCalls(id, heap[id]))
    requires forall v | v in Children(heap[id]) && v.Some? :: v.value in after
    requires AllReachable(ChildGraph(heap), Children(heap[id]), after - seen)
    ensures AllNested(heap, after - seen + {id}, log)
  {
    NestedLater(heap, after - seen, nested, log);
    var n := Nesting(seen - {id}, start, after - seen, m);
    assert n.before + {id} == seen && seen + (after - seen) == after;
    assert IsAround(heap, id, n);
    assert IsNesting(heap, id, log, n);
  }

  lemma ExitsAreOwn(id: Ref, r: Resource)
    ensures forall e | e in ExitCalls(id, r) :: e.id == id
  {
  }

  lemma ClientEnds(heap: Heap, id: Ref, seen: set<Ref>, after: set<Ref>, start: seq<Event>, m: seq<Event>,
                   nested: seq<Event>, log: seq<Event>)
    requires id in heap && id in seen && seen <= after && Progress(heap, seen - {id}, start) && Progress(heap, after, nested)
    requires Visit(heap, seen, after, m) && AllNested(heap, after - seen, nested)
    requires nested == start + CloseCalls(id, heap[id]) + m && log == nested + ExitCalls(id, heap[id])
    requires forall v | v in Children(heap[id]) && v.Some? :: v.value in after
    requires AllReachable(ChildGraph(heap), Children(heap[id]), after - seen)
    ensures Progress(heap, after, log) && log == start + (CloseCalls(id, heap[id]) + m + ExitCalls(id, heap[id]))
    ensures AllNested(heap, after - seen + {id}, log)
  {
    ExitsAreOwn(id, heap[id]);
    hide *;
    ProgressExit(heap, after, nested, id, ExitCalls(id, heap[id]));
    Regroup(start, CloseCalls(id, heap[id]), m, ExitCalls(id, heap[id]));
    ClientNested(heap, id, seen, after, start, m, nested, log);
  }

  lemma ContainerVisited(heap: Heap, id: Ref, before: set<Ref>, after: set<Ref>, start: seq<Event>, log: seq<Event>)
    requires id in heap && IsContainer(heap[id]) && id !in before && start <= log
    requires Visit(heap, before + {id}, after, log[|start|..])
    requires forall v | v in Children(heap[id]) && v.Some? :: v.value in after
    requires AllReachable(ChildGraph(heap), Children(heap[id]), after - (before + {id}))
    requires AllNested(heap, after - (before + {id}), log)
    ensures Visit(heap, before, after, log[|start|..])
    ensures AllReachable(ChildGraph(heap), [Some(id)], after - before)
    ensures AllNested(heap, after - before, log)
  {
    NewlyReachable(heap, id, before, after);
    ContainerNested(heap, id, before, after, log);
    var mid := log[|start|..];
    assert [] + mid + [] == mid;
    VisitObject(heap, id, before, after, [], mid, []);
  }

  lemma ContainerNested(heap: Heap, id: Ref, before: set<Ref>, after: set<Ref>, log: seq<Event>)
    requires id in heap && IsContainer(heap[id]) && AllNested(heap, after - (before + {id}), log)
    ensures AllNested(heap, after - before, log)
  {
  }

  lemma ClientVisited(heap: Heap, id: Ref, before: set<Ref>, after: set<Ref>, start: seq<Event>, m: seq<Event>, log: seq<Event>)
    requires id in heap && !IsContainer(heap[id]) && id !in before
    requires log == start + (CloseCalls(id, heap[id]) + m + ExitCalls(id, heap[id]))
    requires Visit(heap, before + {id}, after, m)
    requires forall v | v in Children(heap[id]) && v.Some? :: v.value in after
    requires AllReachable(ChildGraph(heap), Children(heap[id]), after - (before + {id}))
    requires AllNested(heap, after - (before + {id}) + {id}, log)
    ensures Visit(heap, before, after, log[|start|..])
    ensures AllReachable(ChildGraph(heap), [Some(id)], after - before)
    ensures AllNested(heap, after - before, log)
  {
    NewlyReachable(heap, id, before, after);
    VisitObject(heap, id, before, after, CloseCalls(id, heap[id]), m, ExitCalls(id, heap[id]));
    assert after - (before + {id}) + {id} == after - before;
  }

  lemma Regroup(log: seq<Event>, a: seq<Event>, b: seq<Event>, c: seq<Event>)
    ensures log + a + b + c == log + (a + b + c)
  {
  }

  class ResourceCloser {
    const heap: Heap
    var seen: set<Ref>
    /** The calls made so far. */
    var log: seq<Event>

    constructor (heap: Heap)
      ensures this.heap == heap && seen == {} && log == []
    {
      this.heap, seen, log := heap, {}, [];
    }

    ghost predicate Valid()
      reads this
    {
      WellFormed(heap) && seen <= heap.Keys && Progress(heap, seen, log)
    }

    method CloseResource(resource: Value)
      requires Valid() && (resource.Some? ==> resource.value in heap)
      modifies this`seen, this`log
      ensures Valid() && old(log) <= log
      ensures Visit(heap, old(seen), seen, log[|old(log)|..])
      ensures if resource.Some? then resource.value in seen else seen == old(seen) && log == old(log)
      ensures AllReachable(ChildGraph(heap), [resource], seen - old(seen))
      ensures AllNested(heap, seen - old(seen), log)
      decreases heap.Keys - seen, 0
    {
      if resource.None? {
        VisitNothing(heap, seen);
        return;
      }
      var id := resource.value;
      if id in seen {
        VisitNothing(heap, seen);
        return;
      }
      ghost var before := seen;
      seen := seen + {id};
      if IsContainer(heap[id]) {
        ProgressContainer(heap, before, log, id);
        CloseAll(heap[id].elements);
        ContainerVisited(heap, id, before, seen, old(log), log);
        return;
      }
      assert seen - {id} == before;
      ghost var nestedCalls := CloseClient(id, heap[id]);
      ClientVisited(heap, id, before, seen, old(log), nestedCalls, log);
    }

    /** A resource that is not a container: its close method, its nested resources, its context exit. */
    method CloseClient(id: Ref, r: Resource) returns (ghost nestedCalls: seq<Event>)
      requires WellFormed(heap) && id in seen && seen <= heap.Keys && Progress(heap, seen - {id}, log)
      requires r == heap[id] && !IsContainer(r)
      modifies this`seen, this`log
      ensures Valid() && log == old(log) + (CloseCalls(id, r) + nestedCalls + ExitCalls(id, r))
      ensures Visit(heap, old(seen), seen, nestedCalls)
      ensures forall v | v in Children(r) && v.Some? :: v.value in seen
      ensures AllReachable(ChildGraph(heap), Children(r), seen - old(seen))
      ensures AllNested(heap, seen - old(seen) + {id}, log)
      decreases heap.Keys - seen, 2
    {
      ProgressClient(heap, seen - {id}, log, id);
      assert seen - {id} + {id} == seen;
      var closeCalled := CallFirstCloseMethod(id, r);
      ghost var start := log;
      CloseAll(Children(r));
      ghost var nested := log;
      nestedCalls := log[|start|..];
      assert log == start + nestedCalls;
      if !closeCalled {
        CallContextExit(id, r);
      } else {
        assert log == log + ExitCalls(id, r);
      }
      ClientEnds(heap, id, old(seen), seen, old(log), nestedCalls, nested, log);
    }

    method CloseAll(values: seq<Value>)
      requires Valid() && forall v | v in values && v.Some? :: v.value in heap
      modifies this`seen, this`log
      ensures Valid() && old(log) <= log
      ensures Visit(heap, old(seen), seen, log[|old(log)|..])
      ensures forall v | v in values && v.Some? :: v.value in seen
      ensures AllReachable(ChildGraph(heap), values, seen - old(seen))
      ensures AllNested(heap, seen - old(seen), log)
      decreases heap.Keys - seen, 1
    {
      VisitNothing(heap, seen);
      for n := 0 to |values|
        invariant Valid() && old(log) <= log
        invariant VisitedUpto(heap, values, n, old(seen), seen, log[|old(log)|..])
        invariant AllNested(heap, seen - old(seen), log)
      {
        ghost var s, l := seen, log;
        CloseResource(values[n]);
        LogGrows(old(log), l, log);
        NestedBoth(heap, old(seen), s, seen, l, log);
        VisitNext(heap, values, n, old(seen), s, seen, l[|old(log)|..], log[|l|..]);
      }
    }

    method CallFirstCloseMethod(id: Ref, r: Resource) returns (called: bool)
      modifies this`log
      ensures log == old(log) + CloseCalls(id, r)
      ensures called == Accepts(r)
    {
      for n := 0 to |CLOSE_METHODS|
        invariant log == old(log)
        invariant FirstCallable(r, CLOSE_METHODS) == FirstCallable(r, CLOSE_METHODS[n..])
      {
        var m := Lookup(r.closers, CLOSE_METHODS[n], Absent);
        if m.Callable? {
          log := log + [Close(id, CLOSE_METHODS[n])];
          match m.outcome
          case Returns => return true;
          case RaisesTypeError => return false;
          case RaisesOther => return true;
        }
      }
      return false;
    }

    method CallContextExit(id: Ref, r: Resource)
      requires !Accepts(r)
      modifies this`log
      ensures log == old(log) + ExitCalls(id, r)
    {
      if r.asyncExit.Callable? {
        log := log + [AsyncExit(id)];
        if r.asyncExit.outcome.Returns? {
          return;
        }
      }
      if r.syncExit.Callable? {
        log := log + [SyncExit(id)];
      }
    }
  }

  /** Whatever calls raise: everything reachable is visited, nothing else is, and each object sees its calls once. */
  method CloseResourceFrom(heap: Heap, resource: Value) returns (seen: set<Ref>, log: seq<Event>)
    requires WellFormed(heap) && (resource.Some? ==> resource.value in heap)
    ensures forall id :: id in seen <==> resource.Some? && Reachable(ChildGraph(heap), resource.value, id)
    ensures seen <= heap.Keys
    ensures forall id :: On(log, id) == if id in seen then CallsOn(id, heap[id]) else []
    ensures AllNested(heap, seen, log)
    ensures forall id, x | id in seen && RefersTo(heap[id], x) :: x in seen
    ensures forall id | id in seen :: SeesItsCalls(id, heap[id], log)
  {
    var closer := new ResourceCloser(heap);
    closer.CloseResource(resource);
    seen, log := closer.seen, closer.log;
    VisitOutcome(heap, resource, seen, log);
    OutcomeOnFields(heap, seen, log);
  }

  lemma VisitOutcome(heap: Heap, resource: Value, seen: set<Ref>, log: seq<Event>)
    requires Visit(heap, {}, seen, log[0..]) && AllReachable(ChildGraph(heap), [resource], seen - {})
    requires AllNested(heap, seen - {}, log)
    requires if resource.Some? then resource.value in seen else seen == {} && log == []
    ensures forall id :: id in seen <==> resource.Some? && Reachable(ChildGraph(heap), resource.value, id)
    ensures seen <= heap.Keys && forall id :: On(log, id) == if id in seen then CallsOn(id, heap[id]) else []
    ensures AllNested(heap, seen, log) && ChildrenWithin(ChildGraph(heap), seen, seen)
  {
    assert log[0..] == log && seen - {} == seen;
    if resource.Some? {
      VisitFromRoot(heap, resource.value, seen, log);
    }
  }

  /** A complete visit from a root, starting with nothing seen. */
  lemma VisitFromRoot(heap: Heap, root: Ref, seen: set<Ref>, log: seq<Event>)
    requires Visit(heap, {}, seen, log) && root in seen
    requires AllReachable(ChildGraph(heap), [Some(root)], seen - {})
    ensures forall id :: id in seen <==> Reachable(ChildGraph(heap), root, id)
    ensures forall id :: On(log, id) == if id in seen then CallsOn(id, heap[id]) else []
  {
    assert seen - {} == seen;
    forall id | Reachable(ChildGraph(heap), root, id) ensures id in seen {
      ClosedContainsReachable(ChildGraph(heap), seen, root, id);
    }
    forall id | id in seen ensures Reachable(ChildGraph(heap), root, id) {
      var v :| v in [Some(root)] && v.Some? && Reachable(ChildGraph(heap), v.value, id);
    }
  }

  // ---------- The same, said of an object's fields ----------

  /** A mapping or an iterable that is no text refers to its elements, any other object through the nested attributes. */
  ghost predicate RefersTo(r: Resource, x: Ref) {
    if r.isMapping || (r.isIterable && !r.isText) then Some(x) in r.elements
    else
      exists name | name in {"client", "async_client", "sync_client", "root_client", "connection_pool", "transport", "session",
                             "imap_service", "_client", "_async_client", "_sync_client", "_transport", "_session"} ::
        name in r.nested && r.nested[name] == Some(x)
  }

  lemma EdgesAreReferences(heap: Heap, id: Ref, x: Ref)
    requires id in heap
    ensures HasEdge(ChildGraph(heap), id, x) <==> RefersTo(heap[id], x)
  {
    var r, children := heap[id], Children(heap[id]);
    assert HasEdge(ChildGraph(heap), id, x) <==> Some(x) in children;
    if !(r.isMapping || (r.isIterable && !r.isText)) {
      NestedAttributes(r, x);
    }
  }

  lemma NestedAttributes(r: Resource, x: Ref)
    requires !(r.isMapping || (r.isIterable && !r.isText))
    ensures Some(x) in Children(r) <==> RefersTo(r, x)
  {
    var children := Children(r);
    forall i | 0 <= i < |NESTED_RESOURCE_ATTRS| && children[i] == Some(x) ensures RefersTo(r, x) {
      assert NESTED_RESOURCE_ATTRS[i] in r.nested;
    }
    if RefersTo(r, x) {
      var name :| name in NESTED_RESOURCE_ATTRS && name in r.nested && r.nested[name] == Some(x);
      var i :| 0 <= i < |NESTED_RESOURCE_ATTRS| && NESTED_RESOURCE_ATTRS[i] == name;
      assert children[i] == Some(x);
    }
  }

  predicate HasMethod(r: Resource, name: string) {
    name in r.closers && r.closers[name].Callable?
  }

  /** The close method to try: the first of these that the object has. */
  ghost predicate IsTried(r: Resource, name: string) {
    && HasMethod(r, name)
    && match name
       case "aclose" => true
       case "close" => !HasMethod(r, "aclose")
       case "shutdown" => !HasMethod(r, "aclose") && !HasMethod(r, "close")
       case "disconnect" => !HasMethod(r, "aclose") && !HasMethod(r, "close") && !HasMethod(r, "shutdown")
       case "terminate" =>
         !HasMethod(r, "aclose") && !HasMethod(r, "close") && !HasMethod(r, "shutdown") && !HasMethod(r, "disconnect")
       case _ => false
  }

  /** It returned, or raised otherwise than by its arguments. */
  ghost predicate IsClosed(r: Resource) {
    exists name :: IsTried(r, name) && r.closers[name].outcome != RaisesTypeError
  }

  /** A container sees no call; any other object its one close call, and its exits only if that did not close it. */
  ghost predicate SeesItsCalls(id: Ref, r: Resource, log: seq<Event>) {
    var isClient := !(r.isMapping || (r.isIterable && !r.isText));
    && (forall name :: Close(id, name) in log <==> isClient && IsTried(r, name))
    && (AsyncExit(id) in log <==> isClient && !IsClosed(r) && r.asyncExit.Callable?)
    && (SyncExit(id) in log <==> isClient && !IsClosed(r) && r.syncExit.Callable? && r.asyncExit != Callable(Returns))
  }

  lemma FirstCallableIsTried(r: Resource, name: string)
    ensures FirstCallable(r, CLOSE_METHODS) == Some(name) <==> IsTried(r, name)
  {
    var first := FirstCallable(r, CLOSE_METHODS);
    assert CLOSE_METHODS == ["aclose", "close", "shutdown", "disconnect", "terminate"];
    assert forall n | n in CLOSE_METHODS :: HasMethod(r, n) <==> Lookup(r.closers, n, Absent).Callable?;
    assert CLOSE_METHODS[0] in CLOSE_METHODS && CLOSE_METHODS[1] in CLOSE_METHODS && CLOSE_METHODS[2] in CLOSE_METHODS
           && CLOSE_METHODS[3] in CLOSE_METHODS && CLOSE_METHODS[4] in CLOSE_METHODS;
  }

  lemma {:induction false} InOwnLog(log: seq<Event>, e: Event)
    ensures e in log <==> e in On(log, e.id)
  {
    if log != [] {
      var rest, last := log[..|log| - 1], log[|log| - 1];
      InOwnLog(rest, e);
      assert log == rest + [last];
    }
  }

  lemma CallsSeen(id: Ref, r: Resource, log: seq<Event>)
    requires On(log, id) == CallsOn(id, r)
    ensures SeesItsCalls(id, r, log)
  {
    forall name ensures Close(id, name) in log <==> Close(id, name) in CallsOn(id, r) { InOwnLog(log, Close(id, name)); }
    InOwnLog(log, AsyncExit(id));
    InOwnLog(log, SyncExit(id));
    forall name ensures FirstCallable(r, CLOSE_METHODS) == Some(name) <==> IsTried(r, name) { FirstCallableIsTried(r, name); }
    AcceptedIsClosed(r);
    if !IsContainer(r) {
      CallsOnObject(id, r);
    }
  }

  lemma AcceptedIsClosed(r: Resource)
    ensures Accepts(r) <==> IsClosed(r)
  {
    var first := FirstCallable(r, CLOSE_METHODS);
    forall name ensures first == Some(name) <==> IsTried(r, name) { FirstCallableIsTried(r, name); }
  }

  lemma OutcomeOnFields(heap: Heap, seen: set<Ref>, log: seq<Event>)
    requires seen <= heap.Keys && ChildrenWithin(ChildGraph(heap), seen, seen)
    requires forall id :: On(log, id) == if id in seen then CallsOn(id, heap[id]) else []
    ensures forall id, x | id in seen && RefersTo(heap[id], x) :: x in seen
    ensures forall id | id in seen :: SeesItsCalls(id, heap[id], log)
  {
    forall id, x | id in seen && RefersTo(heap[id], x) ensures x in seen {
      EdgesAreReferences(heap, id, x);
    }
    forall id | id in seen ensures SeesItsCalls(id, heap[id], log) {
      CallsSeen(id, heap[id], log);
    }
  }

  /** The documented contract of one object: the first callable close method once, exits if it did not accept. */
  lemma CallsOnObject(id: Ref, r: Resource)
    requires !IsContainer(r)
    ensures var calls := CallsOn(id, r);
      && (forall i | 0 <= i < |calls| && calls[i].Close? :: i == 0)
      && (forall i | 0 <= i < |calls| && calls[i].SyncExit? :: i == |calls| - 1)
      && (forall i, j | 0 <= i < j < |calls| :: calls[i] != calls[j])
      && (forall name :: Close(id, name) in calls <==> FirstCallable(r, CLOSE_METHODS) == Some(name))
      && (AsyncExit(id) in calls <==> !Accepts(r) && r.asyncExit.Callable?)
      && (SyncExit(id) in calls <==> !Accepts(r) && r.syncExit.Callable? && r.asyncExit != Callable(Returns))
  {
  }
}
