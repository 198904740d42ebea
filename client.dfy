/**
 * A model of the blocking facade `Artax\Client`: it turns a callback-driven
 * asynchronous HTTP client into blocking `request` and `requestMulti` calls.
 *
 * The reactor is reduced to the state the facade changes: a `running` flag
 * (`run` sets it, `stop` clears it) and the history of deferred kickoffs
 * handed to `once`. The asynchronous client's completions are external
 * events, modelled by the methods `OnResult`, `OnError`, `OnMultiResult`
 * and `OnMultiError`, which may only happen while the reactor runs.
 */
module Artax {

  datatype Option<T> = None | Some(value: T)

  datatype Result<T, E> = Success(value: T) | Failure(error: E)

  /** Object identity of a request; `SplObjectStorage` keys by identity, not content. */
  type ReqId = nat

  /** A request object: its identity and its URI (headers and body are opaque). */
  datatype Request = RequestObject(id: ReqId, uri: string)

  /** A response object, opaque to the facade. */
  datatype Response = Response(handle: nat)

  /** An exception raised by the asynchronous client, opaque to the facade. */
  datatype ExchangeError = ExchangeError(message: string)

  /** A PHP array key. */
  datatype Key = IntKey(i: int) | StrKey(s: string)

  /** A value the caller passes: a request object, or anything else, which is taken as a URI. */
  datatype Entry = RequestEntry(request: Request) | UriEntry(uri: string)

  /** A caller-supplied callable, opaque to the facade. */
  datatype Callback = Callback(handle: nat)

  /** What the asynchronous client reports for one request: success or exception. */
  datatype Outcome = Succeeded(response: Response) | Errored(error: ExchangeError)

  /** A closure handed to the reactor's `once`: it starts one exchange on the asynchronous client. */
  datatype Kickoff = SingleKickoff(target: Entry) | MultiKickoff(request: Request)

  /** A call of one of the caller's `requestMulti` callbacks. */
  datatype Event =
    | ResultDelivered(callback: Callback, key: Key, response: Response)
    | ErrorDelivered(callback: Callback, key: Key, error: ExchangeError)

  /** A cancellation forwarded to the asynchronous client. */
  datatype EngineCall = CancelForwarded(id: ReqId) | CancelAllForwarded

  /**
   * Exceptions raised by the facade itself: the `InvalidArgumentException`
   * for an empty request array, and the `UnexpectedValueException` that
   * `SplObjectStorage::offsetGet` raises for a request it does not hold.
   */
  datatype ClientError = EmptyRequestArray | UnknownRequest(id: ReqId)

  // ---------------------------------------------------------------------
  // Normalisation of the request array

  /** PHP array keys are unique. */
  predicate DistinctKeys(requests: seq<(Key, Entry)>) {
    forall i, j :: 0 <= i < j < |requests| ==> requests[i].0 != requests[j].0
  }

  /** No request object appears twice in the array. */
  predicate DistinctIdentities(requests: seq<(Key, Entry)>) {
    forall i, j :: 0 <= i < j < |requests| && requests[i].1.RequestEntry? && requests[j].1.RequestEntry? ==>
      requests[i].1.request.id != requests[j].1.request.id
  }

  /** An identity above that of every request object in the array, where fresh objects are allocated. */
  function IdBound(requests: seq<(Key, Entry)>): (b: ReqId)
    ensures forall i :: 0 <= i < |requests| && requests[i].1.RequestEntry? ==> requests[i].1.request.id < b
  {
    if requests == [] then 0
    else
      var rest := IdBound(requests[1..]);
      match requests[0].1
      case RequestEntry(q) => if q.id < rest then rest else q.id + 1
      case UriEntry(_) => rest
  }

  /**
   * `ns` is a normalisation of `requests`: the same keys in the same order,
   * every request object kept as it is, and every other value replaced by a
   * new request for that URI whose identity no other entry shares.
   */
  ghost predicate NormalizesTo(requests: seq<(Key, Entry)>, ns: seq<(Key, Request)>) {
    && |ns| == |requests|
    && (forall i :: 0 <= i < |ns| ==> ns[i].0 == requests[i].0)
    && (forall i :: 0 <= i < |ns| && requests[i].1.RequestEntry? ==> ns[i].1 == requests[i].1.request)
    && (forall i :: 0 <= i < |ns| && requests[i].1.UriEntry? ==> ns[i].1.uri == requests[i].1.uri)
    && (forall i, j :: 0 <= i < |ns| && 0 <= j < |ns| && i != j && requests[i].1.UriEntry? ==>
          ns[i].1.id != ns[j].1.id)
  }

  predicate DistinctRequestIds(ns: seq<(Key, Request)>) {
    forall i, j :: 0 <= i < j < |ns| ==> ns[i].1.id != ns[j].1.id
  }

  /** Distinct request objects in the array give distinct normalised requests. */
  lemma NormalizedIdsDistinct(requests: seq<(Key, Entry)>, ns: seq<(Key, Request)>)
    requires NormalizesTo(requests, ns) && DistinctIdentities(requests)
    ensures DistinctRequestIds(ns)
  {
    forall i, j | 0 <= i < j < |ns| ensures ns[i].1.id != ns[j].1.id {
      if requests[i].1.UriEntry? || requests[j].1.UriEntry? {
        if requests[i].1.UriEntry? {
          assert ns[i].1.id != ns[j].1.id;
        } else {
          assert ns[j].1.id != ns[i].1.id;
        }
      }
    }
  }

  // ---------------------------------------------------------------------
  // The pending map built by the fan-out loop of requestMulti

  function RequestIds(ns: seq<(Key, Request)>): set<ReqId> {
    set i | 0 <= i < |ns| :: ns[i].1.id
  }

  /** The map after `attach(request, key)` for each entry in order; a later attach of the same object overwrites. */
  function Registered(ns: seq<(Key, Request)>): map<ReqId, Key> {
    if ns == [] then map[]
    else
      var last := ns[|ns| - 1];
      Registered(ns[..|ns| - 1])[last.1.id := last.0]
  }

  /** The kickoffs handed to `once`, one per entry in order. */
  function Kickoffs(ns: seq<(Key, Request)>): seq<Kickoff> {
    if ns == [] then []
    else Kickoffs(ns[..|ns| - 1]) + [MultiKickoff(ns[|ns| - 1].1)]
  }

  lemma {:induction false} KickoffsOnePerEntry(ns: seq<(Key, Request)>)
    ensures |Kickoffs(ns)| == |ns|
    ensures forall i :: 0 <= i < |ns| ==> Kickoffs(ns)[i] == MultiKickoff(ns[i].1)
  {
    if ns != [] {
      var p := ns[..|ns| - 1];
      KickoffsOnePerEntry(p);
      forall i | 0 <= i < |ns| ensures Kickoffs(ns)[i] == MultiKickoff(ns[i].1) {
        if i < |p| {
          assert p[i] == ns[i];
        }
      }
    }
  }

  lemma {:induction false} RegisteredKeys(ns: seq<(Key, Request)>)
    ensures Registered(ns).Keys == RequestIds(ns)
  {
    if ns != [] {
      var p := ns[..|ns| - 1];
      var last := ns[|ns| - 1];
      RegisteredKeys(p);
      forall x ensures x in RequestIds(ns) <==> x in RequestIds(p) + {last.1.id} {
        if x in RequestIds(ns) {
          var i :| 0 <= i < |ns| && ns[i].1.id == x;
          if i < |p| {
            assert p[i] == ns[i];
          }
        }
        if x in RequestIds(p) {
          var i :| 0 <= i < |p| && p[i].1.id == x;
          assert ns[i] == p[i];
        }
      }
    }
  }

  /** The key stored for a request is the one of its last occurrence in the array. */
  lemma {:induction false} RegisteredLookup(ns: seq<(Key, Request)>, i: nat)
    requires i < |ns|
    requires forall j :: i < j < |ns| ==> ns[j].1.id != ns[i].1.id
    ensures ns[i].1.id in Registered(ns) && Registered(ns)[ns[i].1.id] == ns[i].0
  {
    if i < |ns| - 1 {
      var p := ns[..|ns| - 1];
      assert p[i] == ns[i];
      forall j | i < j < |p| ensures p[j].1.id != p[i].1.id {
        assert p[j] == ns[j];
      }
      RegisteredLookup(p, i);
    }
  }

  lemma {:induction false} RegisteredSize(ns: seq<(Key, Request)>)
    requires DistinctRequestIds(ns)
    ensures |Registered(ns)| == |ns|
  {
    if ns != [] {
      var p := ns[..|ns| - 1];
      var last := ns[|ns| - 1];
      assert DistinctRequestIds(p) by {
        forall i, j | 0 <= i < j < |p| ensures p[i].1.id != p[j].1.id {
          assert p[i] == ns[i] && p[j] == ns[j];
        }
      }
      RegisteredSize(p);
      RegisteredKeys(p);
      assert last.1.id !in Registered(p);
    }
  }

  ghost predicate Injective(m: map<ReqId, Key>) {
    forall a, b :: a in m && b in m && a != b ==> m[a] != m[b]
  }

  /**
   * With unique keys and distinct request objects, the fan-out registers
   * every normalised request under its own caller key, one entry per element.
   */
  lemma FanOutRegistersEachRequest(requests: seq<(Key, Entry)>, ns: seq<(Key, Request)>)
    requires NormalizesTo(requests, ns) && DistinctKeys(requests) && DistinctIdentities(requests)
    ensures |Registered(ns)| == |requests|
    ensures forall i :: 0 <= i < |ns| ==> ns[i].1.id in Registered(ns) && Registered(ns)[ns[i].1.id] == requests[i].0
    ensures Injective(Registered(ns))
    ensures Registered(ns).Values == set i | 0 <= i < |requests| :: requests[i].0
  {
    NormalizedIdsDistinct(requests, ns);
    RegisteredSize(ns);
    RegisteredKeys(ns);
    forall i | 0 <= i < |ns| ensures ns[i].1.id in Registered(ns) && Registered(ns)[ns[i].1.id] == requests[i].0 {
      RegisteredLookup(ns, i);
    }
    var m := Registered(ns);
    forall a, b | a in m && b in m && a != b ensures m[a] != m[b] {
      var i :| 0 <= i < |ns| && ns[i].1.id == a;
      var j :| 0 <= j < |ns| && ns[j].1.id == b;
      assert i != j;
      if i < j {
        assert requests[i].0 != requests[j].0;
      } else {
        assert requests[j].0 != requests[i].0;
      }
    }
    forall k | k in m.Values ensures exists i :: 0 <= i < |requests| && requests[i].0 == k {
      var a :| a in m && m[a] == k;
      var i :| 0 <= i < |ns| && ns[i].1.id == a;
      assert requests[i].0 == k;
    }
    forall i | 0 <= i < |requests| ensures requests[i].0 in m.Values {
      assert m[ns[i].1.id] == requests[i].0;
    }
  }

  /**
   * The same request object twice in the array: two exchanges are started,
   * but only one entry is registered, under the later key.
   */
  lemma DuplicateObjectKeepsLaterKey(a: Key, b: Key, r: Request, ns: seq<(Key, Request)>)
    requires NormalizesTo([(a, RequestEntry(r)), (b, RequestEntry(r))], ns)
    ensures Kickoffs(ns) == [MultiKickoff(r), MultiKickoff(r)]
    ensures Registered(ns) == map[r.id := b]
  {
    var requests := [(a, RequestEntry(r)), (b, RequestEntry(r))];
    assert requests[0].1.RequestEntry? && requests[1].1.RequestEntry?;
    assert ns[0] == (a, r) && ns[1] == (b, r);
    assert ns[..1] == [ns[0]] && ns[..1][..0] == [];
    assert Kickoffs(ns[..1]) == Kickoffs([]) + [MultiKickoff(r)];
    assert Registered(ns[..1]) == Registered([])[r.id := a];
    assert Kickoffs(ns) == Kickoffs(ns[..1]) + [MultiKickoff(r)];
    assert Registered(ns) == Registered(ns[..1])[r.id := b];
  }

  // ---------------------------------------------------------------------
  // The deliveries of a requestMulti run

  function EventIds(events: seq<(ReqId, Outcome)>): set<ReqId> {
    set i | 0 <= i < |events| :: events[i].0
  }

  predicate DistinctEventIds(events: seq<(ReqId, Outcome)>) {
    forall i, j :: 0 <= i < j < |events| ==> events[i].0 != events[j].0
  }

  /** The callback call of one completion: the success callback or the error callback, with the caller's key. */
  function Delivery(onResult: Callback, onError: Callback, key: Key, outcome: Outcome): Event {
    match outcome
    case Succeeded(r) => ResultDelivered(onResult, key, r)
    case Errored(e) => ErrorDelivered(onError, key, e)
  }

  /**
   * The callback calls that the completions `events` cause, in order, when
   * `m` is pending: a completion of a pending request clears its entry and
   * delivers its key. The last branch, a completion of a request no longer
   * pending, is where PHP raises and abandons the run; no lemma about a run
   * reaches it, since each requires every completion to be of a pending
   * request.
   */
  function Deliveries(m: map<ReqId, Key>, onResult: Callback, onError: Callback, events: seq<(ReqId, Outcome)>): seq<Event>
    decreases |events|
  {
    if events == [] then []
    else
      var id := events[0].0;
      if id in m then [Delivery(onResult, onError, m[id], events[0].1)] + Deliveries(m - {id}, onResult, onError, events[1..])
      else Deliveries(m, onResult, onError, events[1..])
  }

  function DeliveredKeys(log: seq<Event>): seq<Key> {
    if log == [] then [] else [log[0].key] + DeliveredKeys(log[1..])
  }

  lemma EventIdsSplit(events: seq<(ReqId, Outcome)>)
    requires events != []
    ensures EventIds(events) == {events[0].0} + EventIds(events[1..])
  {
    var t := events[1..];
    forall x ensures x in EventIds(events) <==> x in {events[0].0} + EventIds(t) {
      if x in EventIds(events) {
        var i :| 0 <= i < |events| && events[i].0 == x;
        if i > 0 {
          assert t[i - 1] == events[i];
        }
      }
      if x in EventIds(t) {
        var i :| 0 <= i < |t| && t[i].0 == x;
        assert events[i + 1] == t[i];
      }
    }
  }

  lemma DistinctEventIdsTail(events: seq<(ReqId, Outcome)>)
    requires events != [] && DistinctEventIds(events)
    ensures DistinctEventIds(events[1..]) && events[0].0 !in EventIds(events[1..])
  {
    var t := events[1..];
    forall i, j | 0 <= i < j < |t| ensures t[i].0 != t[j].0 {
      assert t[i] == events[i + 1] && t[j] == events[j + 1];
    }
  }

  /** One step of a run: the first completion resolves a pending entry, and the rest resolve what remains. */
  lemma RunStep(m: map<ReqId, Key>, onResult: Callback, onError: Callback, events: seq<(ReqId, Outcome)>)
    requires events != [] && DistinctEventIds(events) && EventIds(events) == m.Keys
    ensures events[0].0 in m
    ensures DistinctEventIds(events[1..]) && EventIds(events[1..]) == (m - {events[0].0}).Keys
    ensures (m - {events[0].0} == map[]) <==> (events[1..] == [])
    ensures Deliveries(m, onResult, onError, events) ==
      [Delivery(onResult, onError, m[events[0].0], events[0].1)] + Deliveries(m - {events[0].0}, onResult, onError, events[1..])
  {
    assert events[0].0 in EventIds(events);
    EventIdsSplit(events);
    DistinctEventIdsTail(events);
    var rest := m - {events[0].0};
    if events[1..] != [] {
      assert events[1..][0].0 in EventIds(events[1..]);
    } else {
      assert rest.Keys == {};
    }
  }

  /** When each pending request completes once, the i-th completion delivers its own key and outcome. */
  lemma {:induction false} DeliveriesFollowEvents(m: map<ReqId, Key>, onResult: Callback, onError: Callback, events: seq<(ReqId, Outcome)>)
    requires DistinctEventIds(events) && EventIds(events) <= m.Keys
    ensures |Deliveries(m, onResult, onError, events)| == |events|
    ensures forall i :: 0 <= i < |events| ==>
      Deliveries(m, onResult, onError, events)[i] == Delivery(onResult, onError, m[events[i].0], events[i].1)
  {
    if events != [] {
      var id := events[0].0;
      var t := events[1..];
      var m' := m - {id};
      assert events[0].0 in EventIds(events);
      EventIdsSplit(events);
      DistinctEventIdsTail(events);
      DeliveriesFollowEvents(m', onResult, onError, t);
      var d := Deliveries(m, onResult, onError, events);
      assert d == [Delivery(onResult, onError, m[id], events[0].1)] + Deliveries(m', onResult, onError, t);
      forall i | 0 <= i < |events| ensures d[i] == Delivery(onResult, onError, m[events[i].0], events[i].1) {
        if i > 0 {
          assert t[i - 1] == events[i];
          assert events[i].0 in EventIds(t);
        }
      }
    }
  }

  /** Removing an entry of an injective map removes exactly its value. */
  lemma InjectiveRemove(m: map<ReqId, Key>, id: ReqId)
    requires Injective(m) && id in m
    ensures Injective(m - {id})
    ensures m.Values == (m - {id}).Values + {m[id]} && m[id] !in (m - {id}).Values
    ensures |m - {id}| == |m| - 1
  {
    var m' := m - {id};
    assert m'.Keys == m.Keys - {id};
    forall v | v in m.Values ensures v in m'.Values + {m[id]} {
      var x :| x in m && m[x] == v;
      if x != id {
        assert x in m';
      }
    }
  }

  lemma DeliveredKeysCons(e: Event, log: seq<Event>)
    ensures multiset(DeliveredKeys([e] + log)) == multiset{e.key} + multiset(DeliveredKeys(log))
  {
    assert ([e] + log)[1..] == log;
  }

  lemma MultisetAddFresh(s: set<Key>, k: Key)
    requires k !in s
    ensures multiset(s + {k}) == multiset(s) + multiset{k}
  {
  }

  /**
   * When the caller keys are distinct and each pending request completes
   * exactly once, there are exactly as many callback calls as pending
   * requests and the delivered keys are the pending keys, each exactly once.
   */
  lemma {:induction false} EachKeyDeliveredOnce(m: map<ReqId, Key>, onResult: Callback, onError: Callback, events: seq<(ReqId, Outcome)>)
    requires Injective(m)
    requires DistinctEventIds(events) && EventIds(events) == m.Keys
    ensures |Deliveries(m, onResult, onError, events)| == |m|
    ensures multiset(DeliveredKeys(Deliveries(m, onResult, onError, events))) == multiset(m.Values)
  {
    if events == [] {
      assert m.Keys == {};
      assert m == map[];
    } else {
      var id := events[0].0;
      var m' := m - {id};
      RunStep(m, onResult, onError, events);
      InjectiveRemove(m, id);
      EachKeyDeliveredOnce(m', onResult, onError, events[1..]);
      var e := Delivery(onResult, onError, m[id], events[0].1);
      DeliveredKeysCons(e, Deliveries(m', onResult, onError, events[1..]));
      MultisetAddFresh(m'.Values, m[id]);
    }
  }

  // ---------------------------------------------------------------------
  // The facade

  class Client {
    /** `$pendingMultiRequests`: request identity to caller key. */
    var pending: map<ReqId, Key>
    /** `$response`: the one-shot result slot of `request`. */
    var response: Option<Response>
    /** The reactor's state: inside `run` and not yet stopped. */
    var running: bool
    /** Every closure handed to the reactor's `once`, in order. */
    var scheduled: seq<Kickoff>
    /** Every call of the caller's `requestMulti` callbacks, in order. */
    var log: seq<Event>
    /** `$onMultiResult` and `$onMultiError`, unset before the first `requestMulti`. */
    var onMultiResult: Option<Callback>
    var onMultiError: Option<Callback>
    /** Every cancellation forwarded to the asynchronous client, in order. */
    var engineCalls: seq<EngineCall>

    /** A pending entry can only exist after `requestMulti` stored the callbacks. */
    ghost predicate Valid()
      reads this
    {
      pending != map[] ==> onMultiResult.Some? && onMultiError.Some?
    }

    /** The reactor is never stopped while multi requests remain pending. */
    ghost predicate RunningWhilePending()
      reads this
    {
      pending != map[] ==> running
    }

    constructor ()
      ensures Valid() && RunningWhilePending()
      ensures pending == map[] && response == None && !running
      ensures scheduled == [] && log == [] && engineCalls == []
      ensures onMultiResult == None && onMultiError == None
    {
      pending := map[];
      response := None;
      running := false;
      scheduled := [];
      log := [];
      onMultiResult := None;
      onMultiError := None;
      engineCalls := [];
    }

    /**
     * The blocking single request. `completion` is what the asynchronous
     * client reports while the reactor runs; `None` stands for a reactor
     * stopped by other code before either callback fired.
     */
    method Request(target: Entry, completion: Option<Outcome>) returns (r: Result<Option<Response>, ExchangeError>)
      requires Valid() && !running
      modifies this`scheduled, this`running, this`response
      ensures Valid() && (old(RunningWhilePending()) ==> RunningWhilePending())
      ensures !running
      ensures scheduled == old(scheduled) + [SingleKickoff(target)]
      ensures completion.Some? && completion.value.Succeeded? ==>
        r == Success(Some(completion.value.response)) && response == None
      ensures completion.Some? && completion.value.Errored? ==>
        r == Failure(completion.value.error) && response == old(response)
      ensures completion.None? ==> r == Success(old(response)) && response == None
    {
      scheduled := scheduled + [SingleKickoff(target)];
      running := true;
      match completion {
        case Some(Succeeded(resp)) =>
          OnResult(resp);
        case Some(Errored(e)) =>
          var thrown := OnError(e);
          return Failure(thrown);
        case None =>
          running := false;
      }
      var slot := response;
      response := None;
      r := Success(slot);
    }

    /** Success callback of `request`: stop the reactor, then fill the slot. */
    method OnResult(resp: Response)
      requires running
      modifies this`running, this`response
      ensures !running && response == Some(resp)
    {
      running := false;
      response := Some(resp);
    }

    /** Error callback of `request`: stop the reactor, then raise the error; the slot is left alone. */
    method OnError(e: ExchangeError) returns (thrown: ExchangeError)
      requires running
      modifies this`running
      ensures !running && thrown == e
    {
      running := false;
      thrown := e;
    }

    /**
     * Every request object is kept; every other value becomes a new request
     * with that URI, allocated at identities above all those in the array.
     */
    static method NormalizeMultiRequests(requests: seq<(Key, Entry)>) returns (r: Result<seq<(Key, Request)>, ClientError>)
      ensures requests == [] <==> r.Failure?
      ensures r.Failure? ==> r.error == EmptyRequestArray
      ensures r.Success? ==> NormalizesTo(requests, r.value)
    {
      if requests == [] {
        return Failure(EmptyRequestArray);
      }
      var bound := IdBound(requests);
      var next := bound;
      var normalized: seq<(Key, Request)> := [];
      for i := 0 to |requests|
        invariant bound <= next
        invariant |normalized| == i
        invariant forall k :: 0 <= k < i ==> normalized[k].0 == requests[k].0
        invariant forall k :: 0 <= k < i && requests[k].1.RequestEntry? ==> normalized[k].1 == requests[k].1.request
        invariant forall k :: 0 <= k < i && requests[k].1.UriEntry? ==>
          normalized[k].1.uri == requests[k].1.uri && bound <= normalized[k].1.id < next
        invariant forall k, l :: 0 <= k < l < i && requests[k].1.UriEntry? && requests[l].1.UriEntry? ==>
          normalized[k].1.id < normalized[l].1.id
      {
        var key := requests[i].0;
        var request: Request;
        match requests[i].1 {
          case RequestEntry(q) =>
            request := q;
          case UriEntry(u) =>
            request := RequestObject(next, u);
            next := next + 1;
        }
        normalized := normalized + [(key, request)];
      }
      r := Success(normalized);
    }

    /**
     * `requestMulti` up to the point where it enters `run`: the pending map
     * is replaced, the callbacks stored, the array normalised, and each
     * request scheduled and registered. The completions that `run` then
     * serves are `OnMultiResult` and `OnMultiError` (see `RunUntilResolved`).
     */
    method RequestMulti(requests: seq<(Key, Entry)>, onResult: Callback, onError: Callback)
      returns (r: Result<(), ClientError>, ghost normalized: seq<(Key, Request)>)
      requires Valid() && !running
      modifies this`pending, this`onMultiResult, this`onMultiError, this`scheduled, this`running
      ensures Valid() && RunningWhilePending()
      ensures onMultiResult == Some(onResult) && onMultiError == Some(onError)
      ensures requests == [] ==>
        r == Failure(EmptyRequestArray) && pending == map[] && scheduled == old(scheduled) && !running
      ensures requests != [] ==>
        && r == Success(())
        && NormalizesTo(requests, normalized)
        && pending == Registered(normalized)
        && scheduled == old(scheduled) + Kickoffs(normalized)
        && running
    {
      pending := map[];
      onMultiResult := Some(onResult);
      onMultiError := Some(onError);
      var n := NormalizeMultiRequests(requests);
      if n.Failure? {
        return Failure(n.error), [];
      }
      var ns := n.value;
      normalized := ns;
      for i := 0 to |ns|
        invariant pending == Registered(normalized[..i])
        invariant scheduled == old(scheduled) + Kickoffs(normalized[..i])
        invariant !running
        invariant onMultiResult == Some(onResult) && onMultiError == Some(onError)
      {
        var key := ns[i].0;
        var request := ns[i].1;
        assert normalized[..i + 1][..i] == normalized[..i];
        scheduled := scheduled + [MultiKickoff(request)];
        pending := pending[request.id := key];
      }
      assert normalized[..|normalized|] == normalized;
      running := true;
      r := Success(());
    }

    /**
     * `clearPendingMultiRequest`: look up the key of `id`, remove that entry
     * and stop the reactor if no entry remains. An identity that is not
     * pending raises, and nothing changes.
     */
    method ClearPendingMultiRequest(id: ReqId) returns (r: Result<Key, ClientError>)
      requires Valid()
      modifies this`pending, this`running
      ensures Valid()
      ensures old(RunningWhilePending()) ==> RunningWhilePending()
      ensures id !in old(pending) ==>
        r == Failure(UnknownRequest(id)) && pending == old(pending) && running == old(running)
      ensures id in old(pending) ==>
        && r == Success(old(pending)[id])
        && pending == old(pending) - {id}
        && running == (old(running) && pending != map[])
    {
      if id !in pending {
        return Failure(UnknownRequest(id));
      }
      var key := pending[id];
      pending := pending - {id};
      if pending == map[] {
        running := false;
      }
      r := Success(key);
    }

    /** Success callback of one `requestMulti` request: clear its entry, then always call the caller's success callback. */
    method OnMultiResult(id: ReqId, resp: Response) returns (r: Result<(), ClientError>)
      requires Valid() && running
      modifies this`pending, this`running, this`log
      ensures Valid()
      ensures old(RunningWhilePending()) ==> RunningWhilePending()
      ensures id !in old(pending) ==>
        r == Failure(UnknownRequest(id)) && pending == old(pending) && running && log == old(log)
      ensures id in old(pending) ==>
        && r == Success(())
        && pending == old(pending) - {id}
        && running == (pending != map[])
        && log == old(log) + [ResultDelivered(onMultiResult.value, old(pending)[id], resp)]
    {
      var key := ClearPendingMultiRequest(id);
      if key.Failure? {
        return Failure(key.error);
      }
      var callback := onMultiResult.value;
      log := log + [ResultDelivered(callback, key.value, resp)];
      r := Success(());
    }

    /** Error callback of one `requestMulti` request: clear its entry, then always call the caller's error callback. */
    method OnMultiError(id: ReqId, e: ExchangeError) returns (r: Result<(), ClientError>)
      requires Valid() && running
      modifies this`pending, this`running, this`log
      ensures Valid()
      ensures old(RunningWhilePending()) ==> RunningWhilePending()
      ensures id !in old(pending) ==>
        r == Failure(UnknownRequest(id)) && pending == old(pending) && running && log == old(log)
      ensures id in old(pending) ==>
        && r == Success(())
        && pending == old(pending) - {id}
        && running == (pending != map[])
        && log == old(log) + [ErrorDelivered(onMultiError.value, old(pending)[id], e)]
    {
      var key := ClearPendingMultiRequest(id);
      if key.Failure? {
        return Failure(key.error);
      }
      var callback := onMultiError.value;
      log := log + [ErrorDelivered(callback, key.value, e)];
      r := Success(());
    }

    /** The asynchronous client's completion of a pending request: its success or its error callback fires. */
    method Complete(id: ReqId, outcome: Outcome)
      requires Valid() && running && id in pending
      modifies this`pending, this`running, this`log
      ensures Valid()
      ensures pending == old(pending) - {id} && running == (pending != map[])
      ensures log == old(log) + [Delivery(onMultiResult.value, onMultiError.value, old(pending)[id], outcome)]
    {
      var r;
      match outcome {
        case Succeeded(resp) =>
          r := OnMultiResult(id, resp);
        case Errored(e) =>
          r := OnMultiError(id, e);
      }
    }

    /**
     * The `run` phase of `requestMulti`: each pending request completes
     * once, in the order of `events`. The reactor is running before every
     * completion (each one requires it), and `trace` records that it is
     * still running after every completion but the last, and stopped after
     * the last.
     */
    method RunUntilResolved(events: seq<(ReqId, Outcome)>) returns (ghost trace: seq<bool>)
      requires Valid() && running
      requires pending != map[] && DistinctEventIds(events) && EventIds(events) == pending.Keys
      modifies this`pending, this`running, this`log
      ensures Valid() && RunningWhilePending()
      ensures pending == map[] && !running
      ensures log == old(log) + Deliveries(old(pending), onMultiResult.value, onMultiError.value, events)
      ensures |trace| == |events|
      ensures forall k :: 0 <= k < |events| ==> trace[k] == (k + 1 < |events|)
      decreases |events|
    {
      assert events != [];
      RunStep(pending, onMultiResult.value, onMultiError.value, events);
      Complete(events[0].0, events[0].1);
      if events[1..] == [] {
        trace := [running];
      } else {
        ghost var now := running;
        trace := RunUntilResolved(events[1..]);
        trace := [now] + trace;
      }
    }

    /** `cancel`: forward to the asynchronous client, then clear the entry as a completion would, delivering nothing. */
    method Cancel(request: Request) returns (r: Result<(), ClientError>)
      requires Valid()
      modifies this`engineCalls, this`pending, this`running
      ensures Valid()
      ensures old(RunningWhilePending()) ==> RunningWhilePending()
      ensures engineCalls == old(engineCalls) + [CancelForwarded(request.id)]
      ensures log == old(log)
      ensures request.id !in old(pending) ==>
        r == Failure(UnknownRequest(request.id)) && pending == old(pending) && running == old(running)
      ensures request.id in old(pending) ==>
        && r == Success(())
        && pending == old(pending) - {request.id}
        && running == (old(running) && pending != map[])
    {
      engineCalls := engineCalls + [CancelForwarded(request.id)];
      var key := ClearPendingMultiRequest(request.id);
      if key.Failure? {
        return Failure(key.error);
      }
      r := Success(());
    }

    /** `cancelAll`: forward to the asynchronous client, drop every entry and stop the reactor. */
    method CancelAll()
      requires Valid()
      modifies this`engineCalls, this`pending, this`running
      ensures Valid() && RunningWhilePending()
      ensures engineCalls == old(engineCalls) + [CancelAllForwarded]
      ensures pending == map[] && !running
    {
      engineCalls := engineCalls + [CancelAllForwarded];
      pending := map[];
      running := false;
    }
  }
}
