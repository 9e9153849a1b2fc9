/**
 * The sequential part of the gRPC entry service: AddEntry and GetEntry
 * over the HTTP handler, a bounded broadcast queue with a non-blocking
 * publish, and the subscriber list that WatchEntries maintains. Every
 * call is atomic here; the mutex and the goroutines are not modelled.
 */
module Grpc {
  import opened Entries
  import opened Validation
  import opened InMem
  import opened Handlers

  /** The buffer size of the broadcast channel. */
  const BroadcastCapacity: nat := 100

  /** GetEntryResponse: the id and the URL of an entry. */
  datatype EntryResponse = EntryResponse(id: string, url: string)

  datatype Code = InvalidArgument

  /** A gRPC status error: a code and its formatted message. */
  datatype RpcError = RpcError(code: Code, message: string)

  /** A unary call's outcome: a response or a status error. */
  datatype Reply = Ok(resp: EntryResponse) | Failure(err: RpcError)

  /** The message CreateEntry's only error makes inside `Error Processing the URL: %v`. */
  const InvalidUrlMessage: string := "Error Processing the URL: invalid URL format"

  /** The message for an unknown id, `Entry not found: %s`. */
  function NotFoundMessage(id: string): string {
    "Entry not found: " + id
  }

  /**
   * The non-blocking send on the buffered channel: the item joins the back
   * of the queue when there is room, and is dropped otherwise.
   */
  function Offer(q: seq<EntryResponse>, item: EntryResponse): (r: (seq<EntryResponse>, bool)) {
    if |q| < BroadcastCapacity then (q + [item], true) else (q, false)
  }

  /** Offer never grows the queue beyond its capacity and only ever appends. */
  lemma OfferBounded(q: seq<EntryResponse>, item: EntryResponse)
    requires |q| <= BroadcastCapacity
    ensures var (q', accepted) := Offer(q, item);
      && |q'| <= BroadcastCapacity
      && q <= q'
      && (accepted <==> |q| < BroadcastCapacity)
      && (accepted ==> q'[|q|] == item && |q'| == |q| + 1)
      && (!accepted ==> q' == q)
  {
  }

  /** Items leave the queue in the order they were accepted. */
  lemma OfferThenTake(q: seq<EntryResponse>, a: EntryResponse, b: EntryResponse)
    requires |q| + 2 <= BroadcastCapacity
    ensures var (q1, _) := Offer(q, a);
      var (q2, _) := Offer(q1, b);
      q2[|q|] == a && q2[|q| + 1] == b && q2[..|q|] == q
  {
  }

  /** The list after removing the first element identical to `x`. */
  function RemoveFirst<T(==)>(s: seq<T>, x: T): (r: seq<T>)
    decreases |s|
  {
    if s == [] then []
    else if s[0] == x then s[1..]
    else [s[0]] + RemoveFirst(s[1..], x)
  }

  /** Removing an element that is absent changes nothing. */
  lemma {:induction false} RemoveFirstAbsent<T>(s: seq<T>, x: T)
    requires x !in s
    ensures RemoveFirst(s, x) == s
    decreases |s|
  {
    if s != [] {
      assert s[0] != x;
      RemoveFirstAbsent(s[1..], x);
      assert s == [s[0]] + s[1..];
    }
  }

  /** The element removed is the first occurrence: the list is spliced at that index. */
  lemma {:induction false} RemoveFirstAt<T>(s: seq<T>, x: T, i: nat)
    requires i < |s| && s[i] == x && x !in s[..i]
    ensures RemoveFirst(s, x) == s[..i] + s[i + 1..]
    decreases i
  {
    if i > 0 {
      assert s[0] != x by { assert s[0] == s[..i][0]; }
      assert s[1..][..i - 1] == s[1..i];
      assert x !in s[1..][..i - 1];
      RemoveFirstAt(s[1..], x, i - 1);
    }
  }

  /**
   * Removal keeps every other element, in order, and takes exactly one
   * copy of `x` when there is one.
   */
  lemma {:induction false} RemoveFirstMultiset<T>(s: seq<T>, x: T)
    ensures x in s ==> multiset(RemoveFirst(s, x)) + multiset{x} == multiset(s)
    ensures x !in s ==> multiset(RemoveFirst(s, x)) == multiset(s)
    ensures |RemoveFirst(s, x)| == if x in s then |s| - 1 else |s|
    decreases |s|
  {
    if s != [] {
      assert s == [s[0]] + s[1..];
      if s[0] != x {
        RemoveFirstMultiset(s[1..], x);
      }
    }
  }

  /** A watcher's stream: what was sent on it, and whether its `done` channel is closed. */
  class StreamSubscriber {
    var sent: seq<EntryResponse>
    var closed: bool

    constructor ()
      ensures sent == [] && !closed
    {
      sent := [];
      closed := false;
    }
  }

  /** One turn of a watcher's select loop: a received item (with the Send outcome) or a cancelled stream. */
  datatype Event = Receive(sendOk: bool) | Cancelled

  /** How a watcher's loop turn ends: it keeps going, ends normally, or ends with the Send error. */
  datatype WatchResult = Continue | Finished | SendFailed

  class GrpcServer {
    const handler: Handler
    var streams: seq<StreamSubscriber>
    var broadcast: seq<EntryResponse>
    /** Every response ever accepted by the queue, and those taken out of it, in order. */
    ghost var published: seq<EntryResponse>
    ghost var taken: seq<EntryResponse>

    /**
     * The queue stays within its buffer and is what was published and not
     * yet taken; the listed subscribers are distinct and none is closed.
     */
    ghost predicate Valid()
      reads this, streams
    {
      && |broadcast| <= BroadcastCapacity
      && published == taken + broadcast
      && (forall j, k :: 0 <= j < k < |streams| ==> streams[j] != streams[k])
      && (forall j :: 0 <= j < |streams| ==> !streams[j].closed)
    }

    /** NewGrpcServer: no subscribers and an empty queue. */
    constructor (handler: Handler)
      ensures this.handler == handler
      ensures streams == [] && broadcast == [] && published == [] && taken == []
      ensures Valid()
    {
      this.handler := handler;
      streams := [];
      broadcast := [];
      published := [];
      taken := [];
    }

    /**
     * AddEntry: CreateEntry on the handler; its error becomes
     * InvalidArgument and nothing is queued; otherwise the response is
     * offered to the queue and returned whether or not it was accepted.
     */
    method AddEntry(url: string, draws: seq<Draw>) returns (r: Reply)
      requires ValidDraws(draws) && Valid()
      modifies this, handler.db
      ensures Valid() && streams == old(streams) && taken == old(taken)
      ensures var (s', e, failed) := Create(old(handler.db.State()), url, handler.db.hashOf, handler.parse, IdOf(draws));
        && handler.db.State() == s'
        && (failed ==> r == Failure(RpcError(InvalidArgument, InvalidUrlMessage)) && broadcast == old(broadcast) && published == old(published))
        && (!failed ==> r == Ok(EntryResponse(e.id, e.url)) && broadcast == Offer(old(broadcast), r.resp).0)
    {
      var entry, failed := handler.CreateEntry(url, draws);
      if failed {
        return Failure(RpcError(InvalidArgument, InvalidUrlMessage));
      }
      var resp := EntryResponse(entry.id, entry.url);
      if |broadcast| < BroadcastCapacity {
        broadcast := broadcast + [resp];
        published := published + [resp];
      }
      r := Ok(resp);
    }

    /** GetEntry: InvalidArgument for an unknown id, else the entry's id and URL. */
    method GetEntry(id: string) returns (r: Reply)
      ensures id !in handler.db.entries ==> r == Failure(RpcError(InvalidArgument, NotFoundMessage(id)))
      ensures id in handler.db.entries ==> r == Ok(EntryResponse(handler.db.entries[id].id, handler.db.entries[id].url))
      ensures Consistent(handler.db.State()) && r.Ok? ==> r.resp.id == id
    {
      var entry, found := handler.db.GetEntry(id);
      if !found {
        return Failure(RpcError(InvalidArgument, NotFoundMessage(id)));
      }
      r := Ok(EntryResponse(entry.id, entry.url));
    }

    /** The start of WatchEntries: a new open subscriber joins the end of the list. */
    method Subscribe() returns (sub: StreamSubscriber)
      requires Valid()
      modifies this
      ensures Valid() && fresh(sub) && sub.sent == [] && !sub.closed
      ensures streams == old(streams) + [sub]
      ensures broadcast == old(broadcast) && published == old(published) && taken == old(taken)
    {
      sub := new StreamSubscriber();
      streams := streams + [sub];
    }

    /**
     * The deferred clean-up of WatchEntries: the first subscriber identical
     * to `sub` is spliced out and its `done` is closed; an absent `sub`
     * changes nothing.
     */
    method Unsubscribe(sub: StreamSubscriber)
      requires Valid()
      modifies this, sub
      ensures Valid() && streams == RemoveFirst(old(streams), sub) && sub !in streams
      ensures sub in old(streams) ==> sub.closed && !old(sub.closed)
      ensures sub !in old(streams) ==> sub.closed == old(sub.closed)
      ensures sub.sent == old(sub.sent)
      ensures broadcast == old(broadcast) && published == old(published) && taken == old(taken)
    {
      var i := 0;
      while i < |streams|
        invariant 0 <= i <= |streams|
        invariant streams == old(streams) && sub !in streams[..i]
      {
        if streams[i] == sub {
          RemoveFirstAt(streams, sub, i);
          streams := streams[..i] + streams[i + 1..];
          sub.closed := true;
          return;
        }
        assert streams[..i + 1] == streams[..i] + [streams[i]];
        i := i + 1;
      }
      assert streams[..i] == streams;
      RemoveFirstAbsent(streams, sub);
    }

    /**
     * One turn of a watcher's loop. A cancelled stream ends the loop; a
     * receive on an empty queue waits (nothing changes); otherwise the
     * oldest item leaves the queue for this watcher alone and is sent on
     * its stream. A loop that ends runs the clean-up.
     */
    method Step(sub: StreamSubscriber, ev: Event) returns (result: WatchResult)
      requires Valid() && sub in streams
      modifies this, sub
      ensures Valid() && published == old(published)
      ensures result == Continue ==> streams == old(streams)
      ensures result != Continue ==> streams == RemoveFirst(old(streams), sub) && sub.closed
      ensures ev.Cancelled? ==> result == Finished && broadcast == old(broadcast) && taken == old(taken) && sub.sent == old(sub.sent)
      ensures ev.Receive? && old(broadcast) == [] ==>
        result == Continue && broadcast == old(broadcast) && taken == old(taken) && sub.sent == old(sub.sent)
      ensures ev.Receive? && old(broadcast) != [] ==>
        && broadcast == old(broadcast)[1..]
        && taken == old(taken) + [old(broadcast)[0]]
        && (ev.sendOk ==> result == Continue && sub.sent == old(sub.sent) + [old(broadcast)[0]])
        && (!ev.sendOk ==> result == SendFailed && sub.sent == old(sub.sent))
    {
      if ev.Cancelled? {
        Unsubscribe(sub);
        return Finished;
      }
      if broadcast == [] {
        return Continue;
      }
      var item := broadcast[0];
      broadcast := broadcast[1..];
      taken := taken + [item];
      if !ev.sendOk {
        Unsubscribe(sub);
        return SendFailed;
      }
      sub.sent := sub.sent + [item];
      result := Continue;
    }
  }
}
