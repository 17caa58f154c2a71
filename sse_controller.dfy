/** The live-update registry of src/controllers/sseController.ts: a map from
    user to the list of open event-stream responses, and the fan-out write.
    A response is an opaque handle; everything written to any handle is kept,
    in order, in one output log. Node runs the handlers one at a time, so the
    registry is modelled sequentially. */
module SseController {

  /** An open event-stream response. */
  type Handle = nat

  /** One write to one response. */
  datatype Write = Write(handle: Handle, text: string)

  /** The line written when a stream opens (it fires the client's open handler). */
  const OpenLine: string := "\n"

  /** The payload-free change notification. */
  const DataUpdateEvent: string := "event: data-update\ndata: {}\n\n"

  /** `clients.get(userId) || []` */
  function Lookup(clients: map<int, seq<Handle>>, userId: int): seq<Handle> {
    if userId in clients then clients[userId] else []
  }

  /** One notification to each handle of the list, in list order. */
  function Broadcast(hs: seq<Handle>): (w: seq<Write>)
    ensures |w| == |hs|
    ensures forall i :: 0 <= i < |hs| ==> w[i] == Write(hs[i], DataUpdateEvent)
  {
    if hs == [] then [] else [Write(hs[0], DataUpdateEvent)] + Broadcast(hs[1..])
  }

  /** The writes a trigger for the user performs. */
  function Notified(clients: map<int, seq<Handle>>, userId: int): seq<Write> {
    Broadcast(Lookup(clients, userId))
  }

  /** The list without any occurrence of the handle, others in their order. */
  function Without(hs: seq<Handle>, h: Handle): (r: seq<Handle>)
    ensures forall g :: g in r <==> g in hs && g != h
    ensures |r| <= |hs|
  {
    if hs == [] then []
    else (if hs[0] != h then [hs[0]] else []) + Without(hs[1..], h)
  }

  /** How many times a handle occurs in a list. */
  function Count(hs: seq<Handle>, h: Handle): nat {
    if hs == [] then 0 else (if hs[0] == h then 1 else 0) + Count(hs[1..], h)
  }

  /** What one handle received, in order. */
  function LogOf(ws: seq<Write>, h: Handle): seq<string> {
    if ws == [] then []
    else (if ws[0].handle == h then [ws[0].text] else []) + LogOf(ws[1..], h)
  }

  function Repeat(s: string, n: nat): (r: seq<string>)
    ensures |r| == n && forall i :: 0 <= i < n ==> r[i] == s
  {
    if n == 0 then [] else [s] + Repeat(s, n - 1)
  }

  /** The registry after a subscription of the handle for the user. */
  function Subscribed(clients: map<int, seq<Handle>>, userId: int, res: Handle): map<int, seq<Handle>> {
    clients[userId := Lookup(clients, userId) + [res]]
  }

  /** The registry after the close handler of the handle ran for the user. */
  function Closed(clients: map<int, seq<Handle>>, userId: int, res: Handle): map<int, seq<Handle>> {
    clients[userId := Without(Lookup(clients, userId), res)]
  }

  lemma {:induction false} LogOfAppend(a: seq<Write>, b: seq<Write>, h: Handle)
    ensures LogOf(a + b, h) == LogOf(a, h) + LogOf(b, h)
  {
    if a == [] {
      assert a + b == b;
    } else {
      assert (a + b)[1..] == a[1..] + b;
      LogOfAppend(a[1..], b, h);
    }
  }

  lemma {:induction false} BroadcastLog(hs: seq<Handle>, h: Handle)
    ensures LogOf(Broadcast(hs), h) == Repeat(DataUpdateEvent, Count(hs, h))
  {
    if hs != [] {
      BroadcastLog(hs[1..], h);
      var w := Broadcast(hs);
      assert w == [Write(hs[0], DataUpdateEvent)] + Broadcast(hs[1..]);
      assert w[1..] == Broadcast(hs[1..]);
      if hs[0] == h {
        var n := Count(hs[1..], h);
        assert Repeat(DataUpdateEvent, n + 1) == [DataUpdateEvent] + Repeat(DataUpdateEvent, n);
      }
    }
  }

  /** A trigger adds exactly one notification per occurrence of a handle in
      the user's list to that handle's output, and nothing to any other. */
  lemma TriggerLog(written: seq<Write>, clients: map<int, seq<Handle>>, userId: int, h: Handle)
    ensures LogOf(written + Notified(clients, userId), h)
         == LogOf(written, h) + Repeat(DataUpdateEvent, Count(Lookup(clients, userId), h))
  {
    LogOfAppend(written, Notified(clients, userId), h);
    BroadcastLog(Lookup(clients, userId), h);
  }

  /** A subscription puts the handle at the end of the user's list and leaves
      other users' lists alone; the next trigger reaches it. */
  lemma SubscribedProperties(clients: map<int, seq<Handle>>, userId: int, res: Handle)
    ensures Lookup(Subscribed(clients, userId, res), userId) == Lookup(clients, userId) + [res]
    ensures forall u :: u != userId ==> Lookup(Subscribed(clients, userId, res), u) == Lookup(clients, u)
    ensures var n := Notified(Subscribed(clients, userId, res), userId);
            n == Notified(clients, userId) + [Write(res, DataUpdateEvent)]
  {
  }

  /** Closing removes every occurrence of the handle, keeps the others with
      their counts, and a second close changes nothing. */
  lemma {:induction false} WithoutProperties(hs: seq<Handle>, h: Handle, g: Handle)
    ensures Count(Without(hs, h), h) == 0
    ensures g != h ==> Count(Without(hs, h), g) == Count(hs, g)
    ensures Without(Without(hs, h), h) == Without(hs, h)
  {
    if hs != [] {
      WithoutProperties(hs[1..], h, g);
      var rt := Without(hs[1..], h);
      if hs[0] != h {
        assert Without(hs, h) == [hs[0]] + rt;
        assert ([hs[0]] + rt)[1..] == rt;
      } else {
        assert Without(hs, h) == rt;
      }
    }
  }

  /** Closing keeps the relative order of the remaining handles. */
  lemma {:induction false} WithoutDistributes(a: seq<Handle>, b: seq<Handle>, h: Handle)
    ensures Without(a + b, h) == Without(a, h) + Without(b, h)
  {
    if a == [] {
      assert a + b == b;
    } else {
      assert (a + b)[1..] == a[1..] + b;
      WithoutDistributes(a[1..], b, h);
    }
  }

  /** The close handler is idempotent and touches only its own user's list. */
  lemma ClosedIdempotent(clients: map<int, seq<Handle>>, userId: int, res: Handle)
    ensures Closed(Closed(clients, userId, res), userId, res) == Closed(clients, userId, res)
    ensures forall u :: u != userId ==> Lookup(Closed(clients, userId, res), u) == Lookup(clients, u)
  {
    WithoutProperties(Lookup(clients, userId), res, res);
  }

  class Registry {
    var clients: map<int, seq<Handle>>
    /** Everything written to every response, in order. */
    var written: seq<Write>

    constructor ()
      ensures clients == map[] && written == []
    {
      clients := map[];
      written := [];
    }

    /** sse: open the stream with a newline, then register the response at the
        end of the user's list, creating the list when absent. */
    method Sse(userId: int, res: Handle)
      modifies this
      ensures written == old(written) + [Write(res, OpenLine)]
      ensures clients == Subscribed(old(clients), userId, res)
    {
      written := written + [Write(res, OpenLine)];
      if userId !in clients {
        clients := clients[userId := []];
      }
      clients := clients[userId := clients[userId] + [res]];
    }

    /** The close handler sse registers: drop every occurrence of the response
        from the user's list (leaving an empty list behind). */
    method OnClose(userId: int, res: Handle)
      modifies this
      ensures clients == Closed(old(clients), userId, res)
      ensures written == old(written)
    {
      var userClients := Lookup(clients, userId);
      clients := clients[userId := Without(userClients, res)];
    }

    /** triggerEventForUser: one notification to each registered response of
        the user, in list order; nothing when the user has none. */
    method TriggerEventForUser(userId: int)
      modifies this
      ensures clients == old(clients)
      ensures written == old(written) + Notified(old(clients), userId)
    {
      if userId in clients {
        var userClients := clients[userId];
        var i := 0;
        while i < |userClients|
          invariant 0 <= i <= |userClients|
          invariant clients == old(clients)
          invariant written == old(written) + Broadcast(userClients[..i])
        {
          assert Broadcast(userClients[..i + 1]) == Broadcast(userClients[..i]) + [Write(userClients[i], DataUpdateEvent)];
          written := written + [Write(userClients[i], DataUpdateEvent)];
          i := i + 1;
        }
        assert userClients[..i] == userClients;
      }
    }
  }
}
