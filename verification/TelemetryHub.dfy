/** Fan-out of telemetry events to many clients through bounded queues that drop their oldest
    event, and a bounded cache of recent events. */
module TelemetryHubs {
  import opened Common

  /** The event object is shared by the cache and all queues; only its drop count changes after
      it was created. */
  class TelemetryEvent {
    const eventType: string
    const payload: string
    const sequenceNumber: nat
    var droppedEventCount: nat

    constructor (eventType: string, payload: string, sequenceNumber: nat, dropped: nat)
      ensures this.eventType == eventType && this.payload == payload
      ensures this.sequenceNumber == sequenceNumber && droppedEventCount == dropped
    {
      this.eventType := eventType;
      this.payload := payload;
      this.sequenceNumber := sequenceNumber;
      droppedEventCount := dropped;
    }
  }

  /** A client's part of the account: what it can still take, what was dropped, how many events
      had been published when it subscribed and when it last received one, and how many it took. */
  datatype ClientView = ClientView(queue: seq<TelemetryEvent>, dropped: nat, start: nat, end: nat, consumed: nat)

  class ClientSubscription {
    const clientId: string
    var queue: seq<TelemetryEvent>
    var dropped: nat
    ghost const start: nat
    ghost var end: nat
    ghost var consumed: nat

    constructor (clientId: string, ghost start: nat)
      ensures this.clientId == clientId && View() == ClientView([], 0, start, start, 0)
    {
      this.clientId := clientId;
      this.start := start;
      queue, dropped, end, consumed := [], 0, start, 0;
    }

    ghost function View(): ClientView
      reads this
    {
      ClientView(queue, dropped, start, end, consumed)
    }
  }

  // One client

  /** A queue is full only if it has a positive bound. */
  predicate Full(queueSize: int, queue: seq<TelemetryEvent>) {
    queueSize > 0 && |queue| >= queueSize
  }

  /** A full queue loses its oldest event. */
  function Served(queueSize: int, v: ClientView, event: TelemetryEvent): (r: ClientView)
    ensures r.end == v.end + 1 && r.start == v.start && r.consumed == v.consumed
  {
    var full := Full(queueSize, v.queue);
    v.(queue := (if full then v.queue[1..] else v.queue) + [event],
       dropped := v.dropped + (if full then 1 else 0),
       end := v.end + 1)
  }

  /** The queue is the suffix of what was published for the client that it has neither taken nor
      lost, and it respects its bound. */
  ghost predicate Accounted(queueSize: int, published: seq<TelemetryEvent>, v: ClientView) {
    && v.start + v.consumed + v.dropped <= v.end <= |published|
    && v.queue == published[v.start + v.consumed + v.dropped..v.end]
    && (queueSize > 0 ==> |v.queue| <= queueSize)
    && (queueSize <= 0 ==> v.dropped == 0)
  }

  /** Only a queue at its positive bound loses its oldest event, and only one. */
  lemma ServedExactly(queueSize: int, v: ClientView, event: TelemetryEvent)
    requires queueSize > 0 ==> |v.queue| <= queueSize
    ensures var full := queueSize > 0 && |v.queue| == queueSize;
            Served(queueSize, v, event)
            == ClientView(if full then v.queue[1..] + [event] else v.queue + [event],
                          if full then v.dropped + 1 else v.dropped, v.start, v.end + 1, v.consumed)
  {
  }

  lemma ServedIsAccounted(queueSize: int, published: seq<TelemetryEvent>, v: ClientView, event: TelemetryEvent)
    requires Accounted(queueSize, published, v) && v.end == |published|
    ensures Accounted(queueSize, published + [event], Served(queueSize, v, event))
  {
  }

  lemma AbsentIsAccounted(queueSize: int, published: seq<TelemetryEvent>, v: ClientView, event: TelemetryEvent)
    requires Accounted(queueSize, published, v)
    ensures Accounted(queueSize, published + [event], v)
  {
  }

  // All clients

  ghost function Views(clients: seq<ClientSubscription>): (r: seq<ClientView>)
    reads clients
    ensures |r| == |clients| && forall i | 0 <= i < |clients| :: r[i] == clients[i].View()
  {
    if clients == [] then [] else Views(clients[..|clients| - 1]) + [clients[|clients| - 1].View()]
  }

  ghost function DroppedSum(views: seq<ClientView>): nat {
    if views == [] then 0 else views[0].dropped + DroppedSum(views[1..])
  }

  lemma {:induction false} SumUpdate(views: seq<ClientView>, k: nat, v: ClientView)
    requires k < |views|
    ensures DroppedSum(views[k := v]) == DroppedSum(views) - views[k].dropped + v.dropped
  {
    if k == 0 {
      assert views[k := v][1..] == views[1..];
    } else {
      SumUpdate(views[1..], k - 1, v);
      assert views[k := v][1..] == views[1..][k - 1 := v];
    }
  }

  lemma {:induction false} SumAppend(views: seq<ClientView>, v: ClientView)
    ensures DroppedSum(views + [v]) == DroppedSum(views) + v.dropped
  {
    if views == [] {
      assert views + [v] == [v];
    } else {
      SumAppend(views[1..], v);
      assert (views + [v])[1..] == views[1..] + [v];
    }
  }

  ghost predicate Active(clients: map<string, ClientSubscription>, c: ClientSubscription) {
    c.clientId in clients && clients[c.clientId] == c
  }

  /** Every client is accounted for, and a subscribed one has received everything so far. */
  ghost predicate AllAccounted(queueSize: int, published: seq<TelemetryEvent>, clients: map<string, ClientSubscription>,
                               ever: seq<ClientSubscription>, views: seq<ClientView>)
  {
    && |views| == |ever|
    && forall k | 0 <= k < |ever| ::
         Accounted(queueSize, published, views[k]) && (Active(clients, ever[k]) ==> views[k].end == |published|)
  }

  /** The subscriptions are distinct, and the client table points into them. */
  ghost predicate TableOk(clients: map<string, ClientSubscription>, ever: seq<ClientSubscription>) {
    && NoDuplicates(ever)
    && forall id | id in clients :: clients[id] in ever && clients[id].clientId == id
  }

  /** One publication serves exactly the subscribed clients. */
  ghost predicate FannedOut(queueSize: int, event: TelemetryEvent, clients: map<string, ClientSubscription>,
                            ever: seq<ClientSubscription>, before: seq<ClientView>, after: seq<ClientView>)
  {
    && |before| == |after| == |ever|
    && forall k | 0 <= k < |ever| ::
         after[k] == if Active(clients, ever[k]) then Served(queueSize, before[k], event) else before[k]
  }

  /** The same when the clients in `pending` are still waiting. */
  ghost predicate PartlyFannedOut(queueSize: int, event: TelemetryEvent, clients: map<string, ClientSubscription>,
                                  ever: seq<ClientSubscription>, before: seq<ClientView>, after: seq<ClientView>,
                                  pending: set<string>)
  {
    && |before| == |after| == |ever|
    && forall k | 0 <= k < |ever| ::
         after[k] == if Active(clients, ever[k]) && ever[k].clientId !in pending
                     then Served(queueSize, before[k], event) else before[k]
  }

  lemma FanOutStep(queueSize: int, event: TelemetryEvent, clients: map<string, ClientSubscription>,
                   ever: seq<ClientSubscription>, before: seq<ClientView>, after: seq<ClientView>,
                   pending: set<string>, k: nat)
    requires TableOk(clients, ever) && k < |ever| && Active(clients, ever[k]) && ever[k].clientId in pending
    requires PartlyFannedOut(queueSize, event, clients, ever, before, after, pending)
    ensures after[k] == before[k]
    ensures PartlyFannedOut(queueSize, event, clients, ever, before, after[k := Served(queueSize, after[k], event)],
                            pending - {ever[k].clientId})
  {
    hide Served;
    forall j | 0 <= j < |ever| && j != k && Active(clients, ever[j]) ensures ever[j].clientId != ever[k].clientId {
      assert ever[j] != ever[k];
    }
  }

  lemma FanOutEnds(queueSize: int, event: TelemetryEvent, clients: map<string, ClientSubscription>,
                   ever: seq<ClientSubscription>, before: seq<ClientView>, after: seq<ClientView>)
    requires |before| == |ever|
    ensures PartlyFannedOut(queueSize, event, clients, ever, before, before, clients.Keys)
    ensures PartlyFannedOut(queueSize, event, clients, ever, before, after, {})
       <==> FannedOut(queueSize, event, clients, ever, before, after)
  {
    hide Served;
  }

  lemma QueueBound(queueSize: int, published: seq<TelemetryEvent>, clients: map<string, ClientSubscription>,
                   ever: seq<ClientSubscription>, views: seq<ClientView>, k: nat)
    requires AllAccounted(queueSize, published, clients, ever, views) && k < |ever|
    ensures queueSize > 0 ==> |views[k].queue| <= queueSize
  {
    assert Accounted(queueSize, published, views[k]);
  }

  /** Taking the oldest event keeps the account. */
  lemma TakeKeepsAccount(queueSize: int, published: seq<TelemetryEvent>, clients: map<string, ClientSubscription>,
                         ever: seq<ClientSubscription>, views: seq<ClientView>, k: nat)
    requires AllAccounted(queueSize, published, clients, ever, views) && k < |ever| && views[k].queue != []
    ensures var v := views[k];
            AllAccounted(queueSize, published, clients, ever,
                         views[k := v.(queue := v.queue[1..], consumed := v.consumed + 1)])
  {
    var v := views[k];
    assert Accounted(queueSize, published, v);
    assert Accounted(queueSize, published, v.(queue := v.queue[1..], consumed := v.consumed + 1));
    hide Accounted;
  }

  lemma FreshIsAccounted(queueSize: int, published: seq<TelemetryEvent>, v: ClientView)
    requires v == ClientView([], 0, |published|, |published|, 0)
    ensures Accounted(queueSize, published, v)
  {
  }

  lemma FanOutKeepsAccount(queueSize: int, published: seq<TelemetryEvent>, event: TelemetryEvent,
                           clients: map<string, ClientSubscription>, ever: seq<ClientSubscription>,
                           before: seq<ClientView>, after: seq<ClientView>)
    requires AllAccounted(queueSize, published, clients, ever, before)
    requires FannedOut(queueSize, event, clients, ever, before, after)
    ensures AllAccounted(queueSize, published + [event], clients, ever, after)
  {
    hide Accounted, Served;
    forall k | 0 <= k < |ever| ensures Accounted(queueSize, published + [event], after[k]) {
      if Active(clients, ever[k]) {
        ServedIsAccounted(queueSize, published, before[k], event);
      } else {
        AbsentIsAccounted(queueSize, published, before[k], event);
      }
    }
  }

  // The events

  ghost function Counts(events: seq<TelemetryEvent>): (r: seq<nat>)
    reads events
    ensures |r| == |events| && forall i | 0 <= i < |events| :: r[i] == events[i].droppedEventCount
  {
    if events == [] then [] else Counts(events[..|events| - 1]) + [events[|events| - 1].droppedEventCount]
  }

  /** Sequence numbers count the published events without holes; the drop counts they carry never
      fall, and the last one is the present total. */
  ghost predicate EventsOk(published: seq<TelemetryEvent>, counts: seq<nat>, total: nat) {
    && |counts| == |published|
    && (forall i | 0 <= i < |published| :: published[i].sequenceNumber == i + 1)
    && (forall i, j | 0 <= i <= j < |published| :: counts[i] <= counts[j])
    && total == (if published == [] then 0 else counts[|published| - 1])
  }

  lemma AppendEvent(published: seq<TelemetryEvent>, counts: seq<nat>, total: nat, event: TelemetryEvent, count: nat)
    requires EventsOk(published, counts, total) && event.sequenceNumber == |published| + 1 && count >= total
    ensures EventsOk(published + [event], counts + [count], count)
  {
  }

  lemma LastNAppend<T>(s: seq<T>, x: T, n: nat)
    ensures LastN(LastN(s, n) + [x], n) == LastN(s + [x], n)
  {
  }

  lemma AppendFresh<T>(s: seq<T>, x: T)
    requires NoDuplicates(s) && x !in s
    ensures NoDuplicates(s + [x])
  {
  }

  class TelemetryHub {
    const cacheSize: nat
    const queueSize: int
    const maxClients: int
    var sequence: nat
    var droppedTotal: nat
    var cache: seq<TelemetryEvent>
    var clients: map<string, ClientSubscription>
    ghost var published: seq<TelemetryEvent>
    ghost var ever: seq<ClientSubscription>

    /** What every method keeps. The number of drops is the sum over all clients that ever subscribed, and the cache holds
        the most recent events. */
    ghost predicate Valid()
      reads this, ever, published
    {
      && sequence == |published|
      && cache == LastN(published, cacheSize)
      && EventsOk(published, Counts(published), droppedTotal)
      && TableOk(clients, ever)
      && AllAccounted(queueSize, published, clients, ever, Views(ever))
      && droppedTotal == DroppedSum(Views(ever))
    }

    constructor (cacheSize: nat, queueSize: int, maxClients: int)
      ensures Valid() && published == [] && ever == [] && clients == map[]
      ensures this.cacheSize == cacheSize && this.queueSize == queueSize && this.maxClients == maxClients
    {
      this.cacheSize := cacheSize;
      this.queueSize := queueSize;
      this.maxClients := maxClients;
      sequence, droppedTotal, cache, clients := 0, 0, [], map[];
      published, ever := [], [];
    }

    method Publish(eventType: string, payload: string) returns (event: TelemetryEvent)
      requires Valid()
      modifies this, clients.Values
      ensures Valid() && fresh(event) && clients == old(clients) && ever == old(ever)
      ensures published == old(published) + [event]
      ensures event.eventType == eventType && event.payload == payload
      ensures event.sequenceNumber == |published| && event.droppedEventCount == droppedTotal
      ensures FannedOut(queueSize, event, clients, ever, old(Views(ever)), Views(ever))
    {
      hide Views, Counts, DroppedSum, AllAccounted, FannedOut, EventsOk, TableOk, LastN;
      sequence := sequence + 1;
      event := new TelemetryEvent(eventType, payload, sequence, droppedTotal);
      LastNAppend(published, event, cacheSize);
      cache := LastN(cache + [event], cacheSize);
      FanOut(event);
      FanOutKeepsAccount(queueSize, published, event, clients, ever, old(Views(ever)), Views(ever));
      AppendEvent(published, Counts(published), old(droppedTotal), event, droppedTotal);
      published := published + [event];
      assert Counts(published) == old(Counts(published)) + [event.droppedEventCount];
    }

    /** Delivers the event to every client. No client turns out to be stale. */
    method FanOut(event: TelemetryEvent)
      requires TableOk(clients, ever) && AllAccounted(queueSize, published, clients, ever, Views(ever))
      requires droppedTotal == event.droppedEventCount == DroppedSum(Views(ever))
      modifies this`droppedTotal, this`clients, event, clients.Values
      ensures clients == old(clients)
      ensures FannedOut(queueSize, event, clients, ever, old(Views(ever)), Views(ever))
      ensures droppedTotal == event.droppedEventCount == DroppedSum(Views(ever)) && droppedTotal >= old(droppedTotal)
    {
      hide Views, DroppedSum, Served, PartlyFannedOut, FannedOut, AllAccounted, NoDuplicates;
      var staleClients: set<string> := {};
      var pending := clients.Keys;
      ghost var before := Views(ever);
      FanOutEnds(queueSize, event, clients, ever, before, before);
      while pending != {}
        modifies this`droppedTotal, event, clients.Values
        invariant pending <= clients.Keys && staleClients == {}
        invariant PartlyFannedOut(queueSize, event, clients, ever, before, Views(ever), pending)
        invariant droppedTotal == event.droppedEventCount == DroppedSum(Views(ever)) && droppedTotal >= old(droppedTotal)
      {
        var id :| id in pending;
        var sub := clients[id];
        ghost var k :| 0 <= k < |ever| && ever[k] == sub;
        FanOutStep(queueSize, event, clients, ever, before, Views(ever), pending, k);
        QueueBound(queueSize, published, clients, ever, before, k);
        pending := pending - {id};
        var stale := ServeOne(sub, event, k);
        if stale {
          staleClients := staleClients + {id};
        }
      }
      FanOutEnds(queueSize, event, clients, ever, before, Views(ever));
      clients := clients - staleClients;
    }

    /** One delivery, with the drop accounted for in the total and in the event. */
    method ServeOne(sub: ClientSubscription, event: TelemetryEvent, ghost k: nat) returns (stale: bool)
      requires k < |ever| && ever[k] == sub && NoDuplicates(ever) && (queueSize > 0 ==> |sub.queue| <= queueSize)
      requires droppedTotal == event.droppedEventCount == DroppedSum(Views(ever))
      modifies sub, event, this`droppedTotal
      ensures !stale && Views(ever) == old(Views(ever))[k := Served(queueSize, old(Views(ever))[k], event)]
      ensures droppedTotal == event.droppedEventCount == DroppedSum(Views(ever)) && droppedTotal >= old(droppedTotal)
    {
      hide Views, DroppedSum;
      ghost var before := Views(ever);
      var dropped;
      stale, dropped := Deliver(sub, event);
      if !stale && dropped {
        droppedTotal := droppedTotal + 1;
        event.droppedEventCount := droppedTotal;
      }
      SumUpdate(before, k, sub.View());
      assert Views(ever) == before[k := sub.View()];
    }

    /** Puts the event into one queue, dropping the oldest entry of a full one. The queue is never
        still full after that, so no client is ever stale. */
    method Deliver(sub: ClientSubscription, event: TelemetryEvent) returns (stale: bool, dropped: bool)
      requires queueSize > 0 ==> |sub.queue| <= queueSize
      modifies sub`queue, sub`dropped, sub`end
      ensures !stale && dropped == Full(queueSize, old(sub.queue))
      ensures sub.View() == Served(queueSize, old(sub.View()), event)
    {
      stale, dropped := false, false;
      sub.end := sub.end + 1;
      if Full(queueSize, sub.queue) {
        if sub.queue != [] {
          sub.queue := sub.queue[1..];
        }
        if Full(queueSize, sub.queue) {
          stale := true;
          return;
        }
        sub.queue := sub.queue + [event];
        sub.dropped := sub.dropped + 1;
        dropped := true;
      } else {
        sub.queue := sub.queue + [event];
      }
    }

    method Subscribe(clientId: string) returns (sub: ClientSubscription?)
      requires Valid()
      requires forall c | c in ever :: c.clientId != clientId  // a fresh random identifier
      modifies this`clients, this`ever
      ensures Valid()
      ensures sub == null <==> |old(clients)| >= maxClients
      ensures sub == null ==> clients == old(clients) && ever == old(ever)
      ensures sub != null ==>
                && fresh(sub) && clients == old(clients)[clientId := sub] && ever == old(ever) + [sub]
                && sub.View() == ClientView([], 0, |published|, |published|, 0)
    {
      hide Views, Counts, DroppedSum, EventsOk, NoDuplicates, LastN, Accounted;
      if |clients| >= maxClients {
        return null;
      }
      ghost var views := Views(ever);
      var s := new ClientSubscription(clientId, |published|);
      sub := s;
      clients := clients[clientId := s];
      ever := ever + [s];
      AppendFresh(old(ever), s);
      FreshIsAccounted(queueSize, published, s.View());
      SumAppend(views, s.View());
      assert Views(ever) == views + [s.View()];
      assert forall k | 0 <= k < |views| :: ever[k] == old(ever)[k];
    }

    method Unsubscribe(clientId: string)
      requires Valid()
      modifies this`clients
      ensures Valid() && clients == old(clients) - {clientId}
    {
      hide Views, Counts, DroppedSum, EventsOk, Accounted;
      clients := clients - {clientId};
    }

    /** A client takes the oldest event of its queue, if there is one. */
    method Consume(sub: ClientSubscription) returns (event: TelemetryEvent?)
      requires Valid() && sub in ever
      modifies sub
      ensures Valid()
      ensures old(sub.queue) == [] ==> event == null && sub.View() == old(sub.View())
      ensures old(sub.queue) != [] ==>
                && event == old(sub.queue)[0]
                && sub.View() == old(sub.View()).(queue := old(sub.queue)[1..], consumed := old(sub.consumed) + 1)
    {
      hide Views, Counts, DroppedSum, EventsOk, LastN, AllAccounted;
      if sub.queue == [] {
        return null;
      }
      ghost var views := Views(ever);
      ghost var k :| 0 <= k < |ever| && ever[k] == sub;
      TakeKeepsAccount(queueSize, published, clients, ever, views, k);
      event := sub.queue[0];
      sub.queue := sub.queue[1..];
      sub.consumed := sub.consumed + 1;
      SumUpdate(views, k, sub.View());
      assert Views(ever) == views[k := sub.View()];
    }

    /** The slice [-limit:] of the cache: zero keeps everything, a negative limit drops a prefix. */
    method Recent(limit: int) returns (items: seq<TelemetryEvent>)
      requires Valid()
      ensures limit > 0 ==> items == LastN(published, Min(limit, cacheSize))
      ensures limit == 0 ==> items == cache
      ensures limit < 0 ==> items == cache[Min(-limit, |cache|)..]
    {
      if limit > 0 {
        items := LastN(cache, limit);
      } else {
        items := cache[Min(-limit, |cache|)..];
      }
    }
  }

  // What every interleaving of the methods keeps

  /** Every event published for a client was taken, was dropped or is still queued, and what is
      queued are the latest of them with consecutive sequence numbers. */
  lemma ClientAccount(hub: TelemetryHub, c: ClientSubscription)
    requires hub.Valid() && c in hub.ever
    ensures c.end - c.start == c.consumed + c.dropped + |c.queue|
    ensures c.end <= |hub.published| && (Active(hub.clients, c) ==> c.end == |hub.published|)
    ensures |c.queue| <= c.end - c.start && c.queue == hub.published[c.end - |c.queue|..c.end]
    ensures forall i | 0 <= i < |c.queue| :: c.queue[i].sequenceNumber == c.end - |c.queue| + i + 1
  {
    var k :| 0 <= k < |hub.ever| && hub.ever[k] == c;
    assert Accounted(hub.queueSize, hub.published, Views(hub.ever)[k]);
  }

  /** Without a positive bound nothing is ever dropped: a client's queue holds everything that was
      published for it and that it has not taken. */
  lemma UnboundedQueuesKeepAll(hub: TelemetryHub, c: ClientSubscription)
    requires hub.Valid() && hub.queueSize <= 0 && c in hub.ever
    ensures hub.droppedTotal == 0 && c.dropped == 0
    ensures c.start + c.consumed <= c.end && c.queue == hub.published[c.start + c.consumed..c.end]
  {
    var views := Views(hub.ever);
    var k :| 0 <= k < |hub.ever| && hub.ever[k] == c;
    assert forall j | 0 <= j < |views| :: Accounted(hub.queueSize, hub.published, views[j]);
    NothingDropped(views);
  }

  lemma {:induction false} NothingDropped(views: seq<ClientView>)
    requires forall j | 0 <= j < |views| :: views[j].dropped == 0
    ensures DroppedSum(views) == 0
  {
    if views != [] {
      NothingDropped(views[1..]);
    }
  }

  /** The cache holds the last events with consecutive sequence numbers up to the newest. */
  lemma CacheIsLatest(hub: TelemetryHub)
    requires hub.Valid()
    ensures |hub.cache| == Min(hub.cacheSize, hub.sequence)
    ensures forall i | 0 <= i < |hub.cache| :: hub.cache[i].sequenceNumber == hub.sequence - |hub.cache| + i + 1
  {
  }
}
