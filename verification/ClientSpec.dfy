/** The client as a value: connection phase, replica, pending calls, and the log of status
    callbacks. Calls carry a serial number so that handles may be reused freely. */
module ClientSpec {
  import opened Values
  import opened Lists
  import opened Bus
  import opened ObjectStore
  import opened ServerSpec

  datatype Pending = Pending(call: Handle, id: nat, obj: Handle)
  datatype Done = Done(id: nat, status: Status)

  /** calls: registered calls, oldest first; next: number of successful calls so far;
      log: status callbacks in the order they were made. */
  datatype Client = Client(phase: Phase, bus: Objects, calls: seq<Pending>, next: nat, log: seq<Done>)

  const NEW_CLIENT := Client(Connecting, NO_OBJECTS, [], 0, [])

  function ViewOf(c: Client): View { View(c.phase, c.bus) }

  // ---- completing calls ----

  /** obus_bus_abort_call: the calls on object h are aborted, the others stay. */
  function KeptCalls(calls: seq<Pending>, h: Handle): seq<Pending> {
    if calls == [] then []
    else (if calls[0].obj == h then [] else [calls[0]]) + KeptCalls(calls[1..], h)
  }

  function AbortedCalls(calls: seq<Pending>, h: Handle): seq<Done> {
    if calls == [] then []
    else (if calls[0].obj == h then [Done(calls[0].id, Aborted)] else []) + AbortedCalls(calls[1..], h)
  }

  function OtherCalls(calls: seq<Pending>, k: Handle): seq<Pending> {
    if calls == [] then []
    else (if calls[0].call == k then [] else [calls[0]]) + OtherCalls(calls[1..], k)
  }

  function AckedCalls(calls: seq<Pending>, k: Handle, status: Status): seq<Done> {
    if calls == [] then []
    else (if calls[0].call == k then [Done(calls[0].id, status)] else []) + AckedCalls(calls[1..], k, status)
  }

  /** obus_client_remove_object. */
  function DropObject(c: Client, h: Handle): Client {
    c.(bus := Remove(c.bus, h), calls := KeptCalls(c.calls, h), log := c.log + AbortedCalls(c.calls, h))
  }

  function DropObjects(c: Client, hs: seq<Handle>): Client
    decreases |hs|
  {
    if hs == [] then c else DropObjects(DropObject(c, hs[0]), hs[1..])
  }

  /** obus_client_ack: an unknown handle is ignored. */
  function Acknowledge(c: Client, k: Handle, status: Status): Client {
    c.(calls := OtherCalls(c.calls, k), log := c.log + AckedCalls(c.calls, k, status))
  }

  function Handles(refs: seq<Ref>): seq<Handle> {
    seq(|refs|, i requires 0 <= i < |refs| => refs[i].handle)
  }

  /** One packet taken from the channel. */
  function Receive(c: Client, p: Down): Client {
    match p
    case RemovePkt(r) => DropObject(c, r.handle)
    case BusEventPkt(_, adds, removes, events) =>
      DropObjects(c.(bus := UpdateAll(AddAll(c.bus, adds), ResolveEvents(c.bus, events))),
                  Handles(ResolveRefs(c.bus, removes)))
    case AckPkt(k, status) => Acknowledge(c, k, status)
    case _ => c.(phase := Apply(ViewOf(c), p).phase, bus := Apply(ViewOf(c), p).bus)
  }

  /** The conditions obus_client_call checks; k is the call handle drawn at random, unused. */
  predicate CanCall(sc: Schema, c: Client, h: Handle, mid: u16, k: Handle) {
    c.phase == Connected && h in c.bus.at && MethodState(sc, c.bus.at[h], mid) == 1 &&
    k != INVALID_HANDLE && forall i :: 0 <= i < |c.calls| ==> c.calls[i].call != k
  }

  function StartCall(c: Client, h: Handle, k: Handle): Client {
    c.(calls := c.calls + [Pending(k, c.next, h)], next := c.next + 1)
  }

  function CallPacket(c: Client, h: Handle, mid: u16, k: Handle, args: Struct): Up
    requires h in c.bus.at
  {
    CallPkt(c.bus.at[h].uid, h, mid, k, args)
  }

  /** obus_client_disconnect: every object goes, in list order, aborting its calls. */
  function Disconnect(c: Client): Client {
    DropObjects(c, c.bus.order).(phase := Closed)
  }

  // ---- invariant ----

  ghost predicate BusOk(b: Objects) {
    NoDup(b.order) && INVALID_HANDLE !in b.at && forall h :: h in b.order <==> h in b.at
  }

  function PendingIds(calls: seq<Pending>): multiset<nat> {
    if calls == [] then multiset{} else multiset{calls[0].id} + PendingIds(calls[1..])
  }

  function LoggedIds(log: seq<Done>): multiset<nat> {
    if log == [] then multiset{} else multiset{log[0].id} + LoggedIds(log[1..])
  }

  /** Serial numbers 0 .. n-1, once each. */
  function Serials(n: nat): multiset<nat> {
    if n == 0 then multiset{} else Serials(n - 1) + multiset{n - 1}
  }

  /** Conservation: every call made is pending or logged, never both, never twice. */
  ghost predicate CallsConserved(c: Client) {
    PendingIds(c.calls) + LoggedIds(c.log) == Serials(c.next)
  }

  ghost predicate CallsHeld(c: Client) {
    forall i :: 0 <= i < |c.calls| ==> c.calls[i].obj in c.bus.at
  }

  /** Pending calls have distinct handles: a new call draws an unused one. */
  ghost predicate DistinctCalls(calls: seq<Pending>) {
    forall i, j :: 0 <= i < j < |calls| ==> calls[i].call != calls[j].call
  }

  ghost predicate ClientOk(c: Client) {
    BodyOk(c) && (c.phase != Connected ==> c.bus == NO_OBJECTS)
  }

  lemma {:induction false} SerialsOnce(n: nat, id: nat)
    ensures Serials(n)[id] == if id < n then 1 else 0
  {
    if n > 0 {
      SerialsOnce(n - 1, id);
    }
  }

  /** What conservation means for one call. */
  lemma ExactlyOnce(c: Client, id: nat)
    requires CallsConserved(c) && id < c.next
    ensures PendingIds(c.calls)[id] + LoggedIds(c.log)[id] == 1
  {
    SerialsOnce(c.next, id);
    assert (PendingIds(c.calls) + LoggedIds(c.log))[id] == 1;
  }

  lemma {:induction false} LoggedAppend(a: seq<Done>, b: seq<Done>)
    ensures LoggedIds(a + b) == LoggedIds(a) + LoggedIds(b)
  {
    if a == [] {
      assert a + b == b;
    } else {
      assert (a + b)[1..] == a[1..] + b;
      LoggedAppend(a[1..], b);
    }
  }

  lemma {:induction false} PendingAppend(a: seq<Pending>, b: seq<Pending>)
    ensures PendingIds(a + b) == PendingIds(a) + PendingIds(b)
  {
    if a == [] {
      assert a + b == b;
    } else {
      assert (a + b)[1..] == a[1..] + b;
      PendingAppend(a[1..], b);
    }
  }

  lemma {:induction false} AbortConserves(calls: seq<Pending>, h: Handle)
    ensures PendingIds(KeptCalls(calls, h)) + LoggedIds(AbortedCalls(calls, h)) == PendingIds(calls)
  {
    if calls != [] {
      AbortConserves(calls[1..], h);
      PendingAppend(if calls[0].obj == h then [] else [calls[0]], KeptCalls(calls[1..], h));
      LoggedAppend(if calls[0].obj == h then [Done(calls[0].id, Aborted)] else [], AbortedCalls(calls[1..], h));
    }
  }

  lemma {:induction false} AckConserves(calls: seq<Pending>, k: Handle, status: Status)
    ensures PendingIds(OtherCalls(calls, k)) + LoggedIds(AckedCalls(calls, k, status)) == PendingIds(calls)
  {
    if calls != [] {
      AckConserves(calls[1..], k, status);
      PendingAppend(if calls[0].call == k then [] else [calls[0]], OtherCalls(calls[1..], k));
      LoggedAppend(if calls[0].call == k then [Done(calls[0].id, status)] else [], AckedCalls(calls[1..], k, status));
    }
  }

  /** Exactly the calls on the object end, all of them aborted; the others stay. */
  lemma {:induction false} AbortIs(calls: seq<Pending>, h: Handle)
    ensures forall q :: q in KeptCalls(calls, h) <==> q in calls && q.obj != h
    ensures forall d :: d in AbortedCalls(calls, h) <==> exists q :: q in calls && q.obj == h && d == Done(q.id, Aborted)
  {
    if calls != [] {
      AbortIs(calls[1..], h);
      var first := Done(calls[0].id, Aborted);
      forall d
        ensures d in AbortedCalls(calls, h) <==> exists q :: q in calls && q.obj == h && d == Done(q.id, Aborted)
      {
        if q :| q in calls && q.obj == h && d == Done(q.id, Aborted) {
          assert q == calls[0] || q in calls[1..];
        }
      }
    }
  }

  /** One step of the walk over the call list. */
  lemma WalkCalls(calls: seq<Pending>, i: nat, h: Handle)
    requires i < |calls|
    ensures KeptCalls(calls[i..], h) == (if calls[i].obj == h then [] else [calls[i]]) + KeptCalls(calls[i + 1..], h)
    ensures AbortedCalls(calls[i..], h) == (if calls[i].obj == h then [Done(calls[i].id, Aborted)] else []) + AbortedCalls(calls[i + 1..], h)
  {
    assert calls[i..][1..] == calls[i + 1..];
  }

  lemma {:induction false} KeptCallsSpec(calls: seq<Pending>, h: Handle)
    ensures forall q :: q in KeptCalls(calls, h) <==> q in calls && q.obj != h
  {
    if calls != [] {
      KeptCallsSpec(calls[1..], h);
      assert calls == [calls[0]] + calls[1..];
    }
  }

  lemma {:induction false} KeptCallsDistinct(calls: seq<Pending>, h: Handle)
    requires DistinctCalls(calls)
    ensures DistinctCalls(KeptCalls(calls, h))
  {
    if calls != [] {
      KeptCallsDistinct(calls[1..], h);
      KeptCallsSpec(calls[1..], h);
      var r := KeptCalls(calls[1..], h);
      forall j | 0 <= j < |r|
        ensures r[j].call != calls[0].call
      {
        assert r[j] in r;
      }
    }
  }

  lemma {:induction false} OtherCallsDistinct(calls: seq<Pending>, k: Handle)
    requires DistinctCalls(calls)
    ensures DistinctCalls(OtherCalls(calls, k))
  {
    if calls != [] {
      OtherCallsDistinct(calls[1..], k);
      OtherCallsSpec(calls[1..], k);
      var r := OtherCalls(calls[1..], k);
      forall j | 0 <= j < |r|
        ensures r[j].call != calls[0].call
      {
        assert r[j] in r;
      }
    }
  }

  lemma {:induction false} OtherCallsSpec(calls: seq<Pending>, k: Handle)
    ensures forall q :: q in OtherCalls(calls, k) <==> q in calls && q.call != k
  {
    if calls != [] {
      OtherCallsSpec(calls[1..], k);
      assert calls == [calls[0]] + calls[1..];
    }
  }

  // ---- the replica stays well formed ----

  lemma AddOk(b: Objects, it: Item)
    requires BusOk(b)
    ensures BusOk(Add(b, it))
  {
  }

  lemma RemoveOk(b: Objects, h: Handle)
    requires BusOk(b)
    ensures BusOk(Remove(b, h))
  {
    WithoutNoDup(b.order, h);
  }

  lemma {:induction false} AddAllOk(b: Objects, items: seq<Item>)
    requires BusOk(b)
    ensures BusOk(AddAll(b, items))
    decreases |items|
  {
    if items != [] {
      AddOk(b, items[0]);
      AddAllOk(Add(b, items[0]), items[1..]);
    }
  }

  lemma {:induction false} UpdateAllOk(b: Objects, es: seq<Event>)
    requires BusOk(b)
    ensures BusOk(UpdateAll(b, es))
    decreases |es|
  {
    if es != [] {
      UpdateAllOk(Update(b, es[0]), es[1..]);
    }
  }

  // ---- steps keep the client consistent and act on the replica as Apply says ----

  /** Dropping an object keeps everything but the connection-phase clause. */
  ghost predicate BodyOk(c: Client) {
    BusOk(c.bus) && CallsHeld(c) && CallsConserved(c) && DistinctCalls(c.calls)
  }

  lemma DropObjectOk(c: Client, h: Handle)
    requires BodyOk(c)
    ensures BodyOk(DropObject(c, h))
  {
    RemoveOk(c.bus, h);
    AbortConserves(c.calls, h);
    KeptCallsDistinct(c.calls, h);
    LoggedAppend(c.log, AbortedCalls(c.calls, h));
    KeptCallsSpec(c.calls, h);
    var d := DropObject(c, h);
    forall i | 0 <= i < |d.calls|
      ensures d.calls[i].obj in d.bus.at
    {
      assert d.calls[i] in d.calls;
    }
  }

  lemma {:induction false} DropObjectsOk(c: Client, hs: seq<Handle>)
    requires BodyOk(c)
    ensures BodyOk(DropObjects(c, hs))
    ensures DropObjects(c, hs).phase == c.phase && DropObjects(c, hs).next == c.next
    ensures forall q :: q in DropObjects(c, hs).calls ==> q in c.calls && q.obj !in hs
    decreases |hs|
  {
    if hs != [] {
      DropObjectOk(c, hs[0]);
      KeptCallsSpec(c.calls, hs[0]);
      DropObjectsOk(DropObject(c, hs[0]), hs[1..]);
      forall q | q in DropObjects(c, hs).calls
        ensures q in c.calls && q.obj !in hs
      {
        assert q in KeptCalls(c.calls, hs[0]);
      }
    }
  }

  lemma {:induction false} DropObjectsView(c: Client, refs: seq<Ref>)
    ensures DropObjects(c, Handles(refs)).bus == RemoveAll(c.bus, refs)
    ensures DropObjects(c, Handles(refs)).phase == c.phase
    decreases |refs|
  {
    if refs != [] {
      assert Handles(refs)[1..] == Handles(refs[1..]);
      DropObjectsView(DropObject(c, refs[0].handle), refs[1..]);
    }
  }

  lemma ReceiveView(c: Client, p: Down)
    ensures ViewOf(Receive(c, p)) == Apply(ViewOf(c), p)
  {
    if p.BusEventPkt? {
      DropObjectsView(c.(bus := UpdateAll(AddAll(c.bus, p.adds), ResolveEvents(c.bus, p.events))),
                      ResolveRefs(c.bus, p.removes));
    }
  }

  lemma GrowOk(c: Client, adds: seq<Item>, es: seq<Event>)
    requires BodyOk(c)
    ensures BodyOk(c.(bus := UpdateAll(AddAll(c.bus, adds), es)))
  {
    AddAllOk(c.bus, adds);
    UpdateAllOk(AddAll(c.bus, adds), es);
    var d := c.(bus := UpdateAll(AddAll(c.bus, adds), es));
    forall i | 0 <= i < |d.calls|
      ensures d.calls[i].obj in d.bus.at
    {
      AddAllKeeps(c.bus, adds, c.calls[i].obj);
      UpdateAllKeepsTypes(AddAll(c.bus, adds), es, c.calls[i].obj);
    }
  }

  lemma AcknowledgeOk(c: Client, k: Handle, status: Status)
    requires BodyOk(c)
    ensures BodyOk(Acknowledge(c, k, status))
  {
    AckConserves(c.calls, k, status);
    OtherCallsDistinct(c.calls, k);
    LoggedAppend(c.log, AckedCalls(c.calls, k, status));
    OtherCallsSpec(c.calls, k);
    var d := Acknowledge(c, k, status);
    forall i | 0 <= i < |d.calls|
      ensures d.calls[i].obj in d.bus.at
    {
      assert d.calls[i] in d.calls;
    }
  }

  lemma ReceiveBodyOk(c: Client, p: Down)
    requires BodyOk(c)
    ensures BodyOk(Receive(c, p))
  {
    match p
    case ConResp(_, snapshot) => GrowOk(c, snapshot, []);
    case AddPkt(it) => GrowOk(c, [it], []); assert AddAll(c.bus, [it]) == Add(c.bus, it);
    case RemovePkt(r) => DropObjectOk(c, r.handle);
    case EventPkt(e) => GrowOk(c, [], [e]); assert UpdateAll(c.bus, [e]) == Update(c.bus, e);
    case BusEventPkt(_, adds, removes, events) =>
      GrowOk(c, adds, ResolveEvents(c.bus, events));
      DropObjectsOk(c.(bus := UpdateAll(AddAll(c.bus, adds), ResolveEvents(c.bus, events))),
                    Handles(ResolveRefs(c.bus, removes)));
    case AckPkt(k, status) => AcknowledgeOk(c, k, status);
  }

  lemma ReceiveOk(c: Client, p: Down)
    requires ClientOk(c) && Applicable(ViewOf(c), p)
    ensures ClientOk(Receive(c, p))
  {
    ReceiveBodyOk(c, p);
    ReceiveView(c, p);
  }

  lemma StartCallConserves(c: Client, h: Handle, k: Handle)
    requires CallsConserved(c)
    ensures CallsConserved(StartCall(c, h, k))
  {
    var q := [Pending(k, c.next, h)];
    PendingAppend(c.calls, q);
    assert PendingIds(q) == multiset{c.next};
    assert PendingIds(c.calls) + multiset{c.next} + LoggedIds(c.log)
        == (PendingIds(c.calls) + LoggedIds(c.log)) + multiset{c.next};
  }

  lemma StartCallOk(c: Client, h: Handle, k: Handle)
    requires c.phase == Connected && ClientOk(c) && h in c.bus.at
    requires forall i :: 0 <= i < |c.calls| ==> c.calls[i].call != k
    ensures ClientOk(StartCall(c, h, k))
  {
    StartCallConserves(c, h, k);
  }

  lemma {:induction false} DropAllEmpties(c: Client, hs: seq<Handle>)
    requires c.bus.order == hs && BusOk(c.bus)
    ensures DropObjects(c, hs).bus == NO_OBJECTS
    decreases |hs|
  {
    if hs == [] {
      assert c.bus.at.Keys == {};
    } else {
      RemoveOk(c.bus, hs[0]);
      WithoutAt(hs, 0);
      DropAllEmpties(DropObject(c, hs[0]), hs[1..]);
    }
  }

  lemma PendingNeedsObject(c: Client)
    requires CallsHeld(c) && c.calls != []
    ensures c.bus != NO_OBJECTS
  {
    assert c.calls[0].obj in c.bus.at;
  }

  /** After a disconnection nothing is held and nothing is pending. */
  lemma DisconnectOk(c: Client)
    requires ClientOk(c)
    ensures ClientOk(Disconnect(c))
    ensures Disconnect(c).bus == NO_OBJECTS && Disconnect(c).calls == []
    ensures Disconnect(c).next == c.next
  {
    DropObjectsOk(c, c.bus.order);
    DropAllEmpties(c, c.bus.order);
    if DropObjects(c, c.bus.order).calls != [] {
      PendingNeedsObject(DropObjects(c, c.bus.order));
    }
  }
}
