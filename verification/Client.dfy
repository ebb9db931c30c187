/** obus_client.c and the call half of obus_bus.c as a mutable object. Every method changes the
    client exactly as the function of ClientSpec of the same name says. */
module Client {
  import opened Values
  import opened Lists
  import opened Bus
  import opened ObjectStore
  import opened ServerSpec
  import opened ClientSpec
  import opened Laws

  class Client {
    var phase: Phase
    var order: seq<Handle>
    var at: map<Handle, Obj>
    var calls: seq<Pending>
    var next: nat
    var log: seq<Done>

    ghost function Value(): ClientSpec.Client
      reads this
    {
      ClientSpec.Client(phase, Objects(order, at), calls, next, log)
    }

    constructor ()
      ensures Value() == NEW_CLIENT && ClientOk(Value())
    {
      phase, order, at := Connecting, [], map[];
      calls, next, log := [], 0, [];
    }

    // ---- objects ----

    /** obus_client_add_object; the handle table refuses a handle that is taken. */
    method AddObject(it: Item)
      modifies this`order, this`at
      ensures Objects(order, at) == Add(old(Objects(order, at)), it)
      ensures var fresh' := it.handle != INVALID_HANDLE && it.uid != INVALID_UID && it.handle !in old(at);
              if fresh' then order == old(order) + [it.handle] && ObjectAdded(old(at), at, it) else order == old(order) && at == old(at)
    {
      WireHolds(it.info);
      if it.handle == INVALID_HANDLE || it.uid == INVALID_UID {
        return;
      }
      if it.handle in at {
        return;
      }
      at := at[it.handle := Obj(it.uid, WireStruct(it.info))];
      order := order + [it.handle];
    }

    method AddObjects(items: seq<Item>)
      modifies this`order, this`at
      ensures Objects(order, at) == AddAll(old(Objects(order, at)), items)
    {
      ghost var b := Objects(order, at);
      var i := 0;
      while i < |items|
        invariant 0 <= i <= |items|
        invariant AddAll(Objects(order, at), items[i..]) == AddAll(b, items)
      {
        assert items[i..][0] == items[i] && items[i..][1..] == items[i + 1..];
        AddObject(items[i]);
        i := i + 1;
      }
    }

    /** obus_client_event on a decoded event; the decoder dropped those on unknown objects. */
    method HandleEvent(e: Event)
      modifies this`at
      ensures Objects(order, at) == Update(old(Objects(order, at)), e)
      ensures FirstTook(old(at), at, e) && (forall g :: g != e.handle ==> SameObject(at, old(at), g))
    {
      if !Held(Objects(order, at), e.handle, e.uid) {
        NoFirst(at, e);
      } else {
        MergeTookFirst(at, e, Merge(at[e.handle].info, WireStruct(e.info)));
      }
      hide FirstTook, Merge;
      if e.handle in at && at[e.handle].uid == e.uid {
        at := at[e.handle := Obj(e.uid, Merge(at[e.handle].info, WireStruct(e.info)))];
      }
    }

    method HandleEvents(es: seq<Event>)
      modifies this`at
      ensures Objects(order, at) == UpdateAll(old(Objects(order, at)), es)
      ensures EventsTook(old(at), at, es)
    {
      hide EventsTook, FirstTook;
      ghost var b := Objects(order, at);
      UpdateAllTook(b, es);
      var i := 0;
      while i < |es|
        invariant 0 <= i <= |es|
        invariant UpdateAll(Objects(order, at), es[i..]) == UpdateAll(b, es)
      {
        assert es[i..][0] == es[i] && es[i..][1..] == es[i + 1..];
        HandleEvent(es[i]);
        i := i + 1;
      }
    }

    /** One turn of the walk below. */
    static lemma AbortTurn(all: seq<Pending>, i: nat, h: Handle, kept: seq<Pending>, log: seq<Done>)
      requires i < |all|
      ensures kept + KeptCalls(all[i..], h) == (if all[i].obj == h then kept else kept + [all[i]]) + KeptCalls(all[i + 1..], h)
      ensures log + AbortedCalls(all[i..], h)
           == (if all[i].obj == h then log + [Done(all[i].id, Aborted)] else log) + AbortedCalls(all[i + 1..], h)
      ensures kept + all[i..] == kept + [all[i]] + all[i + 1..]
    {
      WalkCalls(all, i, h);
      hide KeptCalls, AbortedCalls;
    }

    /** obus_bus_abort_call: walks the call list, taking out the calls on one object. */
    method AbortCalls(h: Handle)
      modifies this`calls, this`log
      ensures calls == KeptCalls(old(calls), h)
      ensures log == old(log) + AbortedCalls(old(calls), h)
      ensures forall q :: q in calls <==> q in old(calls) && q.obj != h
      ensures old(log) <= log && forall d :: d in log[|old(log)|..] <==> exists q :: q in old(calls) && q.obj == h && d == Done(q.id, Aborted)
    {
      AbortIs(calls, h);
      var all := calls;
      var kept: seq<Pending> := [];
      assert KeptCalls(all[|all|..], h) == [] && AbortedCalls(all[|all|..], h) == [];
      hide KeptCalls, AbortedCalls;
      var i := 0;
      while i < |all|
        invariant 0 <= i <= |all| && all == old(calls)
        invariant calls == kept + all[i..]
        invariant kept + KeptCalls(all[i..], h) == KeptCalls(all, h)
        invariant log + AbortedCalls(all[i..], h) == old(log) + AbortedCalls(all, h)
      {
        AbortTurn(all, i, h, kept, log);
        if all[i].obj == h {
          calls := kept + all[i + 1..];
          log := log + [Done(all[i].id, Aborted)];
        } else {
          kept := kept + [all[i]];
        }
        i := i + 1;
      }
    }

    method RemoveObject(h: Handle)
      modifies this`order, this`at, this`calls, this`log
      ensures Value() == DropObject(old(Value()), h)
      ensures at == old(at) - {h} && (forall g :: g in order <==> g in old(order) && g != h)
      ensures forall q :: q in calls <==> q in old(calls) && q.obj != h
    {
      AbortCalls(h);
      order := Without(order, h);
      at := at - {h};
    }

    method RemoveObjects(hs: seq<Handle>)
      modifies this`order, this`at, this`calls, this`log
      ensures Value() == DropObjects(old(Value()), hs)
    {
      ghost var c := Value();
      var i := 0;
      while i < |hs|
        invariant 0 <= i <= |hs|
        invariant DropObjects(Value(), hs[i..]) == DropObjects(c, hs)
      {
        assert hs[i..][0] == hs[i] && hs[i..][1..] == hs[i + 1..];
        RemoveObject(hs[i]);
        i := i + 1;
      }
    }

    /** One turn of the lookups below. */
    static lemma ResolveTurn(b: Objects, refs: seq<Ref>, i: nat, hs: seq<Handle>)
      requires i < |refs|
      ensures hs + Handles(ResolveRefs(b, refs[i..]))
           == (if refs[i].handle in b.at then hs + [refs[i].handle] else hs) + Handles(ResolveRefs(b, refs[i + 1..]))
    {
      assert refs[i..][0] == refs[i] && refs[i..][1..] == refs[i + 1..];
      var rest := ResolveRefs(b, refs[i + 1..]);
      assert Handles([refs[i]] + rest) == [refs[i].handle] + Handles(rest);
      assert [] + rest == rest;
    }

    /** The lookups obus_bus_event_decode makes, before anything is committed. */
    method ResolveRemoves(removes: seq<Ref>) returns (hs: seq<Handle>)
      ensures hs == Handles(ResolveRefs(Objects(order, at), removes))
    {
      var b := Objects(order, at);
      hs := [];
      var i := 0;
      while i < |removes|
        invariant 0 <= i <= |removes|
        invariant hs + Handles(ResolveRefs(b, removes[i..])) == Handles(ResolveRefs(b, removes))
      {
        ResolveTurn(b, removes, i, hs);
        if removes[i].handle in at {
          hs := hs + [removes[i].handle];
        }
        i := i + 1;
      }
    }

    method ResolveUpdates(events: seq<Event>) returns (es: seq<Event>)
      ensures es == ResolveEvents(Objects(order, at), events)
    {
      var b := Objects(order, at);
      es := [];
      var i := 0;
      while i < |events|
        invariant 0 <= i <= |events|
        invariant es + ResolveEvents(b, events[i..]) == ResolveEvents(b, events)
      {
        assert events[i..] == [events[i]] + events[i + 1..];
        if Held(b, events[i].handle, events[i].uid) {
          es := es + [events[i]];
        }
        i := i + 1;
      }
    }

    // ---- calls ----

    /** obus_client_call, with the call handle the random source yields. */
    method Call(sc: Schema, h: Handle, mid: u16, k: Handle, args: Struct) returns (sent: Option<Up>)
      modifies this`calls, this`next
      ensures var c := old(Value());
              if CanCall(sc, c, h, mid, k)
              then Value() == StartCall(c, h, k) && sent == Some(CallPacket(c, h, mid, k, args))
              else Value() == c && sent == None
      ensures sent.Some? <==> phase == Connected && h in at && at[h].uid in sc.classes && mid in sc.classes[at[h].uid].methods &&
                              mid in at[h].info && at[h].info[mid] == One(Bits(1)) &&
                              k != INVALID_HANDLE && forall j :: 0 <= j < |old(calls)| ==> old(calls)[j].call != k
      ensures sent.Some? ==> sent == Some(CallPkt(at[h].uid, h, mid, k, args))
      ensures calls == old(calls) + (if sent.Some? then [Pending(k, old(next), h)] else [])
      ensures next == old(next) + (if sent.Some? then 1 else 0)
    {
      sent := None;
      if phase != Connected || h !in at || MethodState(sc, at[h], mid) != 1 {
        return;
      }
      var free := k != INVALID_HANDLE;
      for i := 0 to |calls|
        invariant free == (k != INVALID_HANDLE && forall j :: 0 <= j < i ==> calls[j].call != k)
      {
        free := free && calls[i].call != k;
      }
      if free {
        calls := calls + [Pending(k, next, h)];
        next := next + 1;
        sent := Some(CallPkt(at[h].uid, h, mid, k, args));
      }
    }

    /** obus_client_ack: an unknown call handle is ignored. */
    method Ack(k: Handle, status: Status)
      requires DistinctCalls(calls)
      modifies this`calls, this`log
      ensures Value() == Acknowledge(old(Value()), k, status)
      ensures (forall j :: 0 <= j < |old(calls)| ==> old(calls)[j].call != k) ==> calls == old(calls) && log == old(log)
      ensures forall j :: 0 <= j < |old(calls)| && old(calls)[j].call == k ==>
                calls == old(calls)[..j] + old(calls)[j + 1..] && log == old(log) + [Done(old(calls)[j].id, status)]
    {
      var i := 0;
      while i < |calls| && calls[i].call != k
        invariant 0 <= i <= |calls|
        invariant forall j :: 0 <= j < i ==> calls[j].call != k
      {
        i := i + 1;
      }
      UniqueCall(calls, k, status, i);
      if i < |calls| {
        log := log + [Done(calls[i].id, status)];
        calls := calls[..i] + calls[i + 1..];
      }
    }

    // ---- connection ----

    method ConnectionResponse(accepted: bool, snapshot: seq<Item>)
      modifies this`phase, this`order, this`at
      ensures Value() == ClientSpec.Receive(old(Value()), ConResp(accepted, snapshot))
      ensures phase == if old(phase) != Connecting then old(phase) else if accepted then Connected else ConnectionRefused
      ensures old(phase) != Connecting || !accepted ==> order == old(order) && at == old(at)
    {
      if phase != Connecting {
        return;
      }
      if !accepted {
        phase := ConnectionRefused;
        return;
      }
      phase := Connected;
      AddObjects(snapshot);
    }

    method Disconnect()
      modifies this
      ensures Value() == ClientSpec.Disconnect(old(Value()))
      ensures old(ClientOk(Value())) ==> phase == Closed && order == [] && at == map[] && calls == []
    {
      if ClientOk(Value()) {
        DisconnectOk(Value());
      }
      RemoveObjects(order);
      phase := Closed;
    }

    /** obus_client_io_read_event: one packet from the decoder. */
    method Receive(p: Down)
      requires DistinctCalls(calls)
      modifies this
      ensures Value() == ClientSpec.Receive(old(Value()), p)
      ensures old(ClientOk(Value()) && Applicable(ViewOf(Value()), p)) ==> ClientOk(Value())
    {
      ghost var c := Value();
      if ClientOk(c) && Applicable(ViewOf(c), p) {
        ReceiveOk(c, p);
      }
      hide ClientOk;
      match p
      case ConResp(accepted, snapshot) => ConnectionResponse(accepted, snapshot);
      case AddPkt(it) => AddObject(it);
      case RemovePkt(r) => RemoveObject(r.handle);
      case EventPkt(e) => HandleEvent(e);
      case BusEventPkt(_, adds, removes, events) =>
        var hs := ResolveRemoves(removes);
        var es := ResolveUpdates(events);
        AddObjects(adds);
        HandleEvents(es);
        RemoveObjects(hs);
      case AckPkt(k, status) => Ack(k, status);
    }
  }

  /** With distinct call handles, completing handle k takes out the one call found by lookup. */
  lemma {:induction false} UniqueCall(calls: seq<Pending>, k: Handle, status: Status, i: nat)
    requires DistinctCalls(calls)
    requires i <= |calls| && forall j :: 0 <= j < i ==> calls[j].call != k
    requires i < |calls| ==> calls[i].call == k
    ensures i < |calls| ==> OtherCalls(calls, k) == calls[..i] + calls[i + 1..] &&
                            AckedCalls(calls, k, status) == [Done(calls[i].id, status)]
    ensures i == |calls| ==> OtherCalls(calls, k) == calls && AckedCalls(calls, k, status) == []
    decreases |calls|
  {
    if calls != [] {
      var rest := calls[1..];
      if i == 0 {
        UniqueCall(rest, k, status, |rest|);
      } else {
        UniqueCall(rest, k, status, i - 1);
        if i < |calls| {
          assert calls[..i] + calls[i + 1..] == [calls[0]] + (rest[..i - 1] + rest[i..]);
        } else {
          assert calls == [calls[0]] + rest;
        }
      }
    }
  }
}
