# obus: a verified model

obus keeps typed objects synchronised between one server and many clients over byte streams. The
server registers objects, sends each newly accepted peer a snapshot of them, and then broadcasts
ADD, REMOVE, EVENT and BUS_EVENT packets; clients replay these into a bus of their own and issue
CALLs, which are acknowledged or aborted. This project models the C library (`src/libobus`) and
the parts of the Python implementation that speak the same wire format, and proves that every
client bus is a faithful, delayed copy of the server's.

Verify with `dafny verify dfyconfig.toml`.

## How the model is laid out

| module | models |
|---|---|
| `Values`, `Lists` | field values, presence, copy and merge; lists without duplicates |
| `Bus`, `ObjectStore` | what a packet does to a client's bus; the server's objects and registered list |
| `ServerSpec`, `ClientSpec` | each server and client operation as a function on values |
| `Runs` | the whole system as a step machine: a server, any number of connections, a FIFO channel each way, clients; the invariant and the safety theorems over all runs |
| `Laws`, `RunLaws` | what the operations do, stated on fields, packets and statuses themselves; and over runs: who gets in, which fields events touch, what a call carries |
| `Server`, `Client` | the operations as the C code performs them, on fields and in loops, proved equal to the functions of `ServerSpec` and `ClientSpec` |
| `Answers`, `Mistakes` | which answer ends a call, when call handles are drawn again; exactly when it can be another call's |
| `Typed` | the generated C types as an invariant of runs: packets in flight fit their schema |
| `Bytes`, `Codec`, `Packets`, `Wire` | the byte format: big-endian integers, tagged structs, objects with size markers, packets; decoding under another schema; the end-to-end theorem |
| `Requests` | the bytes of connection requests and calls |
| `Layout` | where every number stands in a packet, independent of the encoders and decoders |
| `Bounds`, `Standalone` | what decoding depends on: the filled bytes, and when more; the packet, and when what stands behind it |
| `Marshal` | the encoders and decoders as they work on a growing buffer with a read position and back-patched sizes |
| `Framing`, `PyDecoder` | the two stream decoders, C and Python |
| `PyCodec` | the Python struct writer against the C format |
| `Transport` | write queues with partial writes over shared, reference-counted buffers |
| `IntrusiveList` | the circular linked lists of obus_list.h, on the heap |
| `HashTable` | the chained hash with its entry list |
| `StringArrays` | copying string arrays with pointer hand-over, on an explicit heap |

The theorems over runs are not vacuous: every enabled step of a reachable state leads to another
reachable state (`Runs.EveryEnabledStepIsTaken`), every run can be given the serial numbers `Answers`
and `Mistakes` speak of (`Answers.EveryRunIsTagged`), and `Mistakes.TwoCallsReachable` builds a run.

## What is assumed

- Client and server share one schema in `Runs`, as far as the checksum both exchange stands for it
  (`RunLaws.ConnectedWasAdmitted`); field uids are distinct within a struct and a
  struct has fewer than 65536 fields (`DescOk`).
- The application passes structs of the types its descriptors declare, as the generated C code
  makes it (`Typed.TypedStep`), and encoded packets fit in 32-bit sizes (`Wire.Small`).
- The adds and removes of a bus event are distinct, which is what assembling it guarantees
  (`Server.BusEvent.Distinct`). Each event or bus event is sent once.
- Sockets, clocks and randomness are parameters: chunks read, bytes the socket has room for,
  handles drawn, whether the user accepts a connection, what a method handler acknowledges.

## What the code does not do as documented or expected

- `protocol.txt` numbers the packets EVENT 4, CALL 5, ACK 6, BUS_EVENT 7; the code uses
  BUS_EVENT 4, EVENT 5, CALL 6, ACK 7 (`src/libobus/src/obus_packet.h:43-78`). The model follows
  the code.
- A decoder starts scanning at the read position its pool buffer happens to have, because clearing
  a buffer resets only its length: right on every stream if and only if that position is 0
  (`Framing.StartPositionMustBeZero`), and a connection that ends inside a packet leaves it at 9
  (`Framing.PositionLeft`).
- The C framer does not check the size in a header. A size of 0 makes its loop return to the same
  state (`Framing.ZeroSizeSpins`); `Framing.ChunkingDoesNotMatter` covers all streams and says
  exactly when this happens.
- After a payload is rejected, packets already complete in the buffer may wait for further input:
  exactly if the first packet complete after the last read is the rejected one and another stands
  behind it (`Framing.RejectionStalls`, `Framing.SessionStalls`).
- The Python decoder does not go back after a partial magic number or a rejected header. It finds
  the next packet if and only if the bytes before it leave it at rest
  (`PyDecoder.Resynchronisation`); it holds back a last packet without payload
  (`PyDecoder.AgreesWithC`).
- The 64-bit read checks the allocated size instead of the filled length, so a struct may be
  decoded from memory behind the received bytes: exactly if it announces a known 64-bit field that
  runs past them (`Bounds.StructSeesOnlyFilled`, `Bounds.PayloadSeesOnlyFilled`).
- Payload decoding is bounded by the buffer and not by the size in the header. A packet that is
  decoded inside its own bytes is safe (`Standalone.InsideStands`); for each type a short packet is
  completed with the bytes of the next (`Standalone.ShortAddTakesWhatFollows` and its kin), for ACK
  and REMOVE with the exact condition.
- An ACK is matched by a call handle that may have been drawn again: a call can be completed by the
  ACK of an earlier one (`Mistakes.MistakeHappens`). `Mistakes.MistakenAnswer` says exactly when, in
  terms of what is in flight; with handles that are not in flight it cannot happen
  (`Answers.AnsweredByItsOwn`).
- A call the server cannot place, which happens in ordinary runs after an object is removed, is a
  rejected payload and can hold up the next call (`Requests.UnplacedCallHidesNext`).
- Tearing down a connection gives back one of the two references each queued buffer holds: nothing
  is lost if and only if the queue is empty (`Transport.Pool.Teardown`), and a buffer that lost a
  reference never returns to the pool (`Transport.Pool.Serve`).
- Copying a string array onto itself loses its strings (`StringArrays.ArrayCopyOntoItself`).
- A Python string with a NUL inside arrives in C cut at it (`PyCodec.StringArrivesWhole`).

## Model

| member | source | states |
|---|---|---|
| `Runs.ReplicaConvergence` | src/libobus/src/obus_server.c:227-364 | In every reachable state, for every connected peer whose client is not closed, replaying the packets in flight on the client gives exactly the registered objects (handle, type, field values, order); an empty channel means equal buses |
| `Runs.DeliveryAlwaysApplicable` | src/libobus/src/obus_client.c:189-343 | In every reachable state the packet a client takes next fits its replica: an ADD names a handle it lacks, a REMOVE or EVENT an object it holds with that type, a bus event likewise, a response comes once; also after the server dropped the peer |
| `Runs.NoCallLostOrAnsweredTwice` | src/libobus/src/obus_client.c:767-862 | In every reachable state every call ever made is either pending once or was reported once, never both and never twice, whatever handles are reused; after a disconnect every call was reported |
| `Runs.QuiescentMeansAnswered` | src/libobus/src/obus_client.c:345-371 | When both channels of a connected pair are empty no call is pending, including calls on objects the server destroyed or whose handle it reused |
| `Runs.PeerAccounting` | src/libobus/src/obus_server.c:143-212 | In every reachable state n_peers_connected is the number of connected peers, idle peers have been sent nothing and refused peers nothing but the refusal |
| `Runs.NextKeeps` | src/libobus/src/obus_server.c:227-419 | Every step of the system (server calls, connects, deliveries either way, calls, drops, losses after a drop) keeps the invariant behind the theorems above |
| `Runs.RunKeeps` | src/libobus/src/obus_server.c:227-419 | The invariant holds at every state of every run |
| `Runs.UndecodableCallIsRemoved` | src/libobus/src/obus_call.c:194-282 | A call the server cannot decode although the client made it on an object of that type: the removal of that object is already on its way, so the call will be aborted |
| `Runs.CallTakenEnds` | src/libobus/src/obus_server.c:367-419 | Once the server has taken a call from the channel, its acknowledgement or the removal of its object is in flight |
| `Runs.LosesKeeps` | src/libobus/src/obus_server.c:165-188 | Losing the tail of what is in flight to a dropped peer keeps the invariant |
| `RunLaws.ConnectedWasAdmitted` | src/libobus/src/obus_server.c:266-364 | In every state of every run, a connected peer was idle when a request of it was taken that carried version 2, the bus name and checksum of the server and a client name, and the user accepted: so both sides have the same schema checksum |
| `RunLaws.RequestDecides` | src/libobus/src/obus_server.c:227-364 | Such a request connects an idle peer and sends it every registered object; any other leaves it refused with exactly one refusal |
| `RunLaws.EventsInFlightAreLawful` | src/libobus/src/obus_event.c:188-246 | In every reachable state every event in flight carries only fields that its event declares |
| `RunLaws.SendStepTook` | src/libobus/src/obus_server.c:845-896 | Sending an event in any reachable state changes the declared fields it gives, and nothing else on the server |
| `RunLaws.TakenEventTook` | src/libobus/src/obus_client.c:189-214 | A client that takes it changes the same fields of its copy, and nothing else |
| `RunLaws.TakenBusEventTook` | src/libobus/src/obus_client.c:373-422 | A client that takes a bus event: every object it keeps holds in every field the value of the last event that gives one, or what it held |
| `RunLaws.CallCarriesWhatWasAsked` | src/libobus/src/obus_client.c:804-822 | In every tagged run a CALL on its way carries the object, type, method, handle and arguments of the call step with its serial |
| `RunLaws.ArgumentsArrive` | src/libobus/src/obus_call.c:146-282 | and a server that can place it decodes those arguments, as the wire carries them |
| `Bus.BusEventIsSequence` | src/libobus/src/obus_client.c:373-422 | On a client, a bus event that fits has the effect of its adds, then its events, then its removes delivered one by one, and that sequence fits too, although the client resolves handles before committing the adds |
| `Bus.LostOnlyByRemoval` | src/libobus/src/obus_client.c:315-343 | An object disappears from a replica, or changes type, in a sequence of packets only if one of them removes its handle |
| `Bus.ApplyKeeps` | src/libobus/src/obus_client.c:189-262 | A packet that does not remove a handle leaves its object held with the same type |
| `ObjectStore.BusEventMatches` | src/libobus/src/obus_server.c:969-994 | A bus event that passes the server check turns a replica of the registered objects into a replica of the registered objects after the server committed it |
| `ObjectStore.SnapshotMatches` | src/libobus/src/obus_server.c:227-264 | Replaying the snapshot into an empty bus gives the registered objects |
| `ObjectStore.CommitMatches` | src/libobus/src/obus_event.c:391-409 | The client merge of an event equals the server merge, object by object |
| `Values.CopyForgetsWire` | src/libobus/src/obus_field.c:156-226 | Copying what came over the wire equals copying the original: booleans 0/1, NULL strings empty |
| `Values.MergeKeepsNormal` | src/libobus/src/obus_struct.c:273-296 | Merging keeps an object normalised |
| `Laws.MergeTakes` | src/libobus/src/obus_struct.c:273-296 | After a merge every field present in the source holds its value, numbers and texts the same, a NULL text empty, a boolean 0 or 1; every other field keeps its presence and value |
| `Laws.CommitAllTook` | src/libobus/src/obus_server.c:969-994 | Events committed one after another leave in every field of every object the value the last event that gives it one gave it, or what was there |
| `Laws.UpdateAllTook` | src/libobus/src/obus_client.c:373-422 | The same for events a client takes |
| `ServerSpec.BusEventIsSequenceOnServer` | src/libobus/src/obus_server.c:898-1055 | On the server, registering each, sending each and unregistering each leaves the same objects in the same order as one bus event |
| `ServerSpec.RegisterCarries` | src/libobus/src/obus_server.c:730-779 | Registering broadcasts an ADD that fits every up-to-date replica and brings it up to date |
| `ServerSpec.UnregisterCarries` | src/libobus/src/obus_server.c:781-830 | Unregistering broadcasts a REMOVE that fits every up-to-date replica and brings it up to date |
| `ServerSpec.SendEventCarries` | src/libobus/src/obus_server.c:845-896 | Sending an event broadcasts its sanitized form, which brings every up-to-date replica up to date |
| `ServerSpec.SendBusEventCarries` | src/libobus/src/obus_server.c:996-1055 | The same for a bus event that passes the check |
| `ServerSpec.BroadcastToNobody` | src/libobus/src/obus_server.c:748-750 | With no connected peer a broadcast changes nothing, so skipping the encoding loses nothing |
| `ServerSpec.ConnectionRequestOk` | src/libobus/src/obus_server.c:266-364 | A connection request keeps the peer counter exact whether the peer is accepted, refused or already answered |
| `ServerSpec.DropPeerOk` | src/libobus/src/obus_server.c:165-188 | Dropping a peer in any state keeps the peer counter exact |
| `ServerSpec.NewObjectOk` | src/libobus/src/obus_server.c:703-728 | Creating an object keeps the server consistent and changes no registered object |
| `Laws.SendEventSent` | src/libobus/src/obus_server.c:845-896 | A sent event: its object holds the values of the declared fields it was given, every other field and object is unchanged, and exactly the connected peers are told exactly those fields |
| `Laws.SendBusEventSent` | src/libobus/src/obus_server.c:996-1055 | A sent bus event: objects to add as they are, references, events with their declared fields; the registered list and every field afterwards |
| `Laws.NewObjectMade` | src/libobus/src/obus_object.c:87-149 | A new object holds the fields it is given and the defaults of its type in the others |
| `Laws.RequestDecided` | src/libobus/src/obus_server.c:266-364 | An idle peer is connected and sent every registered object, in order and as it is, exactly for version 2, the bus name, the checksum, a client name and a consenting user; otherwise refused |
| `Laws.AckStatusIs` | src/libobus/src/obus_server.c:380-416 | The status of the ACK from the object and the field of the method: unregistered ABORTED, 2 or no such field DISABLED, 0 NOT_SUPPORTED, above 2 REFUSED, 1 the first acknowledgement with the call handle or REFUSED |
| `Laws.CallIsTaken` | src/libobus/src/obus_server.c:367-419 | A call the server can place: exactly one ACK more for its caller, with its handle and that status; otherwise none |
| `Server.BusEvent.RegisterObject` | src/libobus/src/obus_bus_event.c:56-74 | Refused exactly if the object hangs in any bus event, this one or another, for adding or removing; otherwise attached at the end of the adds |
| `Server.BusEvent.UnregisterObject` | src/libobus/src/obus_bus_event.c:76-93 | The same for removes |
| `Server.BusEvent.Detach` | src/libobus/src/obus_bus_event.c:130-158 | The list walks of destruction free exactly its own objects for another bus event; those of others stay attached |
| `Server.BusEvent.OthersStayValid` | src/libobus/src/obus_bus_event.c:56-93 | What one bus event does with the shared nodes leaves every other bus event as it was |
| `Server.Server.DestroyBusEvent` | src/libobus/src/obus_bus_event.c:130-168 | Destroying a bus event also destroys the objects it was to remove |
| `Server.DestroyEachSpec` | src/libobus/src/obus_bus_event.c:150-158 | namely exactly those that are not registered any more |
| `Server.BusEvent.Distinct` | src/libobus/src/obus_bus_event.c:56-93 | An assembled bus event has distinct adds and removes and shares no object between them |
| `Server.Server.NewObject` | src/libobus/src/obus_bus.c:274-311 | The handle is the first drawn one that is free; a failing random source or an unknown type gives none; the object holds what it is given and the defaults, and no other changes |
| `Server.Server.DestroyObject` | src/libobus/src/obus_object.c:152-177 | Refused exactly for registered objects; otherwise the object goes |
| `Server.Server.SendPeers` | src/libobus/src/obus_server.c:190-212 | Exactly the connected peers get the packet, at the end of their channels |
| `Server.Server.SendIfConnected` | src/libobus/src/obus_server.c:743-770 | Encoding only when somebody is connected gives the same outcome as always broadcasting |
| `Server.Server.Register` | src/libobus/src/obus_server.c:730-779 | Success exactly for an unregistered object, which joins the list at the end; connected peers get an ADD with its type and fields |
| `Server.Server.Unregister` | src/libobus/src/obus_server.c:781-830 | Success exactly for a registered object, which leaves the list; connected peers get a REMOVE |
| `Server.Server.SanitizeEvent` | src/libobus/src/obus_event.c:188-246 | A field survives exactly if it is present and allowed, with its value |
| `Server.Server.SendEvent` | src/libobus/src/obus_server.c:845-896 | Success exactly for a registered object; every field present in the request and declared by the event then holds the request value, every other field and object is unchanged, and connected peers are told exactly those fields |
| `Server.Server.CheckBusEvent` | src/libobus/src/obus_server.c:898-936 | Accepted exactly when adds are unregistered, removes and event targets registered; the events come back with exactly their declared fields |
| `Server.Server.CommitLocally` | src/libobus/src/obus_server.c:969-994 | Every field of every object holds what the last event that gives it a value gave it, or what was there; then exactly the removes leave the registered list |
| `Server.Server.SendBusEvent` | src/libobus/src/obus_server.c:996-1055 | New server state and packet field by field as the law of bus events says; a rejected bus event changes nothing |
| `Server.Server.ConnectionRequest` | src/libobus/src/obus_server.c:266-364 | Only an idle peer is answered; connected with the registered objects exactly for version 2, the bus name, the checksum, a client name and a consenting user, otherwise refused once |
| `Server.Server.DropPeer` | src/libobus/src/obus_server.c:165-188 | New server state as specified |
| `Server.Server.SendAck` | src/libobus/src/obus_server.c:1057-1115 | Sends only for the call being served and closes it, so a second one is refused |
| `Server.Server.Handle` | src/libobus/src/obus_server.c:390-405 | However often and for whatever handles a handler acknowledges, only its first matching one is sent |
| `Server.Server.CallRequest` | src/libobus/src/obus_server.c:367-419 | A call the server can place gets exactly one ACK with its handle, its status dictated by registration, the field of the method and the first matching acknowledgement; another gets none; objects are unchanged |
| `ClientSpec.ExactlyOnce` | src/libobus/src/obus_bus.c:151-195 | Conservation of calls implies each serial is pending or reported, once |
| `ClientSpec.AbortConserves` | src/libobus/src/obus_bus.c:108-122 | Aborting moves calls from pending to reported without loss or duplicate |
| `ClientSpec.AckConserves` | src/libobus/src/obus_client.c:345-371 | An acknowledgement moves calls from pending to reported without loss or duplicate |
| `ClientSpec.ReceiveView` | src/libobus/src/obus_client.c:441-508 | What the client handlers do to the bus is exactly the replay step of the protocol |
| `ClientSpec.ReceiveOk` | src/libobus/src/obus_client.c:189-439 | A packet that fits keeps the client invariant: list and index agree, every pending call is on a held object, handles of pending calls are distinct, calls are conserved |
| `ClientSpec.StartCallOk` | src/libobus/src/obus_client.c:767-862 | Starting a call keeps the client invariant |
| `ClientSpec.DisconnectOk` | src/libobus/src/obus_client.c:111-165 | A disconnect empties the bus and reports every pending call |
| `Client.Client.AddObject` | src/libobus/src/obus_client.c:229-262 | A new object joins with its type and the fields the wire carried; one whose handle is taken or invalid is dropped; the others are unchanged |
| `Client.Client.HandleEvent` | src/libobus/src/obus_client.c:189-214 | On a held object of its type the fields the event gives hold its values, the other fields and objects are unchanged; otherwise nothing changes |
| `Client.Client.HandleEvents` | src/libobus/src/obus_client.c:373-422 | Every field of every object holds what the last event that gives it a value gave it, or what was there |
| `Client.Client.AbortCalls` | src/libobus/src/obus_bus.c:108-122 | Walking the call list and unlinking as it goes reports exactly the calls on that object as aborted, in order, and keeps the others in order |
| `Client.Client.RemoveObject` | src/libobus/src/obus_client.c:315-343 | Aborts the calls on the object, then takes it out of list and index |
| `Client.Client.ResolveRemoves` | src/libobus/src/obus_bus_event.c:266-341 | Exactly the references to held objects survive decoding, looked up before anything is committed |
| `Client.Client.Call` | src/libobus/src/obus_client.c:767-862 | A call is made exactly if the client is connected, holds the object, its method is there and enabled, and the drawn handle is valid and not pending; the packet carries the type, object, method, handle and arguments |
| `Client.Client.Ack` | src/libobus/src/obus_client.c:345-371 | The call with that handle leaves the list and is reported with that status; without one nothing changes |
| `Client.Client.ConnectionResponse` | src/libobus/src/obus_client.c:264-313 | New client state as specified for acceptance, refusal and a response out of turn |
| `Client.Client.Disconnect` | src/libobus/src/obus_client.c:111-165 | The connection is closed, nothing is held and nothing is pending |
| `Answers.DisconnectAborts` | src/libobus/src/obus_client.c:111-165 | Every call that was pending is reported aborted |
| `ClientSpec.AbortIs` | src/libobus/src/obus_bus.c:108-122 | Exactly the calls on the object end, all aborted |
| `Client.Client.Receive` | src/libobus/src/obus_client.c:441-508 | New client state as specified for every packet; a packet that fits keeps the client invariant |
| `Answers.FirstEndingDecides` | src/libobus/src/obus_client.c:315-371 | A pending call stays pending exactly if no packet in flight removes its object or answers its handle; otherwise it is reported with the status of the first that does |
| `Answers.AnsweredByItsOwn` | src/libobus/src/obus_bus.c:151-195 | In every run whose calls draw no handle that a CALL or ACK in flight still carries, every ACK a client takes completes the call it was sent for, or none (the exact condition for one call is Mistakes.MistakenAnswer) |
| `Answers.AnsweredBeforeAsked` | src/libobus/src/obus_bus.c:151-195 | For a call just made in any run: packets already in flight end it exactly if one of them removes its object or is an ACK with its handle; such an ACK belongs to an earlier call |
| `Answers.StaleAckAnswers` | src/libobus/src/obus_client.c:345-371 | From every quiet state with two callable objects: call, unregister, answer, remove lead to a state in which the next call may draw the same handle and is answered by the stale ACK |
| `Answers.NextKeepsTags` | src/libobus/src/obus_server.c:367-419 | Every step keeps each CALL and ACK with the call it belongs to |
| `Mistakes.MistakenAnswer` | src/libobus/src/obus_bus.c:151-195 | At any point of any run, for a call about to be made: the run can go on from it to an ACK of another call completing it if and only if the first packet on the way down that ends it is an ACK, or none ends it and a CALL on the way up carries its handle and is not on the same object under another type |
| `Mistakes.UpThreat` | src/libobus/src/obus_call.c:194-282 | A CALL on the way up with the drawn handle, at any position, can be answered to the new call: the server can come to hold an object of that handle and type |
| `Mistakes.DownThreat` | src/libobus/src/obus_client.c:345-371 | An ACK that is the first on the way down to end the call does end it |
| `Mistakes.MoveKeepsSafe` | src/libobus/src/obus_server.c:367-419 | Without such a threat no step of the system ever lets a foreign ACK come first |
| `Mistakes.SafeNeverMistakes` | src/libobus/src/obus_client.c:345-371 | hence no continuation does |
| `Mistakes.TwoCallsReachable` | src/libobus/src/obus_server.c:227-364 | A run reaches a quiet state with two callable objects |
| `Mistakes.MistakeHappens` | src/libobus/src/obus_client.c:345-371 | A run in which a call is completed by the ACK of another |
| `Bytes.ReadU32At` | src/libobus/src/obus_buffer.h:347-393 | Reading back a written 32-bit integer gives it, four bytes on |
| `Bytes.ReadU64At` | src/libobus/src/obus_buffer.h:395-450 | The same for 64 bits; what this read does beyond the filled bytes is in Bounds |
| `Codec.SchemaEvolution` | src/libobus/src/obus_struct.c:188-250 | A struct encoded under one descriptor and decoded under any other, whatever surrounds it, gives exactly the fields whose uid and type both share, with their values, and consumes exactly the encoded bytes |
| `Codec.RoundTrip` | src/libobus/src/obus_struct.c:188-250 | Under the same descriptor the struct comes back, booleans as 0/1 |
| `Codec.CommitCommutesWithWire` | src/libobus/src/obus_struct.c:273-296 | Merging a decoded event into an object equals merging the original event into it |
| `Codec.AbsorbIsCommon` | src/libobus/src/obus_struct.c:221-250 | The decoded struct depends on which fields were sent, not on their order |
| `Codec.FieldAt` | src/libobus/src/obus_field.c:624-721 | One encoded field is taken if uid and type match and otherwise skipped, to the same position |
| `Codec.ValueAt` | src/libobus/src/obus_field.c:518-622 | Decoding an encoded value gives it back; skipping it by its wire type lands on the same place |
| `Codec.ScalarAt` | src/libobus/src/obus_field.c:276-458 | The same for each scalar type |
| `Codec.StringAt` | src/libobus/src/obus_buffer.h:452-523 | The same for strings, NULL and empty kept apart |
| `Codec.Find` | src/libobus/src/obus_struct.c:309-319 | The descriptor found has that uid; none is found only if none has it |
| `Codec.PresentIsListing` | src/libobus/src/obus_struct.c:188-219 | The encoder emits each present field exactly once |
| `Bounds.StructSeesOnlyFilled` | src/libobus/src/obus_buffer.h:434-450 | The decoded struct is the same for all memory behind the filled bytes if and only if no announced 64-bit scalar or array of a known field runs past them |
| `Bounds.ItemSeesOnlyFilled` | src/libobus/src/obus_object.c:351-433 | The same for a whole object |
| `Bounds.PayloadSeesOnlyFilled` | src/libobus/src/obus_packet.c:672-701 | The same for a whole payload of any packet type, lists and bus events included |
| `Bounds.UnusedMemoryIsRead` | src/libobus/src/obus_buffer.h:434-450 | It happens: five filled bytes announce a 64-bit field and its value is the memory behind them |
| `Marshal.Buffer.WriteU32` | src/libobus/src/obus_buffer.h:362-376 | Patches four bytes in place and nothing else |
| `Marshal.Buffer.EncodeScalar` | src/libobus/src/obus_field.c:276-326 | Appends exactly the format of the scalar |
| `Marshal.Buffer.EncodeArray` | src/libobus/src/obus_field.c:533-569 | Appends the count and exactly the formats of the items |
| `Marshal.Buffer.EncodeField` | src/libobus/src/obus_field.c:624-655 | Appends uid, type and value |
| `Marshal.Buffer.EncodeStruct` | src/libobus/src/obus_struct.c:188-219 | Appends exactly the format of the struct, two loops over the descriptors |
| `Marshal.Buffer.EncodeItem` | src/libobus/src/obus_object.c:315-349 | Appends an object whose size marker, patched back, equals the bytes that follow it |
| `Marshal.Buffer.DecodeItems` | src/libobus/src/obus_field.c:571-622 | The item loop computes the specified array or fails as specified |
| `Marshal.Buffer.Skip` | src/libobus/src/obus_field.c:417-531 | Skipping moves the read position as specified, unknown types included |
| `Marshal.Buffer.DecodeField` | src/libobus/src/obus_field.c:657-721 | Computes the specified field; on failure restores the position and skips |
| `Marshal.Buffer.DecodeStruct` | src/libobus/src/obus_struct.c:221-250 | The field loop computes the specified struct and position |
| `Marshal.Buffer.DecodeItem` | src/libobus/src/obus_object.c:351-433 | Computes the specified object or skips to the end its size marker gives |
| `Marshal.Buffer.DecodeItemList` | src/libobus/src/obus_packet.c:184-226 | The object loop computes the specified list, unreadable items left out |
| `Packets.ItemAt` | src/libobus/src/obus_object.c:315-433 | An encoded object decodes, under another schema, to what that schema knows of it, or is skipped; either way the position lands behind it |
| `Packets.RefAt` | src/libobus/src/obus_object.c:269-313 | An encoded reference decodes exactly if its handle is held |
| `Packets.EventAt` | src/libobus/src/obus_event.c:248-389 | An encoded event decodes under another schema and bus if type, event and object are known, or is skipped, to the same position |
| `Packets.ItemsAt` | src/libobus/src/obus_packet.c:184-270 | A list of objects decodes, whatever follows it, to exactly the known ones in order |
| `Packets.RefsAt` | src/libobus/src/obus_bus_event.c:208-341 | A list of references decodes to exactly the held ones in order |
| `Packets.EventsAt` | src/libobus/src/obus_bus_event.c:208-341 | A list of events decodes to exactly the known ones in order |
| `Packets.BusEventAt` | src/libobus/src/obus_bus_event.c:208-341 | An encoded bus event decodes under any other schema and bus, whatever follows it, to exactly the known objects, held references and known events in order, or is dropped whole if the bus event is unknown |
| `Packets.ConRespAt` | src/libobus/src/obus_packet.c:184-270 | A connection response decodes under any other schema to exactly the objects of known type in order |
| `Packets.PayloadAt` | src/libobus/src/obus_packet.c:184-536 | Every server packet, whatever follows it: a client with any schema and bus makes of it exactly what it knows, and drops it exactly if it knows nothing of it |
| `Packets.CommonIs` | src/libobus/src/obus_field.c:657-721 | What two descriptors share: the present fields both describe with the same uid and type |
| `Packets.KnownIs` | src/libobus/src/obus_object.c:380-400 | An object is known exactly if handle and type are valid and the type is described; an event, if also its object is held with that type and the event declared |
| `Layout.BigEndian` | src/libobus/src/obus_buffer.h:308-425 | Integers stand most significant byte first: their bytes read as digits to base 256 are the number |
| `Layout.ScalarStands` | src/libobus/src/obus_field.c:276-360 | A string stands behind its length with the final NUL counted, NULL as length 0; a boolean as 0 or 1; every other type as a number of its size |
| `Layout.NumberedLikeTheEnum` | src/libobus/include/libobus_private.h:109-125 | The type byte is the place of the type in the enumeration, with bit 7 for arrays |
| `Layout.FieldStands` | src/libobus/src/obus_field.c:533-655 | A field: uid at 0, type byte at 2, value from 3; an array has its count at 3 and its items one behind the other from 7 |
| `Layout.StructStands` | src/libobus/src/obus_struct.c:188-219 | A struct: the number of present fields at 0, then those fields, each once |
| `Layout.PayloadStands` | src/libobus/src/obus_packet.c:227-511 | Every server packet: each uid, handle, count, size and status stands at its offset, lists in order behind their counts |
| `Layout.PacketStands` | src/libobus/src/obus_packet.c:85-110 | A packet starts with the letters obus, its own length and its type number; the payload follows |
| `Layout.CallStands` | src/libobus/src/obus_call.c:146-192 | A call: type, object, method and call handle, then the arguments behind their size |
| `Layout.ConReqStands` | src/libobus/src/obus_packet.c:144-182 | A connection request: version, bus name, checksum, client name |
| `Layout.HeaderIs` | src/libobus/src/obus_packet.c:538-590 | A header is accepted exactly for those letters and one of the eight types; its size is the number behind the letters |
| `Layout.FirstHeader` | src/libobus/src/obus_packet.c:538-590 | The search stops at the first header and fails only if there is none |
| `Packets.PayloadRoundTrip` | src/libobus/src/obus_packet.c:184-536 | Hence under one schema a packet that fits the client bus decodes to itself, as the wire preserves it |
| `Packets.WireActsAlike` | src/libobus/src/obus_field.c:156-226 | What the wire changes in a packet makes no difference to the client |
| `Requests.CallAt` | src/libobus/src/obus_call.c:146-282 | An encoded call decodes, whatever follows it, under any other schema that agrees on whether the method has arguments, to what the server knows of it, or is skipped by its size marker |
| `Requests.ConReqAt` | src/libobus/src/obus_packet.c:112-182 | An encoded connection request decodes to itself |
| `Requests.RequestAt` | src/libobus/src/obus_call.c:194-282 | The bytes of a request decode to it, and a call is rejected exactly if the server model cannot place it |
| `Requests.UnplacedCallHidesNext` | src/libobus/src/obus_packet.c:638-715 | A call the server cannot place is a rejected payload, so the next request in the same read waits for more bytes |
| `Framing.ChunkingDoesNotMatter` | src/libobus/src/obus_packet.c:538-719 | For every byte stream, start position, way reads split it and any verdicts that reject nothing, the packets taken are those of one left-to-right scan, and the decoder is stuck exactly if that scan meets a header of size 0 |
| `Framing.NothingLostOrInvented` | src/libobus/src/obus_packet.c:627-719 | The same with payloads being rejected: what was delivered, then what the buffer still holds, is the scan of everything received |
| `Framing.PacketsDelivered` | src/libobus/src/obus_packet.c:627-719 | A stream of well-formed packets is delivered packet by packet, however split |
| `Framing.PrefixDelivered` | src/libobus/src/obus_packet.c:627-719 | While such a stream is arriving, exactly the packets that are complete are delivered |
| `Framing.PollTakes` | src/libobus/src/obus_packet.c:638-715 | For every decoder state, reads and verdicts, an event takes exactly the packets a count on the bytes says: all complete ones, but after a read only the first of them if it is rejected |
| `Framing.StartPositionMustBeZero` | src/libobus/src/obus_packet.c:593-606 | The packets are those of the stream on every stream if and only if the buffer handed to the decoder starts at read position 0, which clearing it does not ensure |
| `Framing.RejectionStalls` | src/libobus/src/obus_packet.c:638-715 | After an event, for every decoder state, reads and verdicts, complete packets are left behind if and only if the first packet complete after the last read is rejected and another stands behind it; none are if nothing is rejected |
| `Framing.SessionStalls` | src/libobus/src/obus_packet.c:627-719 | A connection has taken every packet of the scan if and only if its last event does not stall |
| `Framing.RejectedPacketHidesNext` | src/libobus/src/obus_packet.c:638-715 | It happens: two packets in one read, the first rejected |
| `Framing.PositionLeft` | src/libobus/src/obus_packet.c:593-625 | A connection leaves its buffer at read position 9 if it ends inside a packet whose header was found, else at 0 |
| `Framing.CutPacketLeavesPosition` | src/libobus/src/obus_packet.c:609-616 | So any packet cut behind its header hands position 9 to the next user of the buffer |
| `Framing.ZeroSizeSpins` | src/libobus/src/obus_packet.c:566-578 | A header of size 0 leads the loop back to the same state |
| `Framing.NextHeader` | src/libobus/src/obus_packet.c:538-590 | The header found is accepted and not before the start |
| `Framing.NextHeaderResumes` | src/libobus/src/obus_packet.c:582-588 | Keeping the last eight bytes loses no header |
| `Framing.MagicNumber` | src/libobus/src/obus_packet.c:40-48 | Comparing the first byte and then the number is comparing the four bytes |
| `Framing.Decoder.RemoveFirst` | src/libobus/src/obus_buffer.h:616-630 | Drops the first bytes and moves the read position back, not below 0; dropping everything leaves the position alone |
| `Framing.Decoder.SeekHeader` | src/libobus/src/obus_packet.c:538-580 | The scan loop stops at the first accepted header, or nowhere |
| `Framing.Decoder.DecodeHeader` | src/libobus/src/obus_packet.c:538-590 | New decoder state as specified |
| `Framing.Decoder.ReadPacket` | src/libobus/src/obus_packet.c:627-719 | The read loop computes the specified outcome for every sequence of reads and verdicts |
| `PyDecoder.RunSplits` | python/obus/protocol.py:336-372 | The byte machine on two pieces is the byte machine on their concatenation |
| `PyDecoder.RunPackets` | python/obus/protocol.py:336-420 | On well-formed packets it yields them all, a last one without payload held back |
| `PyDecoder.AgreesWithC` | python/obus/protocol.py:336-420 | It yields what the C framer yields on the same well-formed stream, however split, if and only if the last packet has a payload |
| `PyDecoder.Resynchronisation` | python/obus/protocol.py:336-420 | After any bytes without a packet, C finds the packet that follows; Python finds it if and only if those bytes do not end inside a partial magic number or a header it is collecting |
| `PyDecoder.RunGap` | python/obus/protocol.py:374-420 | Where such bytes leave Python: searching afresh exactly as the condition says, never inside a payload |
| `PyDecoder.QuietEndIsAtRest` | python/obus/protocol.py:380-391 | Enough for that: no first magic byte among the last eight |
| `PyDecoder.StrayByteLosesPacket` | python/obus/protocol.py:380-386 | A single stray first magic byte makes Python miss any packet behind it |
| `PyDecoder.GapsSkipped` | python/obus/protocol.py:336-420 | On a stream of packets with such gaps before each, both decoders take all packets |
| `PyDecoder.Decoder.Turn` | python/obus/protocol.py:336-372 | One turn of the loop; only a complete packet without payload consumes nothing |
| `PyDecoder.Decoder.Decode` | python/obus/protocol.py:336-372 | Terminates, and returns the next packet of the byte machine or all input consumed |
| `PyDecoder.Decoder.DecodeBlock` | python/obus/transport.py:176-183 | The loop over one received block ends, and yields the packets of the byte machine |
| `PyDecoder.Decoder.Connection` | python/obus/transport.py:171-185 | All blocks of a connection: packets and state are those of the byte machine on their concatenation |
| `Wire.PacketWellFormed` | src/libobus/src/obus_packet.c:89-110 | An encoded packet is one the framers accept: magic number, back-patched size, type |
| `Wire.PacketDecodes` | src/libobus/src/obus_packet.c:627-719 | Its payload decodes to the packet, whatever stands behind it in the buffer |
| `Wire.PacketStandsAlone` | src/libobus/src/obus_packet.c:672-701 | What stands behind an encoded packet makes no difference to a receiver with any schema, although payload decoding is not bounded by the size in the header |
| `Standalone.InsideStands` | src/libobus/src/obus_packet.c:672-701 | A received packet of any type all of whose payload reads succeed inside it is decoded the same whatever stands behind it |
| `Standalone.ShortAckTakesWhatFollows` | src/libobus/src/obus_packet.c:515-536 | An ACK is decoded the same whatever follows it if and only if it holds a handle and a status |
| `Standalone.ShortRemoveTakesWhatFollows` | src/libobus/src/obus_object.c:286-313 | A REMOVE is if and only if it holds a type and a handle, or no held handle can be completed from it |
| `Standalone.ShortAddTakesWhatFollows` | src/libobus/src/obus_object.c:351-433 | An ADD of any known type that ends before its struct takes it from the bytes behind |
| `Standalone.ShortEventTakesWhatFollows` | src/libobus/src/obus_event.c:289-389 | So does an EVENT of any known event on any held object |
| `Standalone.ShortConRespTakesWhatFollows` | src/libobus/src/obus_packet.c:184-226 | So does a connection response that ends before its object count |
| `Standalone.ShortBusEventTakesWhatFollows` | src/libobus/src/obus_bus_event.c:266-341 | So does any known bus event that ends before its counts |
| `Wire.ChannelCarriesPackets` | src/libobus/src/obus_packet.c:627-719 | However the bytes of a sequence of packets are split into reads, and whatever stands behind each when it is decoded, the client ends as if it had replayed the packets |
| `Wire.EndToEnd` | src/libobus/src/obus_client.c:441-508 | In every state reached by an application that passes data of the declared types: once the bytes in flight to a connected client have arrived, in whatever pieces, its bus is the registered objects |
| `Typed.NextTyped` | src/libobus/src/obus_server.c:227-1055 | Every step keeps every object and every packet in flight within its descriptor |
| `Typed.InFlightIsTyped` | src/libobus/src/obus_server.c:227-1055 | In every state such runs reach, every packet in flight fits its schema and its lists are short |
| `Wire.SendPacket` | src/libobus/src/obus_server.c:748-770 | Encoding into a pool buffer and sending: the submitted stream of each connected peer grows by exactly this packet, that of the others by none |
| `Wire.QueueToReplica` | src/libobus/src/obus_io.c:132-275 | Whatever part of a channel is on the wire, the client has replayed exactly the packets completely on it, and all once the write queue is empty |
| `Transport.Pool.QueuedIsNotFree` | src/libobus/src/obus_buffer.h:55-107 | A buffer in any write queue is not in the free pool |
| `Transport.Pool.Peek` | src/libobus/src/obus_buffer.h:662-685 | The buffer handed out was free or is new, is in no queue and has one reference; no other buffer changes and no lost reference comes back |
| `Transport.Pool.Fill` | src/libobus/src/obus_buffer.h:141-260 | Writing into a buffer of which no queue holds a reference keeps every queue |
| `Transport.Pool.Ref` | src/libobus/src/obus_buffer.h:92-98 | One more reference, accounted for |
| `Transport.Pool.Unref` | src/libobus/src/obus_buffer.h:99-107 | One reference less; the buffer is free exactly at zero |
| `Transport.Pool.Write` | src/libobus/src/obus_io.c:367-415 | For every pattern of partial writes the stream submitted grows by the buffer; with an empty queue exactly the bytes the socket has room for go on the wire, otherwise none; what is left waits with two references |
| `Transport.Pool.SendPeers` | src/libobus/src/obus_server.c:190-225 | One buffer to all connected peers: each of their streams grows by its bytes, the other connections are unchanged, the sender keeps its reference |
| `Transport.Pool.SendOne` | src/libobus/src/obus_server.c:227-264 | A packet to one peer: its stream grows, the sender reference goes |
| `Transport.Pool.WriteReady` | src/libobus/src/obus_io.c:219-275 | Draining the queue, for every pattern of partial writes and EAGAIN: wire bytes plus unsent bytes stay the bytes submitted, and exactly as many go out as the socket has room for or as there are |
| `Transport.Pool.Complete` | src/libobus/src/obus_io.c:132-159 | A sent buffer leaves the queue with its two references and returns to the pool with the last |
| `Transport.Pool.Teardown` | src/libobus/src/obus_io.c:323-356 | Teardown empties the queue and loses exactly one reference for each queued buffer: none if and only if the queue was empty |
| `Transport.Pool.LeakedIsNotFree` | src/libobus/src/obus_buffer.h:99-107 | A buffer that lost a reference is not in the free pool |
| `Transport.Pool.Serve` | src/libobus/src/obus_io.c:323-356 | Under any sequence of accepts, broadcasts, writable sockets and teardowns, a lost buffer is never free, handed out or written to again |
| `Transport.AllAccountedAfterTeardown` | src/libobus/src/obus_io.c:323-356 | The reference counts stay accounted for, the lost ones included |
| `Transport.WireIsPrefix` | src/libobus/src/obus_io.c:132-275 | The bytes on the wire are the beginning of the concatenation of all buffers submitted, and all of it once the queue is empty |
| `Transport.AllAccountedAfterSending` | src/libobus/src/obus_io.c:132-159 | The reference count of every buffer stays twice its queue entries plus the other references, and the free pool holds exactly the buffers without any, when a sent buffer leaves a queue |
| `Transport.AllAccountedAfterQueueing` | src/libobus/src/obus_io.c:70-80 | The same when a buffer joins a queue |
| `Transport.ProgressedOk` | src/libobus/src/obus_io.c:173-217 | A partial write moves bytes from unsent to wire and keeps their concatenation |
| `Transport.EnqueuedOk` | src/libobus/src/obus_io.c:367-415 | Queueing behind others or after a partial write keeps wire plus unsent equal to submitted |
| `IntrusiveList.AddBefore` | src/libobus/src/obus_list.h:103-123 | Rewriting four pointers inserts the node at that place of the ring, before the head meaning at the end; the ring stays linked both ways and nodes of other lists are untouched |
| `IntrusiveList.Del` | src/libobus/src/obus_list.h:125-137 | Unlinking takes exactly that node out of the ring and leaves it unlinked |
| `IntrusiveList.Walk` | src/libobus/src/obus_list.h:187-188 | The walk ends and sees every entry in order |
| `IntrusiveList.Sweep` | src/libobus/src/obus_list.h:193-196 | The safe walk with deletion takes out exactly the entries to go, unlinked, and keeps the others in order |
| `HashTable.Refines` | src/libobus/src/obus_hash.c:133-308 | Every sequence of inserts, removes and lookups, const or not, gives the results and the entries in insertion order of a plain association list |
| `HashTable.MapDoIs` | src/libobus/src/obus_hash.c:133-308 | That list is a map: a held key is not inserted again, a new one goes to the end, a removal takes out the one entry of the key, a lookup finds it |
| `HashTable.EveryTableRefines` | src/libobus/src/obus_hash.c:76-308 | A table created for any size and used in any way always has the number of buckets it was created with, which is never zero, and answers as a plain map that started empty |
| `HashTable.DoRefines` | src/libobus/src/obus_hash.c:133-308 | The same for one operation, with each entry in the bucket of its key |
| `HashTable.InsertKeeps` | src/libobus/src/obus_hash.c:133-188 | Insertion appends, a duplicate key changes nothing |
| `HashTable.RemoveKeeps` | src/libobus/src/obus_hash.c:275-308 | Removal takes out exactly the entry of that key |
| `HashTable.FindAgrees` | src/libobus/src/obus_hash.c:215-239 | Searching the bucket finds what searching all entries finds |
| `HashTable.Hash.BucketCount` | src/libobus/src/obus_hash.c:76-92 | The loop picks the smallest listed prime above the wanted size, or the largest of all |
| `HashTable.Hash.Insert` | src/libobus/src/obus_hash.c:133-213 | Fails exactly if an entry has the key, and then changes nothing; otherwise the entry is the last of the list |
| `HashTable.Hash.Lookup` | src/libobus/src/obus_hash.c:215-257 | Finds exactly the non-const entry of that key |
| `HashTable.Hash.Remove` | src/libobus/src/obus_hash.c:275-308 | Fails exactly if no entry has the key; otherwise all entries but that one stay |
| `StringArrays.Heap.ArrayCopy` | src/libobus/src/obus_field.c:876-931 | Copy with pointer hand-over: the new array reads as a deep copy, owns its strings, no string of the source or of others is freed, and the heap changes by exactly the old strings going and the new ones coming |
| `StringArrays.Heap.HandOver` | src/libobus/src/obus_field.c:846-874 | A string found in the old array is taken out of it |
| `StringArrays.ArrayCopyOntoItself` | src/libobus/src/obus_field.c:876-931 | With one item array as source and destination every string is lost, and the result reads as a deep copy if and only if all strings were empty |
| `PyCodec.PythonToC` | python/obus/data/obus_struct.py:135-153 | A struct written by Python, whatever order its dictionary yields the fields in and whatever strings it holds, gives C under any descriptor exactly the common fields, strings up to their first NUL, consuming exactly its bytes; under the same descriptor all of it |
| `PyCodec.OrderIndependence` | src/libobus/src/obus_struct.c:221-250 | Whatever order a sender walks its descriptors in, a receiver with any descriptor gets the common fields |
| `PyCodec.StringArrivesWhole` | python/obus/buffer.py:104-111 | A Python string arrives in C cut at its first NUL: whole if and only if it has none |
| `PyCodec.StructToCFits` | python/obus/data/obus_struct.py:202-232 | What arrives from Python fits its descriptor and is not changed by another trip over the wire |
| `PyCodec.TwosComplement` | python/obus/buffer.py:80-102 | An integer arrives as its two-complement bits |
| `PyCodec.PyBuffer.WriteInt` | python/obus/buffer.py:80-102 | Appends the big-endian two-complement form |
| `PyCodec.PyBuffer.EncodeScalar` | python/obus/data/obus_struct.py:202-232 | Appends the format C reads; a string goes out whole |
| `PyCodec.PyBuffer.EncodeArray` | python/obus/data/obus_struct.py:303-307 | Appends the count and the items |
| `PyCodec.PyBuffer.EncodeStruct` | python/obus/data/obus_struct.py:135-153 | Appends the count and the present fields in the order of the dictionary |

## Left out

- Sockets, event loops, timers, file descriptor utilities and JNI: system calls; their results are parameters.
- Logging and value formatting: no protocol meaning.
- Code generators, XML loading, the user interface, example programs: outside the protocol.
- Allocation failures and use of a connection after an I/O error: not part of the runs; an I/O error is a drop step, and what was in flight may be lost from then on.
- User callbacks and method handlers that call the server or client API again, other than acknowledging calls; a handler that unregisters its object before it acknowledges gives an order of REMOVE and ACK that no run here has.
- Sending the same event or bus event twice, which broadcasts again but skips the local commit.
- Server objects destroyed while attached to a bus event that was not yet sent.
- Liveness of the random handle search: `Server.Server.NewObject` gives up when the given draws run out, where the code goes on drawing.
- Requests.CallAt: a method that has arguments on the server and none on the client is left out; the server then reads a struct the client never wrote, from whatever follows.
- Reading structs in Python: the C reader is modelled in full, the Python one is not.
- The presence bitmap, bit by bit: presence is membership in a map from uid to value.
- Pointers of the hash chains, and of the lists inside other modules: `IntrusiveList` shows that the list operations act on their sequences of nodes, and the other modules use sequences.
- Memory left behind by a field whose decoding failed half way, and fields that occur twice in a malformed struct.
- Default values the client fills in for fields the server did not send.
- Marshal.Buffer.EncodeItem: the same loops for events, references and whole packets are covered by the format in `Packets`, not repeated on the buffer.
- Which incarnation of an object a call runs on when the server has given its handle to a new object of the same type: objects carry no identity besides handle and type.
