/**
  The clock-synchronisation dispatcher of the mesh chat application. A master
  announces itself by broadcast; it then asks a first node to synchronise with
  a second; the first node tells the second to start, and the second reports
  a clock delta to the master. The mesh's send primitives are not part of this
  model: every send is appended to the node's outbox.
 */
module MeshSync {
  import opened Bytes
  import opened Wrappers

  /** `enum messageType`, in declaration order. */
  datatype MessageType = SetMaster | SetupSynchronization | StartSynchronization | SynchronizationResult

  function TypeCode(t: MessageType): (b: Byte)
    ensures b < 4
  {
    match t
    case SetMaster => 0
    case SetupSynchronization => 1
    case StartSynchronization => 2
    case SynchronizationResult => 3
  }

  /** The case of the `switch` a type byte selects; bytes from 4 up select none. */
  function TypeOf(b: Byte): (t: Option<MessageType>)
    ensures t.Some? <==> b < 4
    ensures t.Some? ==> TypeCode(t.value) == b
  {
    if b == 0 then Some(SetMaster)
    else if b == 1 then Some(SetupSynchronization)
    else if b == 2 then Some(StartSynchronization)
    else if b == 3 then Some(SynchronizationResult)
    else None
  }

  lemma TypeCodeRoundTrip(t: MessageType)
    ensures TypeOf(TypeCode(t)) == Some(t)
  {
  }

  // ----- Packed messages --------------------------------------------------------

  /** `struct addressMessage`: a type byte and a 16-bit address, packed. */
  datatype AddressMessage = AddressMessage(kind: Byte, address: bv16)

  /** `struct resultMessage`: a type byte and a 64-bit clock delta, packed. */
  datatype ResultMessage = ResultMessage(kind: Byte, clockDelta: bv64)

  const ADDRESS_MESSAGE_SIZE: nat := 3
  const RESULT_MESSAGE_SIZE: nat := 9

  function EncodeAddress(m: AddressMessage): (b: seq<Byte>)
    ensures |b| == ADDRESS_MESSAGE_SIZE && b[0] == m.kind
  {
    [m.kind] + Le16(m.address)
  }

  /** Reads the packed layout from the front of a message; re-encoding gives
      back its first three bytes. */
  function DecodeAddress(b: seq<Byte>): (m: AddressMessage)
    requires |b| >= ADDRESS_MESSAGE_SIZE
    ensures EncodeAddress(m) == b[..ADDRESS_MESSAGE_SIZE]
  {
    var m := AddressMessage(b[0], FromLe16(b[1..3]));
    assert b[..ADDRESS_MESSAGE_SIZE] == [b[0]] + b[1..3];
    m
  }

  lemma AddressRoundTrip(m: AddressMessage, rest: seq<Byte>)
    ensures DecodeAddress(EncodeAddress(m) + rest) == m
  {
    var b := EncodeAddress(m) + rest;
    assert b[1..3] == Le16(m.address);
    Le16RoundTrip(m.address);
  }

  function EncodeResult(m: ResultMessage): (b: seq<Byte>)
    ensures |b| == RESULT_MESSAGE_SIZE && b[0] == m.kind
  {
    [m.kind] + Le64(m.clockDelta)
  }

  function DecodeResult(b: seq<Byte>): (m: ResultMessage)
    requires |b| >= RESULT_MESSAGE_SIZE
    ensures EncodeResult(m) == b[..RESULT_MESSAGE_SIZE]
  {
    var m := ResultMessage(b[0], FromLe64(b[1..9]));
    assert b[..RESULT_MESSAGE_SIZE] == [b[0]] + b[1..9];
    m
  }

  lemma ResultRoundTrip(m: ResultMessage, rest: seq<Byte>)
    ensures DecodeResult(EncodeResult(m) + rest) == m
  {
    var b := EncodeResult(m) + rest;
    assert b[1..9] == Le64(m.clockDelta);
    Le64RoundTrip(m.clockDelta);
  }

  // ----- The node ---------------------------------------------------------------

  /** A message handed to the mesh: to one address, or to every node. */
  datatype Send = Unicast(payload: seq<Byte>, destination: bv16) | Broadcast(payload: seq<Byte>)

  /** The node's `masterAddress` and what it has sent so far. */
  datatype MeshNode = MeshNode(masterAddress: bv16, outbox: seq<Send>)

  /** A static `masterAddress` starts at zero. */
  const FRESH: MeshNode := MeshNode(0, [])

  /** The clock delta reported; the ranging that would measure it is not
      wired in, and the value is fixed. */
  const CLOCK_DELTA: bv64 := 420

  function Sent(n: MeshNode, s: Send): (m: MeshNode)
    ensures m.masterAddress == n.masterAddress && m.outbox == n.outbox + [s]
  {
    n.(outbox := n.outbox + [s])
  }

  /** `broadcastMaster`: the single byte `SetMaster` to every node. */
  function BroadcastMaster(n: MeshNode): (m: MeshNode)
    ensures m == Sent(n, Broadcast([TypeCode(SetMaster)]))
  {
    Sent(n, Broadcast([0]))
  }

  /** `getClockDelta`: ask `first` to synchronise with `second`. */
  function GetClockDelta(n: MeshNode, first: bv16, second: bv16): (m: MeshNode)
    ensures m == Sent(n, Unicast(EncodeAddress(AddressMessage(TypeCode(SetupSynchronization), second)), first))
  {
    Sent(n, Unicast([1] + Le16(second), first))
  }

  /** `setupSynchronization`: tell the initiator to start. */
  function SetupSynchronizationSend(n: MeshNode, initiator: bv16): (m: MeshNode)
    ensures m == Sent(n, Unicast([TypeCode(StartSynchronization)], initiator))
  {
    Sent(n, Unicast([2], initiator))
  }

  /** `startSynchronization`: report the clock delta to the master, whatever
      node asked for it. */
  function StartSynchronizationSend(n: MeshNode, responder: bv16): (m: MeshNode)
    ensures m == Sent(n, Unicast(EncodeResult(ResultMessage(TypeCode(SynchronizationResult), CLOCK_DELTA)), n.masterAddress))
  {
    Sent(n, Unicast([3] + Le64(420), n.masterAddress))
  }

  /** `messageHandler`: switch on the type byte. The handler reads the address
      of a `SetupSynchronization` message from bytes 1-2, so such a message
      must carry them. */
  function MessageHandler(n: MeshNode, message: seq<Byte>, sender: bv16): (m: MeshNode)
    requires |message| >= 1
    requires message[0] == TypeCode(SetupSynchronization) ==> |message| >= ADDRESS_MESSAGE_SIZE
    ensures message[0] == TypeCode(SetMaster) ==> m == MeshNode(sender, n.outbox)
    ensures message[0] == TypeCode(SetupSynchronization) ==>
              m == Sent(n, Unicast([TypeCode(StartSynchronization)], DecodeAddress(message).address))
    ensures message[0] == TypeCode(StartSynchronization) ==>
              m == Sent(n, Unicast(EncodeResult(ResultMessage(TypeCode(SynchronizationResult), CLOCK_DELTA)), n.masterAddress))
    ensures message[0] >= TypeCode(SynchronizationResult) ==> m == n
  {
    match TypeOf(message[0])
    case Some(SetMaster) => n.(masterAddress := sender)
    case Some(SetupSynchronization) => SetupSynchronizationSend(n, DecodeAddress(message).address)
    case Some(StartSynchronization) => StartSynchronizationSend(n, sender)
    case Some(SynchronizationResult) => n
    case None => n
  }

  /** The handler changes the master only on `SetMaster`, and sends only on
      `SetupSynchronization` and `StartSynchronization`, one message each. */
  lemma HandlerEffects(n: MeshNode, message: seq<Byte>, sender: bv16)
    requires |message| >= 1
    requires message[0] == TypeCode(SetupSynchronization) ==> |message| >= ADDRESS_MESSAGE_SIZE
    ensures var m := MessageHandler(n, message, sender);
            m.masterAddress == (if message[0] == TypeCode(SetMaster) then sender else n.masterAddress)
    ensures var m := MessageHandler(n, message, sender);
            (m.outbox != n.outbox <==> message[0] == 1 || message[0] == 2)
            && (m.outbox != n.outbox ==> |m.outbox| == |n.outbox| + 1 && m.outbox[..|n.outbox|] == n.outbox)
  {
  }

  /** A `SetupSynchronization` request built by `getClockDelta(first, second)`
      makes its receiver tell `second` to start. */
  lemma SetupForwardsToSecond(n: MeshNode, second: bv16, sender: bv16)
    ensures var request := EncodeAddress(AddressMessage(TypeCode(SetupSynchronization), second));
            MessageHandler(n, request, sender).outbox == n.outbox + [Unicast([TypeCode(StartSynchronization)], second)]
  {
    var request := EncodeAddress(AddressMessage(TypeCode(SetupSynchronization), second));
    AddressRoundTrip(AddressMessage(TypeCode(SetupSynchronization), second), []);
    assert request + [] == request;
  }

  /** One synchronisation end to end: `master` announces itself and asks
      `first` to synchronise with `second`; both nodes heard the announcement;
      then `second` sends the master the result message carrying the delta. */
  lemma SynchronizationReachesMaster(master: MeshNode, first: MeshNode, second: MeshNode,
                                                        masterAddress: bv16, firstAddress: bv16, secondAddress: bv16)
    ensures var announced := BroadcastMaster(master);
            var asked := GetClockDelta(announced, firstAddress, secondAddress);
            var a := MessageHandler(first, announced.outbox[|announced.outbox| - 1].payload, masterAddress);
            var b := MessageHandler(second, announced.outbox[|announced.outbox| - 1].payload, masterAddress);
            var a2 := MessageHandler(a, asked.outbox[|asked.outbox| - 1].payload, masterAddress);
            var toSecond := a2.outbox[|a2.outbox| - 1];
            && toSecond.Unicast? && toSecond.destination == secondAddress
            && var b2 := MessageHandler(b, toSecond.payload, firstAddress);
               && b2.outbox[|b2.outbox| - 1].Unicast?
               && b2.outbox[|b2.outbox| - 1].destination == masterAddress
               && DecodeResult(b2.outbox[|b2.outbox| - 1].payload) == ResultMessage(TypeCode(SynchronizationResult), CLOCK_DELTA)
  {
    var announced := BroadcastMaster(master);
    var asked := GetClockDelta(announced, firstAddress, secondAddress);
    var a := MessageHandler(first, [0], masterAddress);
    var b := MessageHandler(second, [0], masterAddress);
    assert a.masterAddress == masterAddress && b.masterAddress == masterAddress;
    var request := EncodeAddress(AddressMessage(TypeCode(SetupSynchronization), secondAddress));
    assert asked.outbox[|asked.outbox| - 1].payload == request;
    SetupForwardsToSecond(a, secondAddress, masterAddress);
    var b2 := MessageHandler(b, [2], firstAddress);
    var result := ResultMessage(TypeCode(SynchronizationResult), CLOCK_DELTA);
    assert b2.outbox[|b2.outbox| - 1] == Unicast(EncodeResult(result), masterAddress);
    ResultRoundTrip(result, []);
    assert EncodeResult(result) + [] == EncodeResult(result);
  }
}
