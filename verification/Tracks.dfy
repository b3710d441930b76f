/**
 What the library knows about the track (src/state/bidib_state_intern.h): boards
 with their node addresses, segments with the decoder addresses seen on them,
 and trains with their decoder functions; and the searches every update rests on.
 */
module Tracks {
  import opened Bytes

  datatype NodeAddress = NodeAddress(top: byte, sub: byte, subsub: byte)

  datatype UniqueId = UniqueId(classId: byte, classIdExt: byte, vendorId: byte, productId: seq<byte>)

  datatype SegmentMapping = SegmentMapping(id: string, number: byte)

  datatype Board = Board(
    id: string, uniqueId: UniqueId, connected: bool, nodeAddr: NodeAddress, segments: seq<SegmentMapping>)

  /** A decoder address as reported: kind 0 is a locomotive heading left, 2 one heading right. */
  datatype DccAddress = DccAddress(addrl: byte, addrh: byte, kind: byte)

  /** The readings stand for the confidence and current values, 0 for what a reset leaves. */
  datatype Segment = Segment(id: string, occupied: bool, readings: int, dccAddresses: seq<DccAddress>)

  datatype PeripheralMapping = PeripheralMapping(id: string, bit: byte)

  datatype Train = Train(id: string, addrl: byte, addrh: byte, speedSteps: byte, peripherals: seq<PeripheralMapping>)

  datatype Orientation = Left | Right

  datatype PeripheralState = PeripheralState(id: string, state: bv8)

  datatype TrainState = TrainState(
    id: string, onTrack: bool, orientation: Orientation, speedStep: int, isForwards: bool,
    ackPending: bool, peripherals: seq<PeripheralState>)

  // ---------------------------------------------------------------- searches

  /** Index of the first element that p accepts; the length if there is none. */
  function First<T>(s: seq<T>, p: T -> bool): (i: nat)
    ensures i <= |s| && (i < |s| ==> p(s[i]))
    ensures forall j :: 0 <= j < i ==> !p(s[j])
    decreases |s|
  {
    if s == [] || p(s[0]) then 0 else 1 + First(s[1..], p)
  }

  /** A linear search, as the library runs it. */
  method Search<T>(s: seq<T>, p: T -> bool) returns (i: nat)
    ensures i == First(s, p)
  {
    i := 0;
    while i < |s|
      invariant 0 <= i <= |s|
      invariant forall j :: 0 <= j < i ==> !p(s[j])
    {
      if p(s[i]) {
        return;
      }
      i := i + 1;
    }
  }

  function BoardAt(boards: seq<Board>, addr: NodeAddress): (i: nat)
    ensures i <= |boards|
  {
    First(boards, (b: Board) => b.connected && b.nodeAddr == addr)
  }

  function BoardWith(boards: seq<Board>, uid: UniqueId): (i: nat)
    ensures i <= |boards|
  {
    First(boards, (b: Board) => b.uniqueId == uid)
  }

  function BoardNamed(boards: seq<Board>, id: string): (i: nat)
    ensures i <= |boards|
  {
    First(boards, (b: Board) => b.id == id)
  }

  function MappingOf(ms: seq<SegmentMapping>, number: byte): (i: nat)
    ensures i <= |ms|
  {
    First(ms, (m: SegmentMapping) => m.number == number)
  }

  function SegmentNamed(segments: seq<Segment>, id: string): (i: nat)
    ensures i <= |segments|
  {
    First(segments, (s: Segment) => s.id == id)
  }

  function TrainNamed(trains: seq<Train>, id: string): (i: nat)
    ensures i <= |trains|
  {
    First(trains, (t: Train) => t.id == id)
  }

  function StateNamed(states: seq<TrainState>, id: string): (i: nat)
    ensures i <= |states|
  {
    First(states, (t: TrainState) => t.id == id)
  }

  /** The segment a number of a connected board stands for; the number of segments if there is none. */
  function SegmentAt(boards: seq<Board>, segments: seq<Segment>, addr: NodeAddress, number: byte): (i: nat)
    ensures i <= |segments|
  {
    var b := BoardAt(boards, addr);
    if b == |boards| then |segments|
    else
      var m := MappingOf(boards[b].segments, number);
      if m == |boards[b].segments| then |segments| else SegmentNamed(segments, boards[b].segments[m].id)
  }

  /** Bit k of a byte. */
  predicate BitSet(b: byte, k: nat)
    requires k < 8
  {
    b / PowerOfTwo(k) % 2 == 1
  }

  function PowerOfTwo(k: nat): (p: int)
    ensures p > 0
  {
    if k == 0 then 1 else 2 * PowerOfTwo(k - 1)
  }
}
