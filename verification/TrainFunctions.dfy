/**
 Train functions (src/highlevel/bidib_highlevel_setter.c,
 src/lowlevel/bidib_lowlevel_track.c, src/state/bidib_state_setter.c): setting
 one decoder function gathers the other functions of its group into bits, puts
 the new one in, sends all of them, and unpacks them into the train's state.
 */
module TrainFunctions {
  import opened Bytes
  import opened Tracks

  /** The parameters of a drive message. */
  datatype Drive = Drive(addrl: byte, addrh: byte, format: byte, active: bv8, speed: byte, functions: seq<bv8>)

  /** Drive messages sent carry the node address of the track output. */
  datatype Sent = Sent(addr: NodeAddress, drive: Drive)

  datatype Control = Control(boards: seq<Board>, trains: seq<Train>, states: seq<TrainState>, sent: seq<Sent>)

  // --------------------------------------------------------------- bit by bit

  function Shifted(x: bv8, k: nat): bv8
    requires k < 8
  {
    match k
    case 0 => x
    case 1 => x << 1
    case 2 => x << 2
    case 3 => x << 3
    case 4 => x << 4
    case 5 => x << 5
    case 6 => x << 6
    case _ => x << 7
  }

  /** Bit k, as 0 or 1. */
  function Bit(x: bv8, k: nat): (b: bv8)
    requires k < 8
    ensures b == 0 || b == 1
  {
    match k
    case 0 => x & 1
    case 1 => (x >> 1) & 1
    case 2 => (x >> 2) & 1
    case 3 => (x >> 3) & 1
    case 4 => (x >> 4) & 1
    case 5 => (x >> 5) & 1
    case 6 => (x >> 6) & 1
    case _ => (x >> 7) & 1
  }

  /** The bits with bit k cleared and a value or-ed in there. */
  function With(x: bv8, k: nat, value: bv8): bv8
    requires k < 8
  {
    (x & !Shifted(1, k)) | Shifted(value, k)
  }

  lemma OrBit(x: bv8, k: nat, value: bv8, j: nat)
    requires k < 8 && j < 8 && (value == 0 || value == 1)
    ensures Bit(x | Shifted(value, k), j) == if j == k then Bit(x, k) | value else Bit(x, j)
  {
    match k {
      case 0 => case 1 => case 2 => case 3 => case 4 => case 5 => case 6 => case _ =>
    }
  }

  lemma BitOfOr(x: bv8, y: bv8, j: nat)
    requires j < 8
    ensures Bit(x | y, j) == Bit(x, j) | Bit(y, j)
  {
    match j {
      case 0 => case 1 => case 2 => case 3 => case 4 => case 5 => case 6 => case _ =>
    }
  }

  lemma BitCleared(x: bv8, k: nat, j: nat)
    requires k < 8 && j < 8
    ensures Bit(x & !Shifted(1, k), j) == if j == k then 0 else Bit(x, j)
  {
    match k {
      case 0 => case 1 => case 2 => case 3 => case 4 => case 5 => case 6 => case _ =>
    }
  }

  lemma BitAtShift(value: bv8, k: nat)
    requires k < 8
    ensures Bit(Shifted(value, k), k) == value & 1
  {}

  lemma WithBit(x: bv8, k: nat, value: bv8, j: nat)
    requires k < 8 && j < 8
    ensures Bit(With(x, k, value), j) == if j == k then value & 1 else Bit(x, j) | Bit(Shifted(value, k), j)
  {
    hide Bit;
    hide Shifted;
    BitOfOr(x & !Shifted(1, k), Shifted(value, k), j);
    BitCleared(x, k, j);
    BitAtShift(value, k);
    OrZero(value & 1);
  }

  // -------------------------------------------------------------- the searches

  function MappingWithBit(ms: seq<PeripheralMapping>, bit: byte): (i: nat)
    ensures i <= |ms|
  {
    First(ms, (m: PeripheralMapping) => m.bit == bit)
  }

  function MappingNamed(ms: seq<PeripheralMapping>, id: string): (i: nat)
    ensures i <= |ms|
  {
    First(ms, (m: PeripheralMapping) => m.id == id)
  }

  function PeripheralNamed(ps: seq<PeripheralState>, id: string): (i: nat)
    ensures i <= |ps|
  {
    First(ps, (p: PeripheralState) => p.id == id)
  }

  /** The state of the function at a bit, through the mappings of the train; the number of states if there is none. */
  function PeripheralAt(trains: seq<Train>, st: TrainState, bit: byte): (i: nat)
    ensures i <= |st.peripherals|
  {
    var c := TrainNamed(trains, st.id);
    if c == |trains| then |st.peripherals|
    else
      var m := MappingWithBit(trains[c].peripherals, bit);
      if m == |trains[c].peripherals| then |st.peripherals|
        else PeripheralNamed(st.peripherals, trains[c].peripherals[m].id)
  }

  /** The state of the train with a decoder address, orientation bits ignored. */
  function StateWithAddress(trains: seq<Train>, states: seq<TrainState>, addrl: byte, addrh: byte): (i: nat)
    ensures i <= |states|
  {
    var c := First(trains, (t: Train) => addrl == t.addrl && addrh % 64 == t.addrh);
    if c == |trains| then |states| else StateNamed(states, trains[c].id)
  }

  // ------------------------------------------------------- unpacking a message

  /** The functions at bits lo up to hi, taken out of the function bytes. */
  function Unpacked(trains: seq<Train>, st: TrainState, lo: nat, hi: nat, functions: seq<bv8>): (r: TrainState)
    requires hi <= 32 && |functions| == 4
    ensures r == st.(peripherals := r.peripherals) && |r.peripherals| == |st.peripherals|
    ensures forall i :: 0 <= i < |st.peripherals| ==> r.peripherals[i].id == st.peripherals[i].id
    decreases hi
  {
    if hi <= lo then st
    else
      var r := Unpacked(trains, st, lo, hi - 1, functions);
      var i := PeripheralAt(trains, r, hi - 1);
      if i == |r.peripherals| then r
      else r.(peripherals := r.peripherals[i := r.peripherals[i].(state := Bit(functions[(hi - 1) / 8], (hi - 1) % 8))])
  }

  predicate IsActive(d: Drive, group: nat)
    requires group < 8
  {
    Bit(d.active, group) == 1
  }

  function GroupUnpacked(trains: seq<Train>, st: TrainState, d: Drive, group: nat, lo: nat, hi: nat): TrainState
    requires group < 8 && hi <= 32 && |d.functions| == 4
  {
    if IsActive(d, group) then Unpacked(trains, st, lo, hi, d.functions) else st
  }

  function SpeedStep(speed: byte): int {
    if speed % 128 <= 1 then 0 else if speed < 128 then 1 - speed % 128 else speed % 128 - 1
  }

  function Halted(st: TrainState): TrainState {
    st.(speedStep := 0, isForwards := true,
        peripherals := seq(|st.peripherals|, i requires 0 <= i < |st.peripherals| => st.peripherals[i].(state := 0)))
  }

  function DriveState(trains: seq<Train>, st: TrainState, d: Drive): TrainState
    requires |d.functions| == 4
  {
    if d.active == 0 then Halted(st)
    else
      var moved := if IsActive(d, 0) then st.(speedStep := SpeedStep(d.speed), isForwards := d.speed >= 128) else st;
      var s0 := moved.(ackPending := true);
      var s1 := GroupUnpacked(trains, s0, d, 1, 0, 5);
      var s2 := GroupUnpacked(trains, s1, d, 2, 8, 12);
      var s3 := GroupUnpacked(trains, s2, d, 3, 12, 16);
      var s4 := GroupUnpacked(trains, s3, d, 4, 16, 24);
      GroupUnpacked(trains, s4, d, 5, 24, 32)
  }

  function Driven(trains: seq<Train>, states: seq<TrainState>, d: Drive): seq<TrainState>
    requires |d.functions| == 4
  {
    var i := StateWithAddress(trains, states, d.addrl, d.addrh);
    if i == |states| then states else states[i := DriveState(trains, states[i], d)]
  }

  predicate Acceptable(d: Drive)
    requires |d.functions| == 4
  {
    d.format != 1 && d.format <= 3 && d.active <= 63 && d.functions[0] <= 31
  }

  /** Sending a drive message: parameters out of range send nothing and change nothing. */
  function DriveSent(l: Control, addr: NodeAddress, d: Drive): (r: Control)
    requires |d.functions| == 4
    ensures |r.states| == |l.states|
  {
    if Acceptable(d) then l.(sent := l.sent + [Sent(addr, d)], states := Driven(l.trains, l.states, d)) else l
  }

  // ------------------------------------------------------ setting one function

  /** The states of the functions at bits start to end, among the first n mappings, or-ed together. */
  function Gathered(l: Control, t: Train, n: nat, start: byte, end: byte): bv8
    requires n <= |t.peripherals|
  {
    if n == 0 then 0
    else
      var bits := Gathered(l, t, n - 1, start, end);
      var bit := t.peripherals[n - 1].bit;
      if start <= bit <= end then
        var st := StateNamed(l.states, t.id);
        if st == |l.states| then bits
        else
          var i := PeripheralAt(l.trains, l.states[st], bit);
          if i == |l.states[st].peripherals| then bits else bits | Shifted(l.states[st].peripherals[i].state, bit % 8)
      else bits
  }

  /** First and last bit gathered, the byte they go to, and the group flag; bits 5 to 7 fall into the second group. */
  datatype Group = Group(start: byte, end: byte, index: nat, active: bv8)

  function GroupOf(bit: byte): (g: Group)
    ensures g.index < 4
  {
    if bit < 5 then Group(0, 4, 0, 2)
    else if bit < 12 then Group(8, 11, 1, 4)
    else if bit < 16 then Group(12, 15, 1, 8)
    else if bit < 24 then Group(16, 23, 2, 16)
    else Group(24, 31, 3, 32)
  }

  function FormatOf(speedSteps: byte): byte {
    if speedSteps == 28 then 2 else if speedSteps == 126 then 3 else 0
  }

  /** The current states of the function's group, in their byte. */
  function GroupBytes(l: Control, t: Train, bit: byte): (functions: seq<bv8>)
    ensures |functions| == 4
  {
    var g := GroupOf(bit);
    [0, 0, 0, 0][g.index := Gathered(l, t, |t.peripherals|, g.start, g.end)]
  }

  function BitPut(functions: seq<bv8>, bit: byte, state: bv8): (r: seq<bv8>)
    requires |functions| == 4 && bit < 32
    ensures |r| == 4
  {
    functions[bit / 8 := With(functions[bit / 8], bit % 8, state)]
  }

  /** The drive message for setting one function. */
  function DriveFor(l: Control, t: Train, bit: byte, state: bv8): (d: Drive)
    requires bit < 32
    ensures |d.functions| == 4
  {
    Drive(t.addrl, t.addrh, FormatOf(t.speedSteps), GroupOf(bit).active, 0, BitPut(GroupBytes(l, t, bit), bit, state))
  }

  predicate IsTrackOutput(boards: seq<Board>, id: string) {
    var b := BoardNamed(boards, id);
    b < |boards| && boards[b].connected && BitSet(boards[b].uniqueId.classId, 4)
  }

  ghost predicate BitsInRange(trains: seq<Train>) {
    forall c, i :: 0 <= c < |trains| && 0 <= i < |trains[c].peripherals| ==> trains[c].peripherals[i].bit < 32
  }

  function AfterSet(l: Control, train: string, peripheral: string, state: bv8, output: string): (r: (int, Control))
    requires BitsInRange(l.trains)
    ensures |r.1.states| == |l.states|
  {
    var c := TrainNamed(l.trains, train);
    if c == |l.trains| || !IsTrackOutput(l.boards, output) then (1, l)
    else
      var t := l.trains[c];
      var m := MappingNamed(t.peripherals, peripheral);
      if m == |t.peripherals| then (1, l)
      else
        var addr := l.boards[BoardNamed(l.boards, output)].nodeAddr;
        (0, DriveSent(l, addr, DriveFor(l, t, t.peripherals[m].bit, state)))
  }

  // ------------------------------------------------------------ setting a speed

  /** The speed code sent: bit 7 is the direction, and codes above 0 leave out 1, the emergency stop. */
  function SpeedCode(speed: int, forwards: bool): byte
    requires -126 <= speed <= 126
  {
    var size := if speed < 0 then -speed else speed;
    (if forwards then 128 else 0) + size + if size != 0 then 1 else 0
  }

  function SpeedDrive(t: Train, speed: int, forwards: bool): (d: Drive)
    requires -126 <= speed <= 126
    ensures |d.functions| == 4
  {
    Drive(t.addrl, t.addrh, FormatOf(t.speedSteps), 1, SpeedCode(speed, forwards), [0, 0, 0, 0])
  }

  ghost predicate EveryTrainHasState(trains: seq<Train>, states: seq<TrainState>) {
    forall c :: 0 <= c < |trains| ==> StateNamed(states, trains[c].id) < |states|
  }

  /** Speed 0 keeps the direction the train has, so that its lights stay. */
  function AfterSpeed(l: Control, train: string, speed: int, output: string): (int, Control)
    requires EveryTrainHasState(l.trains, l.states)
  {
    var c := TrainNamed(l.trains, train);
    if speed < -126 || speed > 126 || c == |l.trains| || !IsTrackOutput(l.boards, output) then (1, l)
    else
      var forwards := if speed == 0 then l.states[StateNamed(l.states, train)].isForwards else speed > 0;
      (0, DriveSent(l, l.boards[BoardNamed(l.boards, output)].nodeAddr, SpeedDrive(l.trains[c], speed, forwards)))
  }

  // -------------------------------------------------------- in place, step by step

  class TrainControl {
    var boards: seq<Board>
    var trains: seq<Train>
    var states: seq<TrainState>
    var sent: seq<Sent>

    ghost function Value(): Control
      reads this
    {
      Control(boards, trains, states, sent)
    }

    constructor (l: Control)
      ensures Value() == l
    {
      boards, trains, states, sent := l.boards, l.trains, l.states, l.sent;
    }

    method GetTrainPeripheralStateByBit(st: TrainState, bit: byte) returns (i: nat)
      ensures i == PeripheralAt(trains, st, bit)
    {
      i := |st.peripherals|;
      var c := Search(trains, (t: Train) => t.id == st.id);
      if c < |trains| {
        var mappings := trains[c].peripherals;
        var m := Search(mappings, (m: PeripheralMapping) => m.bit == bit);
        if m < |mappings| {
          var id := mappings[m].id;
          i := Search(st.peripherals, (p: PeripheralState) => p.id == id);
        }
      }
    }

    method GetTrainStateByDccAddr(addrl: byte, addrh: byte) returns (i: nat)
      ensures i == StateWithAddress(trains, states, addrl, addrh)
    {
      i := |states|;
      var c := Search(trains, (t: Train) => addrl == t.addrl && addrh % 64 == t.addrh);
      if c < |trains| {
        var id := trains[c].id;
        i := Search(states, (st: TrainState) => st.id == id);
      }
    }

    /** Or-es the current states of one group of functions into a byte that starts at 0. */
    method GetCurrentTrainPeripheralBits(t: Train, start: byte, end: byte) returns (bits: bv8)
      ensures bits == Gathered(Value(), t, |t.peripherals|, start, end)
    {
      bits := 0;
      var st := Search(states, (st: TrainState) => st.id == t.id);
      for i := 0 to |t.peripherals|
        invariant bits == Gathered(Value(), t, i, start, end)
      {
        var bit := t.peripherals[i].bit;
        if start <= bit <= end && st < |states| {
          var k := GetTrainPeripheralStateByBit(states[st], bit);
          if k < |states[st].peripherals| {
            bits := bits | Shifted(states[st].peripherals[k].state, bit % 8);
          }
        }
      }
    }

    /** One of the loops that copy function bits into a train state, run when its group is active. */
    method UnpackGroup(st: TrainState, d: Drive, group: nat, lo: nat, hi: nat) returns (r: TrainState)
      requires group < 8 && lo <= hi <= 32 && |d.functions| == 4
      ensures r == GroupUnpacked(trains, st, d, group, lo, hi)
    {
      hide PeripheralAt;
      hide Bit;
      r := st;
      if Bit(d.active, group) == 1 {
        for i := lo to hi
          invariant r == Unpacked(trains, st, lo, i, d.functions)
        {
          var p := GetTrainPeripheralStateByBit(r, i);
          if p < |r.peripherals| {
            r := r.(peripherals := r.peripherals[p := r.peripherals[p].(state := Bit(d.functions[i / 8], i % 8))]);
          }
        }
      }
    }

    method Halt(st: TrainState) returns (r: TrainState)
      ensures r == Halted(st)
    {
      r := st.(speedStep := 0, isForwards := true);
      for i := 0 to |r.peripherals|
        invariant r == Halted(st).(peripherals := r.peripherals) && |r.peripherals| == |st.peripherals|
        invariant forall j :: 0 <= j < i ==> r.peripherals[j] == Halted(st).peripherals[j]
        invariant forall j :: i <= j < |r.peripherals| ==> r.peripherals[j] == st.peripherals[j]
      {
        r := r.(peripherals := r.peripherals[i := r.peripherals[i].(state := 0)]);
      }
      assert r.peripherals == Halted(st).peripherals;
    }

    method StateCsDrive(d: Drive)
      requires |d.functions| == 4
      modifies this`states
      ensures states == Driven(trains, old(states), d)
    {
      hide GroupUnpacked;
      hide StateWithAddress;
      hide Bit;
      hide Halted;
      var k := GetTrainStateByDccAddr(d.addrl, d.addrh);
      if k < |states| {
        var st := states[k];
        if d.active == 0 {
          st := Halt(st);
        } else {
          if Bit(d.active, 0) == 1 {
            st := st.(speedStep := SpeedStep(d.speed), isForwards := d.speed >= 128);
          }
          st := st.(ackPending := true);
          st := UnpackGroup(st, d, 1, 0, 5);
          st := UnpackGroup(st, d, 2, 8, 12);
          st := UnpackGroup(st, d, 3, 12, 16);
          st := UnpackGroup(st, d, 4, 16, 24);
          st := UnpackGroup(st, d, 5, 24, 32);
        }
        states := states[k := st];
      }
    }

    method SendCsDriveIntern(addr: NodeAddress, d: Drive)
      requires |d.functions| == 4
      modifies this`states, this`sent
      ensures Value() == DriveSent(old(Value()), addr, d)
    {
      if d.format == 1 || d.format > 3 {
        return;
      } else if d.active > 63 {
        return;
      } else if d.functions[0] > 31 {
        return;
      }
      sent := sent + [Sent(addr, d)];
      StateCsDrive(d);
    }

    /** The group flag, and the function bytes with the current states of the group. */
    method GatherGroup(t: Train, bit: byte) returns (active: bv8, functionBits: seq<bv8>)
      ensures active == GroupOf(bit).active && functionBits == GroupBytes(Value(), t, bit)
    {
      hide Gathered;
      functionBits := [0, 0, 0, 0];
      var gathered;
      if bit < 5 {
        active := 2;
        gathered := GetCurrentTrainPeripheralBits(t, 0, 4);
        functionBits := functionBits[0 := gathered];
      } else if bit < 12 {
        active := 4;
        gathered := GetCurrentTrainPeripheralBits(t, 8, 11);
        functionBits := functionBits[1 := gathered];
      } else if bit < 16 {
        active := 8;
        gathered := GetCurrentTrainPeripheralBits(t, 12, 15);
        functionBits := functionBits[1 := gathered];
      } else if bit < 24 {
        active := 16;
        gathered := GetCurrentTrainPeripheralBits(t, 16, 23);
        functionBits := functionBits[2 := gathered];
      } else {
        active := 32;
        gathered := GetCurrentTrainPeripheralBits(t, 24, 31);
        functionBits := functionBits[3 := gathered];
      }
    }

    /** Clears the bit of the function and or-es the new state in. */
    method PutBit(functionBits: seq<bv8>, bit: byte, state: bv8) returns (r: seq<bv8>)
      requires |functionBits| == 4 && bit < 32
      ensures r == BitPut(functionBits, bit, state)
    {
      hide Shifted;
      var bits := functionBits[bit / 8];
      bits := bits & !Shifted(1, bit % 8);
      bits := bits | Shifted(state, bit % 8);
      r := functionBits[bit / 8 := bits];
    }

    /** The message for one function: format, group flag and function bytes. */
    method DriveParameters(t: Train, bit: byte, state: bv8) returns (d: Drive)
      requires bit < 32
      ensures d == DriveFor(Value(), t, bit, state)
    {
      hide GroupBytes;
      hide GroupOf;
      hide BitPut;
      var format := if t.speedSteps == 28 then 2 else if t.speedSteps == 126 then 3 else 0;
      var active, functionBits := GatherGroup(t, bit);
      functionBits := PutBit(functionBits, bit, state);
      d := Drive(t.addrl, t.addrh, format, active, 0, functionBits);
    }

    method SetTrainSpeed(train: string, speed: int, output: string) returns (error: int)
      requires EveryTrainHasState(trains, states)
      modifies this`states, this`sent
      ensures (error, Value()) == AfterSpeed(old(Value()), train, speed, output)
    {
      hide DriveSent;
      hide BitSet;
      if speed < -126 || speed > 126 {
        return 1;
      }
      var c := Search(trains, (t: Train) => t.id == train);
      var b := Search(boards, (b: Board) => b.id == output);
      if c == |trains| || b == |boards| || !boards[b].connected || !BitSet(boards[b].uniqueId.classId, 4) {
        return 1;
      }
      var t := trains[c];
      var isForwards := speed > 0;
      if speed == 0 {
        var s := Search(states, (st: TrainState) => st.id == train);
        isForwards := states[s].isForwards;
      }
      var size := if speed < 0 then -speed else speed;
      var code := (if isForwards then 128 else 0) + size;
      if size != 0 {
        code := code + 1;
      }
      var format := if t.speedSteps == 28 then 2 else if t.speedSteps == 126 then 3 else 0;
      SendCsDriveIntern(boards[b].nodeAddr, Drive(t.addrl, t.addrh, format, 1, code, [0, 0, 0, 0]));
      return 0;
    }

    method SetTrainPeripheral(train: string, peripheral: string, state: bv8, output: string) returns (error: int)
      requires BitsInRange(trains)
      modifies this`states, this`sent
      ensures (error, Value()) == AfterSet(old(Value()), train, peripheral, state, output)
    {
      hide DriveSent;
      hide DriveFor;
      hide BitSet;
      var c := Search(trains, (t: Train) => t.id == train);
      var b := Search(boards, (b: Board) => b.id == output);
      if c == |trains| || b == |boards| || !boards[b].connected || !BitSet(boards[b].uniqueId.classId, 4) {
        return 1;
      }
      var t := trains[c];
      for i := 0 to |t.peripherals|
        invariant Value() == old(Value())
        invariant forall j :: 0 <= j < i ==> t.peripherals[j].id != peripheral
      {
        if t.peripherals[i].id == peripheral {
          assert MappingNamed(t.peripherals, peripheral) == i;
          var d := DriveParameters(t, t.peripherals[i].bit, state);
          SendCsDriveIntern(boards[b].nodeAddr, d);
          return 0;
        }
      }
      assert MappingNamed(t.peripherals, peripheral) == |t.peripherals|;
      return 1;
    }
  }

  // ------------------------------------------------------ what a configuration is

  /** The functions of a train: ids and bits are unique, and the states follow the mappings. */
  ghost predicate TrainOk(t: Train, st: TrainState) {
    && st.id == t.id && |st.peripherals| == |t.peripherals|
    && (forall i :: 0 <= i < |t.peripherals| ==>
          st.peripherals[i].id == t.peripherals[i].id && t.peripherals[i].bit < 32)
    && (forall i, j :: 0 <= i < j < |t.peripherals| ==>
          t.peripherals[i].id != t.peripherals[j].id && t.peripherals[i].bit != t.peripherals[j].bit)
  }

  /** Functions are on or off. */
  ghost predicate OnOrOff(st: TrainState) {
    forall i :: 0 <= i < |st.peripherals| ==> st.peripherals[i].state == 0 || st.peripherals[i].state == 1
  }

  /** Ids and addresses of trains are unique. */
  ghost predicate Unique(trains: seq<Train>) {
    forall c, e :: 0 <= c < e < |trains| ==>
      trains[c].id != trains[e].id && (trains[c].addrl != trains[e].addrl || trains[c].addrh != trains[e].addrh)
  }

  /** What the configuration parser guarantees, and what every drive message keeps. */
  ghost predicate Configured(trains: seq<Train>, states: seq<TrainState>) {
    && |states| == |trains| && Unique(trains)
    && forall c :: 0 <= c < |trains| ==> TrainOk(trains[c], states[c]) && OnOrOff(states[c])
  }

  lemma FoundByIndex(trains: seq<Train>, states: seq<TrainState>, c: nat)
    requires Configured(trains, states) && c < |trains|
    ensures TrainNamed(trains, trains[c].id) == c && StateNamed(states, trains[c].id) == c
    ensures trains[c].addrh < 64 ==> StateWithAddress(trains, states, trains[c].addrl, trains[c].addrh) == c
  {
    hide OnOrOff;
    assert states[c].id == trains[c].id;
    var s := StateNamed(states, trains[c].id);
    assert states[s].id == trains[s].id;
  }

  /** The search through the mappings finds the function whose mapping has the bit. */
  lemma PeripheralAtIs(trains: seq<Train>, c: nat, st: TrainState, bit: byte)
    requires Unique(trains) && c < |trains| && TrainOk(trains[c], st)
    ensures var ms, p := trains[c].peripherals, PeripheralAt(trains, st, bit);
      && (p < |ms| ==> ms[p].bit == bit)
      && forall i :: 0 <= i < |ms| && ms[i].bit == bit ==> p == i
  {
    var ms := trains[c].peripherals;
    assert TrainNamed(trains, st.id) == c;
    var m := MappingWithBit(ms, bit);
    if m < |ms| {
      assert st.peripherals[m].id == ms[m].id;
      var p := PeripheralNamed(st.peripherals, ms[m].id);
      assert st.peripherals[p].id == ms[p].id;
      assert p == m;
    }
  }

  lemma UnpackedOk(trains: seq<Train>, t: Train, st: TrainState, lo: nat, hi: nat, functions: seq<bv8>)
    requires TrainOk(t, st) && hi <= 32 && |functions| == 4
    ensures TrainOk(t, Unpacked(trains, st, lo, hi, functions))
  {
    hide Unpacked;
  }

  /** Unpacking sets exactly the functions whose bits lie in the range, each to its bit. */
  lemma {:induction false} UnpackedExactly(trains: seq<Train>, c: nat, st: TrainState, lo: nat, hi: nat,
                                           functions: seq<bv8>, i: nat)
    requires Unique(trains) && c < |trains| && TrainOk(trains[c], st) && hi <= 32 && |functions| == 4
      && i < |st.peripherals|
    ensures var bit := trains[c].peripherals[i].bit;
      Unpacked(trains, st, lo, hi, functions).peripherals[i].state ==
      if lo <= bit < hi then Bit(functions[bit / 8], bit % 8) else st.peripherals[i].state
  {
    hide PeripheralAt;
    hide Bit;
    hide Unique;
    hide TrainOk;
    if lo < hi {
      UnpackedExactly(trains, c, st, lo, hi - 1, functions, i);
      UnpackedOk(trains, trains[c], st, lo, hi - 1, functions);
      var r := Unpacked(trains, st, lo, hi - 1, functions);
      SameLength(trains[c], r);
      PeripheralAtIs(trains, c, r, hi - 1);
    }
  }

  lemma GatheredNext(l: Control, c: nat, n: nat, start: byte, end: byte)
    requires Configured(l.trains, l.states) && c < |l.trains| && n < |l.trains[c].peripherals|
    ensures var t := l.trains[c];
      var bits := Gathered(l, t, n, start, end);
      Gathered(l, t, n + 1, start, end) ==
      if start <= t.peripherals[n].bit <= end then
        bits | Shifted(l.states[c].peripherals[n].state, t.peripherals[n].bit % 8)
      else bits
  {
    hide Shifted;
    hide PeripheralAt;
    hide StateNamed;
    hide Unique;
    FoundByIndex(l.trains, l.states, c);
    PeripheralAtIs(l.trains, c, l.states[c], l.trains[c].peripherals[n].bit);
  }

  /** Once gathered, the bit of a function is its state; before, it is 0. */
  lemma {:induction false} GatheredBit(l: Control, c: nat, n: nat, start: byte, end: byte, i: nat)
    requires Configured(l.trains, l.states) && c < |l.trains| && n <= |l.trains[c].peripherals| && start / 8 == end / 8
    requires i < |l.trains[c].peripherals| && start <= l.trains[c].peripherals[i].bit <= end
    ensures Bit(Gathered(l, l.trains[c], n, start, end), l.trains[c].peripherals[i].bit % 8)
      == if i < n then l.states[c].peripherals[i].state else 0
  {
    hide Bit;
    hide Shifted;
    hide Gathered;
    hide Unique;
    var t := l.trains[c];
    var k := t.peripherals[i].bit % 8;
    if n == 0 {
      NothingGathered(l, t, start, end);
      NoBits(k);
    } else {
      var bits, value := Gathered(l, t, n - 1, start, end), l.states[c].peripherals[n - 1].state;
      GatheredBit(l, c, n - 1, start, end, i);
      GatheredNext(l, c, n - 1, start, end);
      OrBit(bits, t.peripherals[n - 1].bit % 8, value, k);
      OrZero(value);
      if n - 1 != i && start <= t.peripherals[n - 1].bit <= end {
        assert t.peripherals[n - 1].bit != t.peripherals[i].bit;
        OtherPlace(t.peripherals[n - 1].bit, t.peripherals[i].bit, start, end);
      }
    }
  }

  lemma OtherPlace(a: byte, b: byte, start: byte, end: byte)
    requires start / 8 == end / 8 && start <= a <= end && start <= b <= end && a != b
    ensures a % 8 != b % 8
  {}

  lemma NothingGathered(l: Control, t: Train, start: byte, end: byte)
    ensures Gathered(l, t, 0, start, end) == 0
  {}

  /** The first group leaves the upper three bits of its byte 0. */
  lemma {:induction false} FirstGroupIsSmall(l: Control, c: nat, n: nat, k: nat)
    requires Configured(l.trains, l.states) && c < |l.trains| && n <= |l.trains[c].peripherals| && 5 <= k < 8
    ensures Bit(Gathered(l, l.trains[c], n, 0, 4), k) == 0
  {
    hide Bit;
    hide Shifted;
    hide Gathered;
    hide Unique;
    if n == 0 {
      NothingGathered(l, l.trains[c], 0, 4);
      NoBits(k);
    } else {
      FirstGroupIsSmall(l, c, n - 1, k);
      GatheredNext(l, c, n - 1, 0, 4);
      OrBit(Gathered(l, l.trains[c], n - 1, 0, 4), l.trains[c].peripherals[n - 1].bit % 8,
            l.states[c].peripherals[n - 1].state, k);
    }
  }

  lemma NoBits(k: nat)
    requires k < 8
    ensures Bit(0, k) == 0
  {}

  lemma OrZero(x: bv8)
    ensures 0 | x == x
  {}

  lemma SmallByte(x: bv8)
    ensures x <= 31 <==> Bit(x, 5) == 0 && Bit(x, 6) == 0 && Bit(x, 7) == 0
  {}

  // ------------------------------------------------------------- main results

  /** A message with one group flag unpacks that group and nothing else. */
  lemma OneGroup(trains: seq<Train>, st: TrainState, d: Drive, bit: byte)
    requires |d.functions| == 4 && bit < 32 && d.active == GroupOf(bit).active
    ensures DriveState(trains, st, d) ==
      Unpacked(trains, st.(ackPending := true), GroupOf(bit).start, GroupOf(bit).end + 1, d.functions)
  {
    hide Unpacked;
  }

  /** Bits 5, 6 and 7 belong to no group that reaches them. */
  predicate Unreached(bit: byte) {
    5 <= bit <= 7
  }

  /** What a state or-ed in at one bit adds at the bit of another function; a state of 0 or 1 adds nothing. */
  function Spill(t: Train, p: nat, state: bv8, i: nat): (b: bv8)
    requires p < |t.peripherals| && i < |t.peripherals|
    ensures b == 0 || b == 1
  {
    Bit(Shifted(state, t.peripherals[p].bit % 8), t.peripherals[i].bit % 8)
  }

  lemma SmallStatesStay(k: nat, state: bv8, j: nat)
    requires k < 8 && j < 8 && j != k && state <= 1
    ensures Bit(Shifted(state, k), j) == 0
  {}

  /** The function lies in the group of function p. */
  predicate InGroup(t: Train, p: nat, i: nat)
    requires p < |t.peripherals| && i < |t.peripherals|
  {
    GroupOf(t.peripherals[p].bit).start <= t.peripherals[i].bit <= GroupOf(t.peripherals[p].bit).end
  }

  /**
   The bit meant for function i once function p is set: its old state, with the new one or
   what spills from it put in.
   */
  function Meant(t: Train, st: TrainState, p: nat, state: bv8, i: nat): bv8
    requires p < |t.peripherals| && i < |t.peripherals| && |st.peripherals| == |t.peripherals|
  {
    if Unreached(t.peripherals[p].bit) || !InGroup(t, p, i) then st.peripherals[i].state
    else if i == p then state & 1
    else st.peripherals[i].state | Spill(t, p, state, i)
  }

  /** The byte sent for a bit of the group: what was gathered, with the new state put in if the group reaches it. */
  lemma ByteSent(l: Control, t: Train, bit: byte, state: bv8, other: byte)
    requires bit < 32 && GroupOf(bit).start <= other <= GroupOf(bit).end
    ensures var bits := Gathered(l, t, |t.peripherals|, GroupOf(bit).start, GroupOf(bit).end);
      DriveFor(l, t, bit, state).functions[other / 8] == if Unreached(bit) then bits else With(bits, bit % 8, state)
  {
    hide Gathered;
    hide With;
  }

  /** The bytes sent: inside the group every function has the bit meant for it. */
  lemma SentBits(l: Control, c: nat, p: nat, state: bv8, i: nat)
    requires Configured(l.trains, l.states) && c < |l.trains|
    requires p < |l.trains[c].peripherals| && i < |l.trains[c].peripherals| && InGroup(l.trains[c], p, i)
    ensures var t := l.trains[c];
      var d := DriveFor(l, t, t.peripherals[p].bit, state);
      Bit(d.functions[t.peripherals[i].bit / 8], t.peripherals[i].bit % 8) == Meant(t, l.states[c], p, state, i)
  {
    hide Bit;
    hide Shifted;
    hide Gathered;
    hide DriveFor;
    hide With;
    hide Unique;
    var t := l.trains[c];
    var g := GroupOf(t.peripherals[p].bit);
    var bits := Gathered(l, t, |t.peripherals|, g.start, g.end);
    GatheredBit(l, c, |t.peripherals|, g.start, g.end, i);
    WithBit(bits, t.peripherals[p].bit % 8, state, t.peripherals[i].bit % 8);
    ByteSent(l, t, t.peripherals[p].bit, state, t.peripherals[i].bit);
    if i != p && !Unreached(t.peripherals[p].bit) {
      assert t.peripherals[i].bit != t.peripherals[p].bit;
      OtherPlace(t.peripherals[i].bit, t.peripherals[p].bit, g.start, g.end);
    }
  }

  lemma AndOne(x: bv8)
    ensures x <= 1 ==> x & 1 == x && (x == 0 || x == 1)
    ensures x & 1 == 0 || x & 1 == 1
  {}

  lemma WithNothing(k: nat, value: bv8)
    requires k < 8
    ensures With(0, k, value) == Shifted(value, k)
  {}

  /** A message is sent unless it is about one of the first eight bits and the state reaches bit 5 or beyond. */
  lemma AcceptedExactly(l: Control, c: nat, p: nat, state: bv8)
    requires Configured(l.trains, l.states) && c < |l.trains| && p < |l.trains[c].peripherals|
    ensures var bit := l.trains[c].peripherals[p].bit;
      Acceptable(DriveFor(l, l.trains[c], bit, state)) <==> (bit >= 8 || Shifted(state, bit % 8) <= 31)
  {
    hide Bit;
    hide Shifted;
    hide Gathered;
    hide With;
    hide Unique;
    var t := l.trains[c];
    var bit := t.peripherals[p].bit;
    if bit < 5 {
      var bits := Gathered(l, t, |t.peripherals|, 0, 4);
      forall k | 5 <= k < 8
        ensures Bit(With(bits, bit, state), k) == Bit(Shifted(state, bit), k)
      {
        FirstGroupIsSmall(l, c, |t.peripherals|, k);
        WithBit(bits, bit, state, k);
        OrZero(Bit(Shifted(state, bit), k));
      }
      SmallByte(With(bits, bit, state));
      SmallByte(Shifted(state, bit));
    } else if bit < 8 {
      WithNothing(bit, state);
    }
  }

  lemma SmallShift(k: nat, state: bv8)
    requires k < 5 && state <= 1
    ensures Shifted(state, k) <= 31
  {}

  /** Function p has the given state, and all others have the state they had. */
  ghost predicate ExactlySet(before: TrainState, after: TrainState, p: nat, state: bv8) {
    && |after.peripherals| == |before.peripherals|
    && forall i :: 0 <= i < |after.peripherals| ==>
      after.peripherals[i] == before.peripherals[i].(state := if i == p then state else before.peripherals[i].state)
  }

  /** What a drive message leaves alone in a train: position and speed. */
  ghost predicate SameMotion(before: TrainState, after: TrainState) {
    && after.id == before.id && after.onTrack == before.onTrack && after.orientation == before.orientation
    && after.speedStep == before.speedStep && after.isForwards == before.isForwards
  }

  /** The states the message for function p unpacks into. */
  lemma UnpackedStates(l: Control, c: nat, p: nat, state: bv8, i: nat)
    requires Configured(l.trains, l.states) && c < |l.trains|
    requires p < |l.trains[c].peripherals| && i < |l.trains[c].peripherals|
    ensures var t, st := l.trains[c], l.states[c];
      var g, d := GroupOf(t.peripherals[p].bit), DriveFor(l, t, t.peripherals[p].bit, state);
      var r := Unpacked(l.trains, st.(ackPending := true), g.start, g.end + 1, d.functions);
      r.peripherals[i].state == Meant(t, st, p, state, i)
  {
    hide Bit;
    hide Spill;
    hide DriveFor;
    hide Unpacked;
    hide Unique;
    var t := l.trains[c];
    var g, d := GroupOf(t.peripherals[p].bit), DriveFor(l, t, t.peripherals[p].bit, state);
    UnpackedExactly(l.trains, c, l.states[c].(ackPending := true), g.start, g.end + 1, d.functions, i);
    if InGroup(t, p, i) {
      SentBits(l, c, p, state, i);
    }
  }

  /** A message about functions only leaves position and speed of whatever train it reaches. */
  lemma FunctionsKeepMotion(l: Control, c: nat, bit: byte, state: bv8, st: TrainState)
    requires c < |l.trains| && bit < 32
    ensures SameMotion(st, DriveState(l.trains, st, DriveFor(l, l.trains[c], bit, state)))
  {
    hide DriveFor;
    hide DriveState;
    hide Unpacked;
    hide GroupOf;
    ActiveGroup(l, l.trains[c], bit, state);
    OneGroup(l.trains, st, DriveFor(l, l.trains[c], bit, state), bit);
  }

  /** The state of the train after the message for function p was accepted: every function as meant. */
  lemma AcceptedState(l: Control, c: nat, p: nat, state: bv8)
    requires Configured(l.trains, l.states) && c < |l.trains| && p < |l.trains[c].peripherals|
    ensures var t, st := l.trains[c], l.states[c];
      var r := DriveState(l.trains, st, DriveFor(l, t, t.peripherals[p].bit, state));
      && |r.peripherals| == |st.peripherals| == |t.peripherals| && OnOrOff(r)
      && (forall i :: 0 <= i < |st.peripherals| ==>
            r.peripherals[i] == st.peripherals[i].(state := Meant(t, st, p, state, i)))
      && (Unreached(t.peripherals[p].bit) ==> r.peripherals == st.peripherals)
  {
    hide DriveFor;
    hide DriveState;
    hide Unpacked;
    hide GroupOf;
    hide InGroup;
    hide Spill;
    hide Unique;
    hide TrainOk;
    var t, st := l.trains[c], l.states[c];
    SameLength(t, st);
    var bit := t.peripherals[p].bit;
    var d := DriveFor(l, t, bit, state);
    ActiveGroup(l, t, bit, state);
    OneGroup(l.trains, st, d, bit);
    DriveKeepsTrain(l.trains, c, st, d);
    forall i | 0 <= i < |st.peripherals|
      ensures DriveState(l.trains, st, d).peripherals[i].state == Meant(t, st, p, state, i)
    {
      UnpackedStates(l, c, p, state, i);
    }
  }

  /** With a state of 0 or 1 and a function that is reached, exactly that function is meant to change. */
  lemma SmallStatesMeantExactly(l: Control, c: nat, p: nat, state: bv8, i: nat)
    requires Configured(l.trains, l.states) && c < |l.trains| && state <= 1
    requires p < |l.trains[c].peripherals| && i < |l.trains[c].peripherals|
      && !Unreached(l.trains[c].peripherals[p].bit)
    ensures Meant(l.trains[c], l.states[c], p, state, i) == if i == p then state else l.states[c].peripherals[i].state
  {
    hide Bit;
    hide Shifted;
    hide Unique;
    var t := l.trains[c];
    AndOne(state);
    if i != p && InGroup(t, p, i) {
      assert t.peripherals[i].bit != t.peripherals[p].bit;
      var g := GroupOf(t.peripherals[p].bit);
      OtherPlace(t.peripherals[i].bit, t.peripherals[p].bit, g.start, g.end);
      SmallStatesStay(t.peripherals[p].bit % 8, state, t.peripherals[i].bit % 8);
      OrZeroRight(l.states[c].peripherals[i].state);
    }
  }

  lemma OrZeroRight(x: bv8)
    ensures x | 0 == x
  {}

  lemma SameLength(t: Train, st: TrainState)
    requires TrainOk(t, st)
    ensures |t.peripherals| == |st.peripherals|
    ensures forall i :: 0 <= i < |t.peripherals| ==> t.peripherals[i].bit < 32
  {}

  lemma GroupKeepsTrain(trains: seq<Train>, c: nat, st: TrainState, d: Drive, group: nat, lo: nat, hi: nat)
    requires Unique(trains) && c < |trains| && TrainOk(trains[c], st) && OnOrOff(st)
    requires group < 8 && hi <= 32 && |d.functions| == 4
    ensures TrainOk(trains[c], GroupUnpacked(trains, st, d, group, lo, hi))
      && OnOrOff(GroupUnpacked(trains, st, d, group, lo, hi))
  {
    hide Unique;
    hide Unpacked;
    hide Bit;
    hide TrainOk;
    if IsActive(d, group) {
      UnpackedOk(trains, trains[c], st, lo, hi, d.functions);
      SameLength(trains[c], st);
      forall i | 0 <= i < |st.peripherals|
        ensures var s := Unpacked(trains, st, lo, hi, d.functions).peripherals[i].state; s == 0 || s == 1
      {
        UnpackedExactly(trains, c, st, lo, hi, d.functions, i);
      }
    }
  }

  /** Whatever is sent, the functions of a train stay on or off, and its state stays in line with its mappings. */
  lemma DriveKeepsTrain(trains: seq<Train>, c: nat, st: TrainState, d: Drive)
    requires Unique(trains) && c < |trains| && TrainOk(trains[c], st) && OnOrOff(st) && |d.functions| == 4
    ensures TrainOk(trains[c], DriveState(trains, st, d)) && OnOrOff(DriveState(trains, st, d))
  {
    hide Unique;
    hide GroupUnpacked;
    hide IsActive;
    if d.active != 0 {
      var moved := if IsActive(d, 0) then st.(speedStep := SpeedStep(d.speed), isForwards := d.speed >= 128) else st;
      var s0 := moved.(ackPending := true);
      var s1 := GroupUnpacked(trains, s0, d, 1, 0, 5);
      var s2 := GroupUnpacked(trains, s1, d, 2, 8, 12);
      var s3 := GroupUnpacked(trains, s2, d, 3, 12, 16);
      var s4 := GroupUnpacked(trains, s3, d, 4, 16, 24);
      assert TrainOk(trains[c], s0) && OnOrOff(s0);
      GroupKeepsTrain(trains, c, s0, d, 1, 0, 5);
      GroupKeepsTrain(trains, c, s1, d, 2, 8, 12);
      GroupKeepsTrain(trains, c, s2, d, 3, 12, 16);
      GroupKeepsTrain(trains, c, s3, d, 4, 16, 24);
      GroupKeepsTrain(trains, c, s4, d, 5, 24, 32);
    }
  }

  /** Every drive message, whatever its parameters, keeps the configuration in order. */
  lemma SendKeepsConfigured(l: Control, addr: NodeAddress, d: Drive)
    requires Configured(l.trains, l.states) && |d.functions| == 4
    ensures Configured(l.trains, DriveSent(l, addr, d).states)
  {
    hide DriveState;
    hide Unique;
    hide TrainOk;
    hide OnOrOff;
    hide StateWithAddress;
    var i := StateWithAddress(l.trains, l.states, d.addrl, d.addrh);
    if i < |l.states| {
      DriveKeepsTrain(l.trains, i, l.states[i], d);
    }
  }

  lemma ActiveGroup(l: Control, t: Train, bit: byte, state: bv8)
    requires bit < 32
    ensures DriveFor(l, t, bit, state).active == GroupOf(bit).active
    ensures DriveFor(l, t, bit, state).addrl == t.addrl && DriveFor(l, t, bit, state).addrh == t.addrh
  {}

  /** The effect of a message about functions on all states: one train is reached, the rest stay. */
  lemma DrivenFrame(l: Control, c: nat, bit: byte, state: bv8, addr: NodeAddress)
    requires Configured(l.trains, l.states) && c < |l.trains| && bit < 32
    ensures var t := l.trains[c];
      var d := DriveFor(l, t, bit, state);
      var r := DriveSent(l, addr, d);
      && |r.states| == |l.states| && (forall e :: 0 <= e < |l.states| ==> SameMotion(l.states[e], r.states[e]))
      && (forall e :: 0 <= e < |l.states| && (l.trains[e].addrl != t.addrl || l.trains[e].addrh != t.addrh % 64) ==>
            r.states[e] == l.states[e])
      && (Acceptable(d) && t.addrh < 64 ==> r.states == l.states[c := DriveState(l.trains, l.states[c], d)])
  {
    hide DriveFor;
    hide DriveState;
    hide SameMotion;
    hide TrainOk;
    hide OnOrOff;
    var t := l.trains[c];
    ActiveGroup(l, t, bit, state);
    FoundByIndex(l.trains, l.states, c);
    var e := First(l.trains, (t': Train) => t.addrl == t'.addrl && t.addrh % 64 == t'.addrh);
    if e < |l.trains| {
      FoundByIndex(l.trains, l.states, e);
      FunctionsKeepMotion(l, c, bit, state, l.states[e]);
    }
    forall e | 0 <= e < |l.states|
      ensures SameMotion(l.states[e], l.states[e])
    {
      MotionStays(l.states[e]);
    }
  }

  lemma MotionStays(st: TrainState)
    ensures SameMotion(st, st)
  {}

  /** What an accepted or rejected message does to the train it was meant for. */
  lemma SetState(l: Control, c: nat, p: nat, state: bv8, addr: NodeAddress)
    requires Configured(l.trains, l.states) && c < |l.trains| && p < |l.trains[c].peripherals|
    ensures var t, st := l.trains[c], l.states[c];
      var r := DriveSent(l, addr, DriveFor(l, t, t.peripherals[p].bit, state)).states[c];
      var stored := t.addrh < 64 && (t.peripherals[p].bit >= 8 || Shifted(state, t.peripherals[p].bit % 8) <= 31);
      && |r.peripherals| == |st.peripherals| == |t.peripherals| && OnOrOff(r)
      && forall i :: 0 <= i < |st.peripherals| ==>
           r.peripherals[i] ==
           st.peripherals[i].(state := if stored then Meant(t, st, p, state, i) else st.peripherals[i].state)
  {
    hide DriveFor;
    hide DriveState;
    hide Driven;
    hide DriveSent;
    hide Acceptable;
    hide SameMotion;
    hide Shifted;
    hide Meant;
    hide Unique;
    hide TrainOk;
    var t, st := l.trains[c], l.states[c];
    SameLength(t, st);
    DrivenFrame(l, c, t.peripherals[p].bit, state, addr);
    AcceptedExactly(l, c, p, state);
    AcceptedState(l, c, p, state);
    if !Acceptable(DriveFor(l, t, t.peripherals[p].bit, state)) {
      RejectedStays(l, addr, DriveFor(l, t, t.peripherals[p].bit, state));
    }
  }

  lemma RejectedStays(l: Control, addr: NodeAddress, d: Drive)
    requires |d.functions| == 4 && !Acceptable(d)
    ensures DriveSent(l, addr, d) == l
  {}

  /**
   Setting a function leaves position and speed of every train alone, and all of
   every other train, unless it has the address that is left of this one's after
   masking. It sets exactly that function if and only if the new state is 0 or 1
   and the function's bit is reached by its group (bits 5 to 7 are not) in a train
   with a 14-bit address, or the function has that state already.
   */
  lemma SetExactly(l: Control, train: string, peripheral: string, state: bv8, output: string)
    requires Configured(l.trains, l.states) && IsTrackOutput(l.boards, output)
    requires var c := TrainNamed(l.trains, train);
      c < |l.trains| && MappingNamed(l.trains[c].peripherals, peripheral) < |l.trains[c].peripherals|
    ensures var c := TrainNamed(l.trains, train);
      var t, p := l.trains[c], MappingNamed(l.trains[c].peripherals, peripheral);
      var (error, r) := AfterSet(l, train, peripheral, state, output);
      && error == 0 && r == l.(states := r.states, sent := r.sent) && Configured(r.trains, r.states)
      && (forall e :: 0 <= e < |l.states| ==> SameMotion(l.states[e], r.states[e]))
      && (forall e :: 0 <= e < |l.states| && e != c ==>
            (l.trains[e].addrl == t.addrl && l.trains[e].addrh == t.addrh % 64) || r.states[e] == l.states[e])
      && (Unreached(t.peripherals[p].bit) ==> r.states[c].peripherals == l.states[c].peripherals)
      && (ExactlySet(l.states[c], r.states[c], p, state) <==>
          ((state <= 1 && !Unreached(t.peripherals[p].bit) && t.addrh < 64)
           || state == l.states[c].peripherals[p].state))
  {
    hide DriveFor;
    hide DriveSent;
    hide BitSet;
    hide Shifted;
    hide Bit;
    hide Meant;
    hide SameMotion;
    hide Unique;
    hide TrainOk;
    var c := TrainNamed(l.trains, train);
    var t, st := l.trains[c], l.states[c];
    var p := MappingNamed(t.peripherals, peripheral);
    var bit := t.peripherals[p].bit;
    var addr := l.boards[BoardNamed(l.boards, output)].nodeAddr;
    assert BitsInRange(l.trains) by { ConfiguredBits(l); }
    SameLength(t, st);
    DriveSentFrame(l, addr, DriveFor(l, t, bit, state));
    SendKeepsConfigured(l, addr, DriveFor(l, t, bit, state));
    DrivenFrame(l, c, bit, state, addr);
    SetState(l, c, p, state, addr);
    SetStateExactly(l, c, p, state, addr);
  }

  lemma DriveSentFrame(l: Control, addr: NodeAddress, d: Drive)
    requires |d.functions| == 4
    ensures var r := DriveSent(l, addr, d); r == l.(states := r.states, sent := r.sent)
    ensures DriveSent(l, addr, d).sent == if Acceptable(d) then l.sent + [Sent(addr, d)] else l.sent
  {
    hide Driven;
  }

  lemma SetStateExactly(l: Control, c: nat, p: nat, state: bv8, addr: NodeAddress)
    requires Configured(l.trains, l.states) && c < |l.trains| && p < |l.trains[c].peripherals|
    ensures var t, st := l.trains[c], l.states[c];
      var r := DriveSent(l, addr, DriveFor(l, t, t.peripherals[p].bit, state)).states[c];
      && (Unreached(t.peripherals[p].bit) ==> r.peripherals == st.peripherals)
      && (ExactlySet(st, r, p, state) <==>
          ((state <= 1 && !Unreached(t.peripherals[p].bit) && t.addrh < 64) || state == st.peripherals[p].state))
  {
    hide DriveFor;
    hide DriveSent;
    hide Shifted;
    hide Bit;
    hide Spill;
    hide InGroup;
    hide Unique;
    hide TrainOk;
    var t, st := l.trains[c], l.states[c];
    var bit := t.peripherals[p].bit;
    SameLength(t, st);
    SetState(l, c, p, state, addr);
    var r := DriveSent(l, addr, DriveFor(l, t, bit, state)).states[c];
    if state <= 1 && !Unreached(bit) {
      if bit < 5 {
        SmallShift(bit, state);
      }
      forall i | 0 <= i < |st.peripherals|
        ensures Meant(t, st, p, state, i) == if i == p then state else st.peripherals[i].state
      {
        SmallStatesMeantExactly(l, c, p, state, i);
      }
    }
    assert ExactlySet(st, r, p, state) ==> r.peripherals[p].state == state;
    assert st.peripherals[p].state == 0 || st.peripherals[p].state == 1;
  }

  /** Without an error the call comes down to sending one drive message to the track output. */
  lemma SetIs(l: Control, train: string, peripheral: string, state: bv8, output: string)
    requires Configured(l.trains, l.states) && IsTrackOutput(l.boards, output)
    requires var c := TrainNamed(l.trains, train);
      c < |l.trains| && MappingNamed(l.trains[c].peripherals, peripheral) < |l.trains[c].peripherals|
    ensures var t := l.trains[TrainNamed(l.trains, train)];
      var bit := t.peripherals[MappingNamed(t.peripherals, peripheral)].bit;
      AfterSet(l, train, peripheral, state, output) ==
      (0, DriveSent(l, l.boards[BoardNamed(l.boards, output)].nodeAddr, DriveFor(l, t, bit, state)))
  {
    hide DriveFor;
    hide DriveSent;
    hide Unique;
    hide OnOrOff;
    ConfiguredBits(l);
  }

  lemma OthersChange(l: Control, c: nat, p: nat, state: bv8, addr: NodeAddress, i: nat)
    requires Configured(l.trains, l.states) && c < |l.trains|
    requires p < |l.trains[c].peripherals| && i < |l.trains[c].peripherals| && i != p
    ensures var t, st := l.trains[c], l.states[c];
      var bit := t.peripherals[p].bit;
      var r := DriveSent(l, addr, DriveFor(l, t, bit, state)).states[c];
      && |r.peripherals| == |st.peripherals| == |t.peripherals|
      && (r.peripherals[i] != st.peripherals[i] <==>
          (t.addrh < 64 && (bit >= 8 || Shifted(state, bit % 8) <= 31) && !Unreached(bit) && InGroup(t, p, i)
           && st.peripherals[i].state == 0 && Spill(t, p, state, i) == 1))
  {
    hide DriveFor;
    hide DriveSent;
    hide Shifted;
    hide Bit;
    hide Spill;
    hide InGroup;
    hide Unique;
    hide TrainOk;
    SameLength(l.trains[c], l.states[c]);
    SetState(l, c, p, state, addr);
    OrOfBits(l.states[c].peripherals[i].state, Spill(l.trains[c], p, state, i));
  }

  /**
   Another function of the train changes exactly if the message is accepted and
   stored, the function set is reached and in the same group, the other one was off,
   and the new state has a bit that falls on it.
   */
  lemma OthersChangeExactly(l: Control, train: string, peripheral: string, state: bv8, output: string, i: nat)
    requires Configured(l.trains, l.states) && IsTrackOutput(l.boards, output)
    requires var c := TrainNamed(l.trains, train);
      && c < |l.trains| && i < |l.trains[c].peripherals|
      && i != MappingNamed(l.trains[c].peripherals, peripheral) < |l.trains[c].peripherals|
    ensures var c := TrainNamed(l.trains, train);
      var t, st, p := l.trains[c], l.states[c], MappingNamed(l.trains[c].peripherals, peripheral);
      var bit, r := t.peripherals[p].bit, AfterSet(l, train, peripheral, state, output).1.states[c];
      && |r.peripherals| == |st.peripherals| == |t.peripherals|
      && (r.peripherals[i] != st.peripherals[i] <==>
          (t.addrh < 64 && (bit >= 8 || Shifted(state, bit % 8) <= 31) && !Unreached(bit) && InGroup(t, p, i)
           && st.peripherals[i].state == 0 && Spill(t, p, state, i) == 1))
  {
    hide AfterSet;
    hide DriveFor;
    hide DriveSent;
    hide Shifted;
    hide Spill;
    hide InGroup;
    hide Configured;
    hide BitSet;
    var c := TrainNamed(l.trains, train);
    SetIs(l, train, peripheral, state, output);
    OthersChange(l, c, MappingNamed(l.trains[c].peripherals, peripheral), state,
                 l.boards[BoardNamed(l.boards, output)].nodeAddr, i);
  }

  lemma OrOfBits(x: bv8, y: bv8)
    requires (x == 0 || x == 1) && (y == 0 || y == 1)
    ensures x | y != x <==> x == 0 && y == 1
  {}

  // ------------------------------------------------------------ a concrete yard

  const OUTPUT := Board("output", UniqueId(16, 0, 13, [0, 0, 0, 1]), true, NodeAddress(0, 0, 0), [])
  const SHUNTER := Train("shunter", 3, 0, 14,
                         [PeripheralMapping("light", 0), PeripheralMapping("horn", 1), PeripheralMapping("bell", 5)])
  const CRANE := Train("crane", 3, 64, 14, [PeripheralMapping("hook", 0)])
  const SHUNTER_IDLE := TrainState("shunter", true, Left, 0, true, false,
                                   [PeripheralState("light", 0), PeripheralState("horn", 0),
                                    PeripheralState("bell", 0)])
  const CRANE_IDLE := TrainState("crane", true, Left, 0, true, false, [PeripheralState("hook", 0)])
  const YARD := Control([OUTPUT], [SHUNTER, CRANE], [SHUNTER_IDLE, CRANE_IDLE], [])

  lemma YardTrainsOk()
    ensures TrainOk(SHUNTER, SHUNTER_IDLE) && TrainOk(CRANE, CRANE_IDLE)
    ensures OnOrOff(SHUNTER_IDLE) && OnOrOff(CRANE_IDLE)
  {
    assert "light"[0] != "horn"[0] && "light"[0] != "bell"[0] && "horn"[0] != "bell"[0];
  }

  /** The yard is as the parser allows. */
  lemma YardIsConfigured()
    ensures Configured(YARD.trains, YARD.states)
  {
    hide TrainOk;
    hide OnOrOff;
    YardTrainsOk();
    assert "shunter"[0] != "crane"[0];
  }

  /** The trains, the functions and the track output are found under their names. */
  lemma YardNames()
    ensures TrainNamed(YARD.trains, "shunter") == 0 && TrainNamed(YARD.trains, "crane") == 1
    ensures MappingNamed(SHUNTER.peripherals, "light") == 0 && MappingNamed(SHUNTER.peripherals, "bell") == 2
    ensures MappingNamed(CRANE.peripherals, "hook") == 0
  {
    hide Configured;
    YardIsConfigured();
    FoundByIndex(YARD.trains, YARD.states, 0);
    FoundByIndex(YARD.trains, YARD.states, 1);
    assert YARD.trains[0].id == "shunter" && YARD.trains[1].id == "crane";
    assert SHUNTER.peripherals[0].id == "light" && SHUNTER.peripherals[1].id == "horn";
    assert SHUNTER.peripherals[2].id == "bell" && CRANE.peripherals[0].id == "hook";
    assert "light"[0] != "bell"[0] && "horn"[0] != "bell"[0];
    assert SHUNTER.peripherals[0].id != "bell" && SHUNTER.peripherals[1].id != "bell";
    var m := MappingNamed(SHUNTER.peripherals, "bell");
    assert m != 0 && m != 1;
  }

  lemma YardOutput()
    ensures IsTrackOutput(YARD.boards, "output")
  {
    assert YARD.boards[0] == OUTPUT && OUTPUT.id == "output";
    assert PowerOfTwo(4) == 16 by { assert PowerOfTwo(2) == 4; }
  }

  /**
   A state other than 0 or 1 spills: switching the light at bit 0 to 2 sounds the horn
   at bit 1 and leaves the light off.
   */
  lemma SpillExample()
    ensures var (error, r) := AfterSet(YARD, "shunter", "light", 2, "output");
      && error == 0
      && r.states[0].peripherals ==
         [PeripheralState("light", 0), PeripheralState("horn", 1), PeripheralState("bell", 0)]
  {
    hide AfterSet;
    hide DriveFor;
    hide DriveSent;
    hide Configured;
    hide BitSet;
    YardIsConfigured();
    YardNames();
    YardOutput();
    SetIs(YARD, "shunter", "light", 2, "output");
    var addr := YARD.boards[BoardNamed(YARD.boards, "output")].nodeAddr;
    SetState(YARD, 0, 0, 2, addr);
    var r := DriveSent(YARD, addr, DriveFor(YARD, SHUNTER, 0, 2)).states[0];
    assert Shifted(2, 0) == 2 && Spill(SHUNTER, 0, 2, 1) == 1;
    assert Meant(SHUNTER, SHUNTER_IDLE, 0, 2, 0) == 0 && Meant(SHUNTER, SHUNTER_IDLE, 0, 2, 1) == 1;
    assert r.peripherals[0] == PeripheralState("light", 0) && r.peripherals[1] == PeripheralState("horn", 1);
    assert r.peripherals[2] == PeripheralState("bell", 0);
  }

  /** A function at bit 5 cannot be switched on: the call reports no error, sends nothing and changes nothing. */
  lemma UnreachedExample()
    ensures AfterSet(YARD, "shunter", "bell", 1, "output") == (0, YARD)
  {
    hide AfterSet;
    hide DriveFor;
    hide DriveSent;
    hide Configured;
    hide Acceptable;
    hide BitSet;
    YardIsConfigured();
    YardNames();
    YardOutput();
    SetIs(YARD, "shunter", "bell", 1, "output");
    AcceptedExactly(YARD, 0, 2, 1);
    assert Shifted(1, 5) == 32;
    RejectedStays(YARD, YARD.boards[BoardNamed(YARD.boards, "output")].nodeAddr, DriveFor(YARD, SHUNTER, 5, 1));
  }

  lemma CraneReachesShunter()
    ensures StateWithAddress(YARD.trains, YARD.states, 3, 64) == 0
  {
    hide Configured;
    YardIsConfigured();
    FoundByIndex(YARD.trains, YARD.states, 0);
    assert YARD.trains[0].addrl == 3 && YARD.trains[0].addrh == 64 % 64;
  }

  const LIGHT_ON := [PeripheralState("light", 1), PeripheralState("horn", 0), PeripheralState("bell", 0)]

  /** The message for the hook carries bit 0 and no other. */
  lemma HookBits()
    ensures DriveFor(YARD, CRANE, 0, 1).functions[0] == 1
  {
    hide Configured;
    hide Gathered;
    YardIsConfigured();
    NothingGathered(YARD, CRANE, 0, 4);
    GatheredNext(YARD, 1, 0, 0, 4);
    assert Gathered(YARD, CRANE, 1, 0, 4) == 0;
    assert With(0, 0, 1) == 1;
    ByteSent(YARD, CRANE, 0, 1, 0);
  }

  /** The message for the hook switches on the light of the shunter. */
  lemma HookIsLight()
    ensures DriveState(YARD.trains, SHUNTER_IDLE, DriveFor(YARD, CRANE, 0, 1)).peripherals == LIGHT_ON
  {
    hide Configured;
    hide DriveFor;
    hide DriveState;
    hide Unpacked;
    YardTrainsOk();
    YardIsUnique();
    var d := DriveFor(YARD, CRANE, 0, 1);
    ActiveGroup(YARD, CRANE, 0, 1);
    OneGroup(YARD.trains, SHUNTER_IDLE, d, 0);
    HookBits();
    var st := SHUNTER_IDLE.(ackPending := true);
    assert TrainOk(SHUNTER, st);
    UnpackedExactly(YARD.trains, 0, st, 0, 5, d.functions, 0);
    UnpackedExactly(YARD.trains, 0, st, 0, 5, d.functions, 1);
    UnpackedExactly(YARD.trains, 0, st, 0, 5, d.functions, 2);
  }

  lemma YardIsUnique()
    ensures Unique(YARD.trains)
  {
    YardIsConfigured();
  }

  /**
   A train above address 0x3F is missed, and the one left after masking is hit: the hook
   stays off, and the light goes on.
   */
  lemma HighAddressExample()
    ensures BitsInRange(YARD.trains)
    ensures var (error, r) := AfterSet(YARD, "crane", "hook", 1, "output");
      error == 0 && r.states[1] == CRANE_IDLE && r.states[0].peripherals == LIGHT_ON
  {
    hide AfterSet;
    hide DriveFor;
    hide DriveState;
    hide Configured;
    hide StateWithAddress;
    hide Acceptable;
    hide BitSet;
    YardIsConfigured();
    YardNames();
    YardOutput();
    SetIs(YARD, "crane", "hook", 1, "output");
    var d := DriveFor(YARD, CRANE, 0, 1);
    ActiveGroup(YARD, CRANE, 0, 1);
    AcceptedExactly(YARD, 1, 0, 1);
    assert Shifted(1, 0) == 1;
    CraneReachesShunter();
    HookIsLight();
  }

  /**
   The message for a function, if it is sent, carries the train's address and no
   speed, and tells the track output for every function of the group the state the
   library holds from then on.
   */
  lemma MessageTellsStates(l: Control, c: nat, p: nat, state: bv8, addr: NodeAddress)
    requires Configured(l.trains, l.states) && c < |l.trains| && p < |l.trains[c].peripherals|
    ensures var t := l.trains[c];
      var bit := t.peripherals[p].bit;
      var g, d := GroupOf(bit), DriveFor(l, t, bit, state);
      var r := DriveSent(l, addr, d);
      && r.sent == (if bit >= 8 || Shifted(state, bit % 8) <= 31 then l.sent + [Sent(addr, d)] else l.sent)
      && d.addrl == t.addrl && d.addrh == t.addrh && !IsActive(d, 0) && d.active == g.active
      && |r.states| == |l.states| && |r.states[c].peripherals| == |t.peripherals|
      && (r.sent != l.sent && t.addrh < 64 ==>
            forall i :: 0 <= i < |t.peripherals| && InGroup(t, p, i) ==>
              Bit(d.functions[t.peripherals[i].bit / 8], t.peripherals[i].bit % 8) == r.states[c].peripherals[i].state)
  {
    hide DriveFor;
    hide DriveSent;
    hide GroupOf;
    hide Unique;
    hide Bit;
    hide Shifted;
    hide Meant;
    hide InGroup;
    hide Acceptable;
    hide SameMotion;
    hide TrainOk;
    hide OnOrOff;
    var t := l.trains[c];
    SameLength(t, l.states[c]);
    var bit := t.peripherals[p].bit;
    var d := DriveFor(l, t, bit, state);
    AcceptedExactly(l, c, p, state);
    DriveSentFrame(l, addr, d);
    DrivenFrame(l, c, bit, state, addr);
    SetState(l, c, p, state, addr);
    ActiveGroup(l, t, bit, state);
    NoSpeed(bit);
    forall i | 0 <= i < |t.peripherals| && InGroup(t, p, i)
      ensures Bit(d.functions[t.peripherals[i].bit / 8], t.peripherals[i].bit % 8) == Meant(t, l.states[c], p, state, i)
    {
      SentBits(l, c, p, state, i);
    }
  }

  lemma NoSpeed(bit: byte)
    ensures Bit(GroupOf(bit).active, 0) == 0
  {}

  lemma ConfiguredBits(l: Control)
    requires Configured(l.trains, l.states)
    ensures BitsInRange(l.trains)
  {}

  /**
   The error is 1, and nothing changes, exactly if no train has the id, or no board has the id of the
   output, or the board found is not connected or has no track output, or the train has no such function.
   */
  lemma SetErrors(l: Control, train: string, peripheral: string, state: bv8, output: string)
    requires Configured(l.trains, l.states)
    ensures var (error, r) := AfterSet(l, train, peripheral, state, output);
      var c, b := TrainNamed(l.trains, train), BoardNamed(l.boards, output);
      && (error == 0 || error == 1) && (error == 1 ==> r == l)
      && (error == 0 <==>
          && (exists t :: t in l.trains && t.id == train) && (exists o :: o in l.boards && o.id == output)
          && c < |l.trains| && b < |l.boards| && l.boards[b].connected && BitSet(l.boards[b].uniqueId.classId, 4)
          && exists m :: m in l.trains[c].peripherals && m.id == peripheral)
  {
    hide BitSet;
    hide DriveSent;
    hide DriveFor;
    ConfiguredBits(l);
    var c := TrainNamed(l.trains, train);
    if c < |l.trains| {
      assert l.trains[c] in l.trains;
      var ms := l.trains[c].peripherals;
      var m := MappingNamed(ms, peripheral);
      assert m < |ms| ==> ms[m] in ms;
    }
    var b := BoardNamed(l.boards, output);
    assert b < |l.boards| ==> l.boards[b] in l.boards;
  }

  /**
   A train configured with an address above 14 bits cannot be controlled: no drive
   message changes its state, since the search masks the upper bits off.
   */
  lemma HighAddressIsMissed(l: Control, c: nat, addr: NodeAddress, d: Drive)
    requires Configured(l.trains, l.states) && c < |l.trains| && l.trains[c].addrh >= 64 && |d.functions| == 4
    ensures DriveSent(l, addr, d).states[c] == l.states[c]
  {
    hide DriveState;
    var i := StateWithAddress(l.trains, l.states, d.addrl, d.addrh);
    if i < |l.states| {
      var e := First(l.trains, (t: Train) => d.addrl == t.addrl && d.addrh % 64 == t.addrh);
      FoundByIndex(l.trains, l.states, e);
    }
  }
}
