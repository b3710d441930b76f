/**
 What any drive message stores (src/state/bidib_state_setter.c): speed and direction,
 and every function of every group it is about, in the train it reaches and in no other.
 */
module TrainMotion {
  import opened Bytes
  import opened Tracks
  import opened TrainFunctions

  /** The flag of the group that a function bit belongs to; 0, the flag for speed, for bits 5 to 7, which have none. */
  function FlagOf(bit: byte): (flag: nat)
    ensures flag <= 5
  {
    if bit < 5 then 1 else if bit < 8 then 0 else if bit < 12 then 2 else if bit < 16 then 3
    else if bit < 24 then 4 else 5
  }

  /** The state told for a function by a message, if it is about the group of the function; else the state it had. */
  function Told(d: Drive, bit: byte, before: bv8): bv8
    requires bit < 32 && |d.functions| == 4
  {
    if FlagOf(bit) != 0 && IsActive(d, FlagOf(bit)) then Bit(d.functions[bit / 8], bit % 8) else before
  }

  /** Sign and size of a stored speed: 0 for the two stop codes, else positive forwards and one less than the code. */
  ghost predicate Moves(st: TrainState, speed: byte) {
    && (st.isForwards <==> speed >= 128)
    && (st.speedStep == 0 <==> speed % 128 <= 1)
    && (speed % 128 > 1 ==>
          (st.speedStep > 0 <==> st.isForwards)
          && (if st.speedStep < 0 then -st.speedStep else st.speedStep) == speed % 128 - 1)
  }

  lemma SpeedMoves(st: TrainState, speed: byte)
    requires st.speedStep == SpeedStep(speed) && (st.isForwards <==> speed >= 128)
    ensures Moves(st, speed)
  {}

  /** What any message leaves alone in a train. */
  ghost predicate SameTrain(before: TrainState, after: TrainState) {
    && after.id == before.id && after.onTrack == before.onTrack && after.orientation == before.orientation
    && |after.peripherals| == |before.peripherals|
    && forall i :: 0 <= i < |before.peripherals| ==> after.peripherals[i].id == before.peripherals[i].id
  }

  lemma GroupFrame(trains: seq<Train>, st: TrainState, d: Drive, group: nat, lo: nat, hi: nat)
    requires group < 8 && hi <= 32 && |d.functions| == 4
    ensures var r := GroupUnpacked(trains, st, d, group, lo, hi);
      r == st.(peripherals := r.peripherals) && SameTrain(st, r)
  {
    hide Unpacked;
    hide IsActive;
  }

  lemma SameTwice(a: TrainState, b: TrainState, c: TrainState)
    requires SameTrain(a, b) && SameTrain(b, c)
    ensures SameTrain(a, c)
  {}

  /** All groups together change nothing but function states. */
  lemma DriveFrame(trains: seq<Train>, st: TrainState, d: Drive)
    requires |d.functions| == 4
    ensures var r := DriveState(trains, st, d);
      && SameTrain(st, r)
      && (d.active == 0 ==> r.speedStep == 0 && r.isForwards && r.ackPending == st.ackPending
                            && forall i :: 0 <= i < |st.peripherals| ==> r.peripherals[i].state == 0)
      && (d.active != 0 ==> r.ackPending)
      && (d.active != 0 && IsActive(d, 0) ==> Moves(r, d.speed))
      && (d.active != 0 && !IsActive(d, 0) ==> r.speedStep == st.speedStep && r.isForwards == st.isForwards)
  {
    hide GroupUnpacked;
    hide IsActive;
    hide SpeedStep;
    hide Moves;
    if d.active != 0 {
      var moved := if IsActive(d, 0) then st.(speedStep := SpeedStep(d.speed), isForwards := d.speed >= 128) else st;
      var s0 := moved.(ackPending := true);
      var s1 := GroupUnpacked(trains, s0, d, 1, 0, 5);
      var s2 := GroupUnpacked(trains, s1, d, 2, 8, 12);
      var s3 := GroupUnpacked(trains, s2, d, 3, 12, 16);
      var s4 := GroupUnpacked(trains, s3, d, 4, 16, 24);
      var s5 := GroupUnpacked(trains, s4, d, 5, 24, 32);
      assert SameTrain(st, s0);
      hide SameTrain;
      GroupFrame(trains, s0, d, 1, 0, 5);
      SameTwice(st, s0, s1);
      GroupFrame(trains, s1, d, 2, 8, 12);
      SameTwice(st, s1, s2);
      GroupFrame(trains, s2, d, 3, 12, 16);
      SameTwice(st, s2, s3);
      GroupFrame(trains, s3, d, 4, 16, 24);
      SameTwice(st, s3, s4);
      GroupFrame(trains, s4, d, 5, 24, 32);
      SameTwice(st, s4, s5);
      assert DriveState(trains, st, d) == s5;
      if IsActive(d, 0) {
        SpeedMoves(s5, d.speed);
      }
    }
  }

  /** The state of a function after the group at bits lo up to hi was unpacked. */
  function Picked(d: Drive, group: nat, lo: nat, hi: nat, bit: byte, before: bv8): bv8
    requires group < 8 && bit < 32 && |d.functions| == 4
  {
    if IsActive(d, group) && lo <= bit < hi then Bit(d.functions[bit / 8], bit % 8) else before
  }

  lemma PickedInTurn(d: Drive, bit: byte, x: bv8)
    requires bit < 32 && |d.functions| == 4
    ensures var y := Picked(d, 3, 12, 16, bit, Picked(d, 2, 8, 12, bit, Picked(d, 1, 0, 5, bit, x)));
      Picked(d, 5, 24, 32, bit, Picked(d, 4, 16, 24, bit, y)) == Told(d, bit, x)
  {
    hide Bit;
    hide IsActive;
  }

  lemma GroupTells(trains: seq<Train>, c: nat, st: TrainState, d: Drive, group: nat, lo: nat, hi: nat, i: nat)
    requires Unique(trains) && c < |trains| && TrainOk(trains[c], st) && i < |st.peripherals|
    requires group < 8 && hi <= 32 && |d.functions| == 4
    ensures |st.peripherals| == |trains[c].peripherals| && trains[c].peripherals[i].bit < 32
    ensures var r := GroupUnpacked(trains, st, d, group, lo, hi);
      && TrainOk(trains[c], r) && |r.peripherals| == |st.peripherals|
      && r.peripherals[i].state == Picked(d, group, lo, hi, trains[c].peripherals[i].bit, st.peripherals[i].state)
  {
    hide Unique;
    hide TrainOk;
    hide Bit;
    SameLength(trains[c], st);
    UnpackedOk(trains, trains[c], st, lo, hi, d.functions);
    UnpackedExactly(trains, c, st, lo, hi, d.functions, i);
  }

  /** A message tells each function of a train the bit sent for it, if it is about the group of that function. */
  lemma FunctionsTold(trains: seq<Train>, c: nat, st: TrainState, d: Drive, i: nat)
    requires Unique(trains) && c < |trains| && TrainOk(trains[c], st) && i < |st.peripherals|
    requires |d.functions| == 4 && d.active != 0
    ensures |st.peripherals| == |trains[c].peripherals| && trains[c].peripherals[i].bit < 32
    ensures var r := DriveState(trains, st, d);
      && |r.peripherals| == |st.peripherals|
      && r.peripherals[i].state == Told(d, trains[c].peripherals[i].bit, st.peripherals[i].state)
  {
    hide Unique;
    hide GroupUnpacked;
    hide IsActive;
    hide Picked;
    hide Told;
    var moved := if IsActive(d, 0) then st.(speedStep := SpeedStep(d.speed), isForwards := d.speed >= 128) else st;
    var s0 := moved.(ackPending := true);
    assert TrainOk(trains[c], s0);
    hide TrainOk;
    var s1 := GroupUnpacked(trains, s0, d, 1, 0, 5);
    GroupTells(trains, c, s0, d, 1, 0, 5, i);
    var s2 := GroupUnpacked(trains, s1, d, 2, 8, 12);
    GroupTells(trains, c, s1, d, 2, 8, 12, i);
    var s3 := GroupUnpacked(trains, s2, d, 3, 12, 16);
    GroupTells(trains, c, s2, d, 3, 12, 16, i);
    var s4 := GroupUnpacked(trains, s3, d, 4, 16, 24);
    GroupTells(trains, c, s3, d, 4, 16, 24, i);
    GroupTells(trains, c, s4, d, 5, 24, 32, i);
    PickedInTurn(d, trains[c].peripherals[i].bit, st.peripherals[i].state);
  }

  /** The message can be sent, and train e has the address it is for. */
  ghost predicate Reaches(l: Control, d: Drive, e: nat)
    requires |d.functions| == 4 && e < |l.trains|
  {
    && (d.format == 0 || d.format == 2 || d.format == 3) && d.active <= 63 && d.functions[0] <= 31
    && l.trains[e].addrl == d.addrl && l.trains[e].addrh == d.addrh % 64
  }

  lemma ReachedExactly(l: Control, addr: NodeAddress, d: Drive, e: nat)
    requires Configured(l.trains, l.states) && |d.functions| == 4 && e < |l.states|
    ensures |l.states| == |l.trains|
    ensures DriveSent(l, addr, d).states[e] ==
      if Reaches(l, d, e) then DriveState(l.trains, l.states[e], d) else l.states[e]
  {
    hide DriveState;
    hide TrainOk;
    hide OnOrOff;
    var c := First(l.trains, (t: Train) => d.addrl == t.addrl && d.addrh % 64 == t.addrh);
    if c < |l.trains| {
      FoundByIndex(l.trains, l.states, c);
    }
  }

  /**
   A drive message changes the train that has its address, if it can be sent, and no other;
   and of that train neither place nor orientation. Without any flag the train stands, heads
   forwards, and has its functions off. Else it moves as told if the speed flag is set, and
   as before if not, and each function is as told if the flag of its group is set, and as
   before if not.
   */
  lemma DriveExactly(l: Control, addr: NodeAddress, d: Drive, e: nat)
    requires Configured(l.trains, l.states) && |d.functions| == 4 && e < |l.states|
    ensures |l.states| == |l.trains| && TrainOk(l.trains[e], l.states[e])
    ensures var t, st, r := l.trains[e], l.states[e], DriveSent(l, addr, d).states[e];
      && (!Reaches(l, d, e) ==> r == st)
      && (Reaches(l, d, e) ==>
            && SameTrain(st, r)
            && (d.active == 0 ==>
                  && r.speedStep == 0 && r.isForwards && r.ackPending == st.ackPending
                  && forall i :: 0 <= i < |st.peripherals| ==> r.peripherals[i].state == 0)
            && (d.active != 0 ==>
                  && r.ackPending
                  && (if IsActive(d, 0) then Moves(r, d.speed)
                      else r.speedStep == st.speedStep && r.isForwards == st.isForwards)
                  && forall i :: 0 <= i < |st.peripherals| ==>
                       r.peripherals[i].state == Told(d, t.peripherals[i].bit, st.peripherals[i].state)))
  {
    hide DriveState;
    hide DriveSent;
    hide Unique;
    hide OnOrOff;
    hide IsActive;
    hide Told;
    hide Moves;
    hide Reaches;
    ReachedExactly(l, addr, d, e);
    DriveFrame(l.trains, l.states[e], d);
    if d.active != 0 {
      forall i | 0 <= i < |l.states[e].peripherals|
        ensures DriveState(l.trains, l.states[e], d).peripherals[i].state ==
                Told(d, l.trains[e].peripherals[i].bit, l.states[e].peripherals[i].state)
      {
        FunctionsTold(l.trains, e, l.states[e], d, i);
      }
    }
  }

  /** What is sent, and when: a message in range goes to the address given, and any other sends nothing. */
  lemma SentExactly(l: Control, addr: NodeAddress, d: Drive)
    requires |d.functions| == 4
    ensures var r := DriveSent(l, addr, d);
      && r.boards == l.boards && r.trains == l.trains
      && r.sent == l.sent + if (d.format == 0 || d.format == 2 || d.format == 3) && d.active <= 63
                               && d.functions[0] <= 31 then [Sent(addr, d)] else []
  {
    hide Driven;
    assert l.sent + [] == l.sent;
  }

  /**
   The message for a function names the decoder's format by its speed steps, so that the
   format never keeps it from being sent, and carries no bits but those of the byte of the
   group and of the byte of the function.
   */
  lemma MessageForFunction(l: Control, t: Train, bit: byte, state: bv8)
    requires bit < 32
    ensures var d := DriveFor(l, t, bit, state);
      && (d.format == 2 <==> t.speedSteps == 28) && (d.format == 3 <==> t.speedSteps == 126)
      && (d.format == 0 <==> t.speedSteps != 28 && t.speedSteps != 126)
      && d.speed == 0 && forall j :: 0 <= j < 4 && j != bit / 8 && !(5 <= bit < 8 && j == 1) ==> d.functions[j] == 0
  {
    hide Gathered;
    hide With;
  }

  // ------------------------------------------------------------- setting a speed

  /** There and back: the code for a speed is stored as that speed, and none is the code for an emergency stop. */
  lemma SpeedThereAndBack(speed: int, forwards: bool)
    requires -126 <= speed <= 126 && (speed > 0 ==> forwards) && (speed < 0 ==> !forwards)
    ensures SpeedStep(SpeedCode(speed, forwards)) == speed && (SpeedCode(speed, forwards) >= 128 <==> forwards)
    ensures SpeedCode(speed, forwards) % 128 != 1
  {}

  /** The effect of a speed message on the states. */
  lemma SpeedDriven(l: Control, c: nat, speed: int, forwards: bool, addr: NodeAddress)
    requires Configured(l.trains, l.states) && c < |l.trains| && -126 <= speed <= 126
    requires (speed > 0 ==> forwards) && (speed < 0 ==> !forwards)
    ensures var r := DriveSent(l, addr, SpeedDrive(l.trains[c], speed, forwards)).states;
      && |r| == |l.states| == |l.trains|
      && (l.trains[c].addrh < 64 ==>
            && r[c] == l.states[c].(speedStep := speed, isForwards := forwards, ackPending := true)
            && forall e :: 0 <= e < |l.states| && e != c ==> r[e] == l.states[e])
      && (l.trains[c].addrh >= 64 ==> r[c] == l.states[c])
  {
    hide DriveState;
    hide DriveSent;
    hide Configured;
    hide SpeedCode;
    var d := SpeedDrive(l.trains[c], speed, forwards);
    StateForEach(l);
    ReachedExactly(l, addr, d, c);
    SpeedOnly(l.trains, l.states[c], d);
    SpeedThereAndBack(speed, forwards);
    forall e | 0 <= e < |l.states| && e != c
      ensures l.trains[c].addrh < 64 ==> DriveSent(l, addr, d).states[e] == l.states[e]
    {
      ReachedExactly(l, addr, d, e);
      OtherAddress(l, c, e);
    }
  }

  lemma StateForEach(l: Control)
    requires Configured(l.trains, l.states)
    ensures |l.states| == |l.trains|
  {}

  /**
   Setting a speed in range stores exactly that speed, with the direction of its sign; speed 0
   keeps the direction. No function and no other train changes, and one message goes to the
   track output. A train above address 0x3F is missed.
   */
  lemma SpeedSetExactly(l: Control, train: string, speed: int, output: string)
    requires Configured(l.trains, l.states) && -126 <= speed <= 126
    requires TrainNamed(l.trains, train) < |l.trains| && IsTrackOutput(l.boards, output)
    ensures EveryTrainHasState(l.trains, l.states)
    ensures var c := TrainNamed(l.trains, train);
      var (error, r) := AfterSpeed(l, train, speed, output);
      && |l.states| == |l.trains| == |r.states| && error == 0 && |r.sent| == |l.sent| + 1
      && r.sent[|l.sent|].addr == l.boards[BoardNamed(l.boards, output)].nodeAddr
      && (l.trains[c].addrh < 64 ==>
            && r.states[c] == l.states[c].(speedStep := speed, ackPending := true,
                 isForwards := if speed == 0 then l.states[c].isForwards else speed > 0)
            && forall e :: 0 <= e < |l.states| && e != c ==> r.states[e] == l.states[e])
      && (l.trains[c].addrh >= 64 ==> r.states[c] == l.states[c])
  {
    hide DriveSent;
    hide Configured;
    hide BitSet;
    hide SpeedCode;
    var c := TrainNamed(l.trains, train);
    HasStates(l);
    StateForEach(l);
    FoundByIndex(l.trains, l.states, c);
    var forwards := if speed == 0 then l.states[c].isForwards else speed > 0;
    var addr := l.boards[BoardNamed(l.boards, output)].nodeAddr;
    SpeedDriven(l, c, speed, forwards, addr);
    SentExactly(l, addr, SpeedDrive(l.trains[c], speed, forwards));
  }

  lemma OtherAddress(l: Control, c: nat, e: nat)
    requires Configured(l.trains, l.states) && c < |l.trains| && e < |l.trains| && e != c
    ensures l.trains[c].addrl != l.trains[e].addrl || l.trains[c].addrh != l.trains[e].addrh
  {}

  lemma SpeedOnly(trains: seq<Train>, st: TrainState, d: Drive)
    requires |d.functions| == 4 && d.active == 1
    ensures DriveState(trains, st, d) ==
      st.(speedStep := SpeedStep(d.speed), isForwards := d.speed >= 128, ackPending := true)
  {
    hide Unpacked;
    hide SpeedStep;
  }

  lemma HasStates(l: Control)
    requires Configured(l.trains, l.states)
    ensures EveryTrainHasState(l.trains, l.states)
  {
    forall c | 0 <= c < |l.trains|
      ensures StateNamed(l.states, l.trains[c].id) < |l.states|
    {
      FoundByIndex(l.trains, l.states, c);
    }
  }

  /** Setting a speed fails, and changes nothing, exactly if it is out of range or train or track output are missing. */
  lemma SpeedErrors(l: Control, train: string, speed: int, output: string)
    requires Configured(l.trains, l.states)
    ensures EveryTrainHasState(l.trains, l.states)
    ensures var (error, r) := AfterSpeed(l, train, speed, output);
      var b := BoardNamed(l.boards, output);
      && (error == 0 || error == 1) && (error == 1 ==> r == l)
      && (error == 0 <==>
          && -126 <= speed <= 126 && (exists t :: t in l.trains && t.id == train)
          && b < |l.boards| && l.boards[b].connected && BitSet(l.boards[b].uniqueId.classId, 4))
  {
    hide BitSet;
    hide DriveSent;
    HasStates(l);
    var c := TrainNamed(l.trains, train);
    assert c < |l.trains| ==> l.trains[c] in l.trains;
  }
}
