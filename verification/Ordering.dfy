/**
 What every interleaving keeps: no message is lost or duplicated, messages of one
 thread to one node keep their order, and the far end of the line gets exactly
 what the send buffer was given.
 */
module Ordering {
  import opened Bytes
  import opened Messages
  import opened NodeStates
  import opened FlowControl
  import opened SendBuffers
  import opened Receivers
  import opened Wire
  import opened Interleaving

  // -------------------------------------------------------------- invariants

  ghost predicate FlightsOk(fs: seq<Flight>) {
    && (forall i :: 0 <= i < |fs| ==> fs[i].msg.sender == fs[i].thread)
    && forall i, j :: 0 <= i < j < |fs| ==> fs[i].thread != fs[j].thread
  }

  /** At most one send by w to node k is under way. */
  ghost predicate Alone(s: System, w: Who, k: Key) {
    |Sel(w, k, FlightMsgs(s.flights))| <= 1
  }

  /**
   The messages of w to node k as they stand in line for the wire: those added to the
   send buffer, those the receiver is about to add, those held, and those in the
   senders' hands.
   */
  function Line(s: System, w: Who, k: Key): seq<Msg> {
    Sel(w, k, s.log) + Sel(w, k, MessagesIn(s.owed)) + Sel(w, k, Held(s.table, k)) + Sel(w, k, FlightMsgs(s.flights))
  }

  /** They stand in the order issued, and a cleared send has no older message still held or owed. */
  ghost predicate InOrder(s: System, w: Who, k: Key) {
    && Line(s, w, k) == Sel(w, k, s.issued)
    && (forall f :: f in s.flights && f.cleared && Picks(w, k, f.msg) ==>
          Sel(w, k, MessagesIn(s.owed)) == [] && Sel(w, k, Held(s.table, k)) == [])
  }

  // ------------------------------------------------------- flights and steps

  lemma FlightMsgsWithout(fs: seq<Flight>, i: nat, w: Who, k: Key)
    requires i < |fs|
    ensures FlightMsgs(Without(fs, i)) == Without(FlightMsgs(fs), i)
    ensures Sel(w, k, FlightMsgs(fs)) ==
      Sel(w, k, FlightMsgs(fs)[..i]) + Sel(w, k, [fs[i].msg]) + Sel(w, k, FlightMsgs(fs)[i + 1..])
    ensures Sel(w, k, FlightMsgs(Without(fs, i))) == Sel(w, k, FlightMsgs(fs)[..i]) + Sel(w, k, FlightMsgs(fs)[i + 1..])
  {
    hide Sel;
    var ms := FlightMsgs(fs);
    assert FlightMsgs(Without(fs, i)) == Without(ms, i);
    assert ms == ms[..i] + ([fs[i].msg] + ms[i + 1..]);
    SelConcat(w, k, ms[..i], [fs[i].msg] + ms[i + 1..]);
    SelConcat(w, k, [fs[i].msg], ms[i + 1..]);
    SelConcat(w, k, ms[..i], ms[i + 1..]);
  }

  /** Taking the only selected send out of the flights leaves none. */
  lemma OnlyFlight(s: System, i: nat, w: Who, k: Key)
    requires i < |s.flights| && Alone(s, w, k) && Picks(w, k, s.flights[i].msg)
    ensures Sel(w, k, FlightMsgs(s.flights)) == [s.flights[i].msg]
    ensures Sel(w, k, FlightMsgs(Without(s.flights, i))) == []
    ensures forall f :: f in Without(s.flights, i) ==> !Picks(w, k, f.msg)
  {
    hide Sel;
    var rest := Without(s.flights, i);
    FlightMsgsWithout(s.flights, i, w, k);
    SelOne(w, k, s.flights[i].msg);
    forall f | f in rest
      ensures !Picks(w, k, f.msg)
    {
      var j :| 0 <= j < |rest| && rest[j] == f;
      assert FlightMsgs(rest)[j] in FlightMsgs(rest);
      SelMember(w, k, FlightMsgs(rest), f.msg);
    }
  }

  lemma OtherFlight(s: System, i: nat, w: Who, k: Key)
    requires i < |s.flights| && !Picks(w, k, s.flights[i].msg)
    ensures Sel(w, k, FlightMsgs(Without(s.flights, i))) == Sel(w, k, FlightMsgs(s.flights))
    ensures forall f :: f in Without(s.flights, i) ==> f in s.flights
  {
    hide Sel;
    FlightMsgsWithout(s.flights, i, w, k);
    SelOne(w, k, s.flights[i].msg);
  }

  lemma TakeInOrder(s: System, step: Step, w: Who, k: Key)
    requires step.Take? && Enabled(s, step) && InOrder(s, w, k)
    ensures InOrder(StepOf(s, step), w, k)
  {
    hide Sel;
    var r := StepOf(s, step);
    var m := r.issued[|s.issued|];
    SelAppend(w, k, s.issued, m);
    assert FlightMsgs(r.flights) == FlightMsgs(s.flights) + [m];
    SelAppend(w, k, FlightMsgs(s.flights), m);
    QueryHeld(s.table, step.key, k);
    assert Held(r.table, k) == Held(s.table, k);
    assert forall f :: f in r.flights && f.cleared ==> f in s.flights;
  }

  lemma TryInOrder(s: System, step: Step, w: Who, k: Key)
    requires step.Try? && Enabled(s, step) && InOrder(s, w, k) && Alone(s, w, k)
    ensures InOrder(StepOf(s, step), w, k)
  {
    hide Sel;
    hide TrySend;
    hide Held;
    var i := FlightOf(s.flights, step.thread);
    var m := s.flights[i].msg;
    var r := StepOf(s, step);
    var passed := TrySend(s.table, m, step.now).1;
    TrySendHeld(s.table, m, step.now, k);
    SelNone(w, k, []);
    assert MessagesIn([]) == [];
    if passed {
      assert FlightMsgs(r.flights) == FlightMsgs(s.flights);
      assert forall f :: f in r.flights ==> f in s.flights || f == s.flights[i].(cleared := true);
    } else if Picks(w, k, m) {
      OnlyFlight(s, i, w, k);
      SelAppend(w, k, Held(s.table, k), m);
    } else {
      OtherFlight(s, i, w, k);
      SelAppend(w, k, Held(s.table, k), m);
    }
  }

  lemma PutInOrder(s: System, step: Step, w: Who, k: Key)
    requires step.Put? && Enabled(s, step) && InOrder(s, w, k) && Alone(s, w, k)
    ensures InOrder(StepOf(s, step), w, k)
  {
    hide Sel;
    hide Held;
    hide BytesOf;
    hide Added;
    var i := FlightOf(s.flights, step.thread);
    var m := s.flights[i].msg;
    hide MessagesIn;
    SelAppend(w, k, s.log, m);
    if Picks(w, k, m) {
      OnlyFlight(s, i, w, k);
    } else {
      OtherFlight(s, i, w, k);
    }
  }

  lemma LockedInOrder(s: System, step: Step, w: Who, k: Key)
    requires step.Locked? && Enabled(s, step) && InOrder(s, w, k) && TableOk(s.table)
    ensures InOrder(StepOf(s, step), w, k)
  {
    hide Sel;
    hide Held;
    hide Enter;
    hide CallsOf;
    hide TableOk;
    LockedConserves(s.table, step.region, w, k);
    assert MessagesIn([]) == [];
    SelNone(w, k, []);
  }

  lemma FirstCall(calls: seq<Action>)
    requires calls != []
    ensures MessagesIn(calls) == (if calls[0].Buffer? then [calls[0].msg] else []) + MessagesIn(calls[1..])
  {
    assert calls == [calls[0]] + calls[1..];
    MessagesInConcat([calls[0]], calls[1..]);
    assert [calls[0]][..0] == [];
    assert MessagesIn([calls[0]]) == if calls[0].Buffer? then [calls[0].msg] else [];
  }

  lemma PayInOrder(s: System, w: Who, k: Key)
    requires Enabled(s, PayOwed) && InOrder(s, w, k)
    ensures InOrder(StepOf(s, PayOwed), w, k)
  {
    hide Sel;
    hide Held;
    hide BytesOf;
    hide Added;
    hide Flushed;
    hide MessagesIn;
    FirstCall(s.owed);
    var rest := MessagesIn(s.owed[1..]);
    var first: seq<Msg> := if s.owed[0].Buffer? then [s.owed[0].msg] else [];
    SelConcat(w, k, first, rest);
    SelConcat(w, k, s.log, first);
    var a, x, o := Sel(w, k, s.log), Sel(w, k, first), Sel(w, k, rest);
    assert a + (x + o) == (a + x) + o;
    assert s.log + [] == s.log;
    assert StepOf(s, PayOwed).log == s.log + first;
  }

  /** Every step keeps the order of w's messages to k while at most one of them is under way. */
  lemma StepInOrder(s: System, step: Step, w: Who, k: Key)
    requires Enabled(s, step) && TableOk(s.table) && InOrder(s, w, k) && Alone(s, w, k)
    ensures InOrder(StepOf(s, step), w, k)
  {
    hide Sel;
    hide TableOk;
    hide BytesOf;
    match step {
      case Take(_, _, _, _, _, _) => TakeInOrder(s, step, w, k);
      case Try(_, _) => TryInOrder(s, step, w, k);
      case Put(_) => PutInOrder(s, step, w, k);
      case Locked(_) => LockedInOrder(s, step, w, k);
      case PayOwed => PayInOrder(s, w, k);
      case FlushStep =>
      case SetCapacity(_) =>
      case SkipNumber(key) => QueryHeld(s.table, key, k);
    }
  }

  // ------------------------------------------------- one thread, one message

  /** A thread has at most one send under way. */
  lemma {:induction false} ThreadAlone(fs: seq<Flight>, t: nat, k: Key)
    requires FlightsOk(fs)
    ensures |Sel(One(t), k, FlightMsgs(fs))| <= 1
    decreases |fs|
  {
    if fs != [] {
      var front, last := fs[..|fs| - 1], fs[|fs| - 1];
      ThreadAlone(front, t, k);
      assert FlightMsgs(fs) == FlightMsgs(front) + [last.msg];
      SelAppend(One(t), k, FlightMsgs(front), last.msg);
      if last.thread == t {
        SelNone(One(t), k, FlightMsgs(front));
      }
    }
  }

  lemma StepFlightsOk(s: System, step: Step)
    requires Enabled(s, step) && FlightsOk(s.flights)
    ensures FlightsOk(StepOf(s, step).flights)
  {
    hide TrySend;
    hide BytesOf;
    hide SendNumberTaken;
  }

  // ----------------------------------------------------------- the line's end

  ghost predicate AllFine(ms: seq<Msg>) {
    forall m :: m in ms ==> Fine(m)
  }

  function BytesOfAll(ms: seq<Msg>): seq<seq<byte>>
    requires AllFine(ms)
  {
    seq(|ms|, i requires 0 <= i < |ms| => BytesOf(ms[i]))
  }

  /** The send buffer and the line agree with the messages added so far. */
  ghost predicate LineOk(s: System) {
    AllFine(s.log) && InStep(s.buffer, BytesOfAll(s.log)) && |s.buffer.pending| <= 251
  }

  lemma AddedLineOk(s: System, m: Msg)
    requires LineOk(s) && Fine(m)
    ensures LineOk(AddedTo(s, m))
  {
    hide Fine;
    hide InStep;
    hide Added;
    hide BytesOf;
    PerformInStep(s.buffer, Add(BytesOf(m)), BytesOfAll(s.log));
    assert BytesOfAll(s.log + [m]) == BytesOfAll(s.log) + [BytesOf(m)];
  }

  lemma StepLineOk(s: System, step: Step)
    requires Enabled(s, step) && LineOk(s)
    ensures LineOk(StepOf(s, step))
  {
    hide Fine;
    hide InStep;
    hide Added;
    hide Flushed;
    hide BytesOf;
    hide TrySend;
    hide Enter;
    hide SendNumberTaken;
    var sent := BytesOfAll(s.log);
    assert sent + [] == sent;
    match step {
      case Put(thread) => AddedLineOk(s, s.flights[FlightOf(s.flights, thread)].msg);
      case PayOwed =>
        if s.owed[0].Buffer? {
          AddedLineOk(s.(owed := s.owed[1..]), s.owed[0].msg);
        } else {
          PerformInStep(s.buffer, FlushNow, sent);
        }
      case FlushStep => PerformInStep(s.buffer, FlushNow, sent);
      case SetCapacity(c) => PerformInStep(s.buffer, Capacity(c), sent);
      case _ =>
    }
  }

  // ------------------------------------------------------------------ all runs

  ghost predicate InThreadOrder(s: System) {
    forall t: nat, k :: InOrder(s, One(t), k)
  }

  ghost predicate Sound(s: System) {
    TableOk(s.table) && FlightsOk(s.flights) && AllFine(s.issued) && InThreadOrder(s) && LineOk(s)
  }

  lemma StepTableOk(s: System, step: Step)
    requires Enabled(s, step) && TableOk(s.table) && AllFine(FlightMsgs(s.flights))
    ensures TableOk(StepOf(s, step).table)
  {
    hide TableOk;
    hide BytesOf;
    hide Enter;
    match step {
      case Take(_, key, _, _, _, _) => TakenOk(s.table, key);
      case Try(thread, now) =>
        assert FlightMsgs(s.flights)[FlightOf(s.flights, thread)] in FlightMsgs(s.flights);
        TrySendOk(s.table, s.flights[FlightOf(s.flights, thread)].msg, now);
      case Locked(region) => EnterOk(s.table, region);
      case SkipNumber(key) => TakenOk(s.table, key);
      case _ =>
    }
  }

  lemma TakenOk(t: Table, k: Key)
    requires TableOk(t) && IsKey(k)
    ensures TableOk(SendNumberTaken(t, k).0)
  {
    hide TableOk;
    EnterOk(t, TakeSendNumber(k));
  }

  /** Everything under way was issued. */
  lemma UnderWayWasIssued(s: System, m: Msg)
    requires InThreadOrder(s)
      && (m in s.log || m in MessagesIn(s.owed) || m in Held(s.table, m.key) || m in FlightMsgs(s.flights))
    ensures m in s.issued
  {
    hide Sel;
    hide MessagesIn;
    hide Held;
    hide FlightMsgs;
    var w, k := One(m.sender), m.key;
    assert InOrder(s, w, k);
    SelMember(w, k, s.log, m);
    SelMember(w, k, MessagesIn(s.owed), m);
    SelMember(w, k, Held(s.table, k), m);
    SelMember(w, k, FlightMsgs(s.flights), m);
    SelMember(w, k, s.issued, m);
  }

  lemma UnderWayIsFine(s: System)
    requires InThreadOrder(s) && AllFine(s.issued)
    ensures AllFine(FlightMsgs(s.flights)) && AllFine(MessagesIn(s.owed))
  {
    hide Fine;
    hide InThreadOrder;
    hide MessagesIn;
    forall m | m in FlightMsgs(s.flights) || m in MessagesIn(s.owed)
      ensures Fine(m)
    {
      UnderWayWasIssued(s, m);
    }
  }

  /** No send and no call owed is ever stuck for a message that cannot be built. */
  lemma NothingStuck(s: System)
    requires Sound(s)
    ensures s.owed != [] ==> Enabled(s, PayOwed)
    ensures forall t: nat :: FlightOf(s.flights, t) < |s.flights| ==>
        Enabled(s, if s.flights[FlightOf(s.flights, t)].cleared then Put(t) else Try(t, 0)) || s.owed != []
  {
    hide Fine;
    hide InThreadOrder;
    hide TableOk;
    hide LineOk;
    hide MessagesIn;
    UnderWayIsFine(s);
    if s.owed != [] {
      FirstCall(s.owed);
    }
    forall i | 0 <= i < |s.flights|
      ensures Fine(s.flights[i].msg)
    {
      assert FlightMsgs(s.flights)[i] in FlightMsgs(s.flights);
    }
  }

  lemma StepInThreadOrder(s: System, step: Step)
    requires Enabled(s, step) && TableOk(s.table) && FlightsOk(s.flights) && InThreadOrder(s)
    ensures InThreadOrder(StepOf(s, step))
  {
    hide Enabled;
    hide StepOf;
    hide InOrder;
    hide TableOk;
    hide Sel;
    hide FlightsOk;
    forall t: nat, k
      ensures InOrder(StepOf(s, step), One(t), k)
    {
      assert InOrder(s, One(t), k);
      ThreadAlone(s.flights, t, k);
      StepInOrder(s, step, One(t), k);
    }
  }

  lemma IssuedFine(s: System, step: Step)
    requires Enabled(s, step) && AllFine(s.issued)
    ensures AllFine(StepOf(s, step).issued)
  {
    hide TrySend;
    hide BytesOf;
    hide SendNumberTaken;
  }

  lemma StepSound(s: System, step: Step)
    requires Enabled(s, step) && Sound(s)
    ensures Sound(StepOf(s, step))
  {
    hide Enabled;
    hide StepOf;
    hide TableOk;
    hide FlightsOk;
    hide AllFine;
    hide InThreadOrder;
    hide LineOk;
    UnderWayIsFine(s);
    StepTableOk(s, step);
    StepFlightsOk(s, step);
    IssuedFine(s, step);
    StepInThreadOrder(s, step);
    StepLineOk(s, step);
  }

  lemma InitialSound()
    ensures Sound(INITIAL)
  {
    assert SplitOf([]) == [];
    assert BytesOfAll([]) == [];
  }

  /** The invariant holds after every legal run. */
  lemma {:induction false} AlwaysSound(steps: seq<Step>)
    requires Legal(steps)
    ensures Sound(After(steps))
    decreases |steps|
  {
    hide Sound;
    hide Enabled;
    hide StepOf;
    if steps == [] {
      InitialSound();
    } else {
      AlwaysSound(steps[..|steps| - 1]);
      StepSound(After(steps[..|steps| - 1]), steps[|steps| - 1]);
    }
  }

  // -------------------------------------------------------------- main results

  /**
   Under any interleaving, the messages one thread issued to one node appear in
   program order in what was given to the send buffer; what is missing there is,
   still in order, owed by the receiver, held, or in the thread's hands.
   */
  lemma ProgramOrder(steps: seq<Step>, t: nat, k: Key)
    requires Legal(steps)
    ensures var s := After(steps);
      Sel(One(t), k, s.issued) == Sel(One(t), k, s.log) + Sel(One(t), k, MessagesIn(s.owed))
        + Sel(One(t), k, Held(s.table, k)) + Sel(One(t), k, FlightMsgs(s.flights))
  {
    hide Sel;
    AlwaysSound(steps);
    assert InOrder(After(steps), One(t), k);
  }

  /** The calls made to send a message, in the order the numbers were taken. */
  function Requested(steps: seq<Step>): seq<Step> {
    if steps == [] then []
    else Requested(steps[..|steps| - 1]) + if steps[|steps| - 1].Take? then [steps[|steps| - 1]] else []
  }

  /** The message a call asks for, whatever number it gets; 0 exactly if numbering is off. */
  ghost predicate AsAsked(m: Msg, step: Step)
    requires step.Take?
  {
    && m.sender == step.thread && m.key == step.key && m.msgType == step.msgType && m.data == step.data
    && m.actionId == step.actionId && (m.seqnum == 0 <==> !step.numbered)
  }

  /** Only starting a send issues a message, and it issues the one asked for. */
  lemma StepIssues(s: System, step: Step)
    requires Enabled(s, step) && TableOk(s.table)
    ensures var r := StepOf(s, step).issued;
      if step.Take? then |r| == |s.issued| + 1 && r[..|s.issued|] == s.issued && AsAsked(r[|s.issued|], step)
      else r == s.issued
  {
    hide TrySend;
    hide Enter;
    hide BytesOf;
    hide Fine;
    hide WindowOk;
  }

  /** Under any interleaving, what is issued is what was asked for, call by call. */
  lemma {:induction false} IssuedAsAsked(steps: seq<Step>)
    requires Legal(steps)
    ensures var issued, calls := After(steps).issued, Requested(steps);
      && |issued| == |calls|
      && forall i :: 0 <= i < |issued| ==> calls[i].Take? && AsAsked(issued[i], calls[i])
  {
    hide StepOf;
    hide Enabled;
    hide AsAsked;
    if steps != [] {
      var front := steps[..|steps| - 1];
      IssuedAsAsked(front);
      AlwaysSound(front);
      StepIssues(After(front), steps[|steps| - 1]);
      var issued, before := After(steps).issued, After(front).issued;
      assert forall i :: 0 <= i < |before| ==> issued[i] == before[i];
    }
  }

  lemma {:induction false} SelCount(w: Who, k: Key, ms: seq<Msg>, m: Msg)
    requires Picks(w, k, m)
    ensures multiset(Sel(w, k, ms))[m] == multiset(ms)[m]
  {
    if ms != [] {
      SelCount(w, k, ms[..|ms| - 1], m);
      assert ms == ms[..|ms| - 1] + [ms[|ms| - 1]];
    }
  }

  /** Every message issued is in exactly one place, as often as it was issued, and held only at its own node. */
  lemma NothingLostOrDuplicated(steps: seq<Step>, m: Msg)
    requires Legal(steps)
    ensures var s := After(steps);
      && multiset(s.issued)[m] == multiset(s.log)[m] + multiset(MessagesIn(s.owed))[m]
         + multiset(Held(s.table, m.key))[m] + multiset(FlightMsgs(s.flights))[m]
      && forall k :: m in Held(s.table, k) ==> k == m.key
  {
    hide Sel;
    hide MessagesIn;
    var s, w, k := After(steps), One(m.sender), m.key;
    AlwaysSound(steps);
    ProgramOrder(steps, m.sender, k);
    SelCount(w, k, s.issued, m);
    SelCount(w, k, s.log, m);
    SelCount(w, k, MessagesIn(s.owed), m);
    SelCount(w, k, Held(s.table, k), m);
    SelCount(w, k, FlightMsgs(s.flights), m);
  }

  /**
   Under any interleaving, the far end of the line gets the messages added to the
   send buffer, in that order, less those of the unfinished packet, and neither
   packet buffer is overrun.
   */
  lemma WireDelivers(steps: seq<Step>)
    requires Legal(steps)
    ensures var s := After(steps);
      && AllFine(s.log)
      && Delivered(ReceiveAll(START, s.buffer.written).packets) + SplitOf(s.buffer.pending) == BytesOfAll(s.log)
      && Fits(START, s.buffer.written) && |s.buffer.pending| <= 251
  {
    AlwaysSound(steps);
  }

  // ------------------------------------------------ order among several threads

  /** Somewhere in line a message stands one place too early, in front of another thread's. */
  ghost predicate Overtaken(s: System, k: Key) {
    var line, issued := Line(s, Everyone, k), Sel(Everyone, k, s.issued);
    exists n :: 0 <= n < |line| && n + 1 < |issued| && line[n] == issued[n + 1] && line[n].sender != issued[n].sender
  }

  lemma OvertakenIsOutOfOrder(s: System, k: Key)
    requires Overtaken(s, k)
    ensures !InOrder(s, Everyone, k)
  {
    hide Line;
    hide Sel;
  }

  /** The second of several sends under way to k. */
  lemma {:induction false} SecondFlight(fs: seq<Flight>, k: Key) returns (j: nat)
    requires |Sel(Everyone, k, FlightMsgs(fs))| >= 2
    ensures j < |fs| && Picks(Everyone, k, fs[j].msg) && |Sel(Everyone, k, FlightMsgs(fs)[..j])| == 1
    decreases |fs|
  {
    hide Picks;
    var front, last := fs[..|fs| - 1], fs[|fs| - 1];
    assert FlightMsgs(fs) == FlightMsgs(front) + [last.msg];
    SelAppend(Everyone, k, FlightMsgs(front), last.msg);
    assert FlightMsgs(fs)[..|front|] == FlightMsgs(front);
    if |Sel(Everyone, k, FlightMsgs(front))| >= 2 {
      j := SecondFlight(front, k);
      assert FlightMsgs(fs)[..j] == FlightMsgs(front)[..j];
    } else {
      j := |front|;
    }
  }

  /** What stands in the senders' hands, with and without the second send. */
  lemma SecondOfTwo(s: System, k: Key, j: nat) returns (first: Msg, rest: seq<Msg>)
    requires FlightsOk(s.flights) && j < |s.flights| && Picks(Everyone, k, s.flights[j].msg)
    requires |Sel(Everyone, k, FlightMsgs(s.flights)[..j])| == 1
    ensures first.sender != s.flights[j].msg.sender
    ensures Sel(Everyone, k, FlightMsgs(s.flights)) == [first] + [s.flights[j].msg] + rest
    ensures Sel(Everyone, k, FlightMsgs(Without(s.flights, j))) == [first] + rest
  {
    hide Sel;
    var ms := FlightMsgs(s.flights);
    first, rest := Sel(Everyone, k, ms[..j])[0], Sel(Everyone, k, ms[j + 1..]);
    assert Sel(Everyone, k, ms[..j]) == [first];
    SelMember(Everyone, k, ms[..j], first);
    var i :| 0 <= i < j && ms[..j][i] == first;
    assert first == s.flights[i].msg;
    FlightMsgsWithout(s.flights, j, Everyone, k);
    SelOne(Everyone, k, s.flights[j].msg);
  }

  lemma PlaceInLine(line: seq<Msg>, issued: seq<Msg>, before: seq<Msg>, first: Msg, second: Msg, rest: seq<Msg>)
    requires issued == before + ([first] + [second] + rest)
    requires line == before + ([second] + ([first] + rest))
    ensures |before| + 1 < |issued| && |before| < |line|
    ensures line[|before|] == issued[|before| + 1] == second && issued[|before|] == first
  {}

  /** With no message owed or held, the second send overtakes the first once it is cleared and put. */
  lemma PutOvertakes(s: System, k: Key, j: nat)
    requires FlightsOk(s.flights) && j < |s.flights| && Picks(Everyone, k, s.flights[j].msg)
    requires |Sel(Everyone, k, FlightMsgs(s.flights)[..j])| == 1 && s.flights[j].cleared && Fine(s.flights[j].msg)
    requires Line(s, Everyone, k) == Sel(Everyone, k, s.issued)
    requires Sel(Everyone, k, MessagesIn(s.owed)) == [] && Sel(Everyone, k, Held(s.table, k)) == []
    ensures Enabled(s, Put(s.flights[j].thread)) && Overtaken(StepOf(s, Put(s.flights[j].thread)), k)
  {
    hide Sel;
    hide Held;
    hide MessagesIn;
    hide BytesOf;
    hide Added;
    var t, second := s.flights[j].thread, s.flights[j].msg;
    assert FlightOf(s.flights, t) == j;
    var first, rest := SecondOfTwo(s, k, j);
    var r := StepOf(s, Put(t));
    SelAppend(Everyone, k, s.log, second);
    PlaceInLine(Line(r, Everyone, k), Sel(Everyone, k, r.issued), Sel(Everyone, k, s.log), first, second, rest);
  }

  /** A second send that is held stands in front of the first. */
  lemma TryOvertakes(s: System, k: Key, j: nat)
    requires FlightsOk(s.flights) && j < |s.flights| && Picks(Everyone, k, s.flights[j].msg)
    requires |Sel(Everyone, k, FlightMsgs(s.flights)[..j])| == 1 && !s.flights[j].cleared && s.owed == []
    requires Line(s, Everyone, k) == Sel(Everyone, k, s.issued)
    requires !TrySend(s.table, s.flights[j].msg, 0).1
    ensures Enabled(s, Try(s.flights[j].thread, 0)) && Overtaken(StepOf(s, Try(s.flights[j].thread, 0)), k)
  {
    hide Sel;
    hide Held;
    hide TrySend;
    var t, second := s.flights[j].thread, s.flights[j].msg;
    assert FlightOf(s.flights, t) == j;
    var first, rest := SecondOfTwo(s, k, j);
    var r := StepOf(s, Try(t, 0));
    TrySendHeld(s.table, second, 0, k);
    SelAppend(Everyone, k, Held(s.table, k), second);
    SelNone(Everyone, k, []);
    assert MessagesIn([]) == [];
    var before := Sel(Everyone, k, s.log) + Sel(Everyone, k, Held(s.table, k));
    assert Line(r, Everyone, k) == before + ([second] + ([first] + rest));
    PlaceInLine(Line(r, Everyone, k), Sel(Everyone, k, r.issued), before, first, second, rest);
  }

  /** A second send that passes changes nothing in line, and finds nothing held. */
  lemma TryClears(s: System, k: Key, j: nat)
    requires FlightsOk(s.flights) && j < |s.flights| && Picks(Everyone, k, s.flights[j].msg)
    requires |Sel(Everyone, k, FlightMsgs(s.flights)[..j])| == 1 && !s.flights[j].cleared && s.owed == []
    requires TrySend(s.table, s.flights[j].msg, 0).1
    ensures Enabled(s, Try(s.flights[j].thread, 0))
    ensures var r := StepOf(s, Try(s.flights[j].thread, 0));
      && Line(r, Everyone, k) == Line(s, Everyone, k) && r.issued == s.issued && r.owed == [] && Held(r.table, k) == []
      && r.flights == s.flights[j := s.flights[j].(cleared := true)] && FlightMsgs(r.flights) == FlightMsgs(s.flights)
  {
    hide Sel;
    hide Held;
    hide TrySend;
    assert FlightOf(s.flights, s.flights[j].thread) == j;
    TrySendHeld(s.table, s.flights[j].msg, 0, k);
    var r := StepOf(s, Try(s.flights[j].thread, 0));
    assert FlightMsgs(r.flights) == FlightMsgs(s.flights);
  }

  /** A step added to a legal run. */
  lemma Extended(steps: seq<Step>, step: Step)
    requires Legal(steps) && Enabled(After(steps), step)
    ensures Legal(steps + [step]) && After(steps + [step]) == StepOf(After(steps), step)
  {
    hide Enabled;
    hide StepOf;
    assert (steps + [step])[..|steps|] == steps;
  }

  /** No step of the run starts a send to k. */
  predicate NoNewSends(k: Key, steps: seq<Step>) {
    forall step :: step in steps ==> !(step.Take? && step.key == k)
  }

  /** A continuation of a run that starts no further send to k. */
  ghost predicate Continues(steps: seq<Step>, k: Key, more: seq<Step>) {
    Legal(steps + more) && NoNewSends(k, more)
  }

  /** Two sends to k under way together, nothing owed: a step or two of the second thread break the order. */
  lemma TwoUnderWay(steps: seq<Step>, k: Key) returns (more: seq<Step>)
    requires Legal(steps) && After(steps).owed == []
    requires InOrder(After(steps), Everyone, k) && !Alone(After(steps), Everyone, k)
    ensures Continues(steps, k, more) && Overtaken(After(steps + more), k)
  {
    hide Sel;
    hide Enabled;
    hide StepOf;
    hide Fine;
    hide TrySend;
    hide Legal;
    hide After;
    hide Overtaken;
    hide Line;
    var s := After(steps);
    AlwaysSound(steps);
    var j := SecondFlight(s.flights, k);
    var f := s.flights[j];
    SelNone(Everyone, k, []);
    assert MessagesIn([]) == [];
    assert Fine(f.msg) by { FlightIsFine(s, j); }
    if f.cleared {
      PutOvertakes(s, k, j);
      more := [Put(f.thread)];
      Extended(steps, Put(f.thread));
    } else if TrySend(s.table, f.msg, 0).1 {
      TryClears(s, k, j);
      Extended(steps, Try(f.thread, 0));
      var r := StepOf(s, Try(f.thread, 0));
      assert FlightsOk(r.flights) by { StepFlightsOk(s, Try(f.thread, 0)); }
      PutOvertakes(r, k, j);
      Extended(steps + [Try(f.thread, 0)], Put(f.thread));
      more := [Try(f.thread, 0)] + [Put(f.thread)];
      assert steps + more == (steps + [Try(f.thread, 0)]) + [Put(f.thread)];
    } else {
      TryOvertakes(s, k, j);
      more := [Try(f.thread, 0)];
      Extended(steps, Try(f.thread, 0));
    }
  }

  lemma FlightIsFine(s: System, j: nat)
    requires Sound(s) && j < |s.flights|
    ensures Fine(s.flights[j].msg)
  {
    hide Fine;
    hide InThreadOrder;
    hide TableOk;
    hide LineOk;
    UnderWayIsFine(s);
    assert FlightMsgs(s.flights)[j] in FlightMsgs(s.flights);
  }

  /** The receiver can pay what it owes, which leaves the order and the sends under way as they are. */
  lemma {:induction false} DebtsPaid(steps: seq<Step>, k: Key) returns (more: seq<Step>)
    requires Legal(steps) && InOrder(After(steps), Everyone, k)
    ensures Continues(steps, k, more)
    ensures var r := After(steps + more);
      r.owed == [] && r.flights == After(steps).flights && InOrder(r, Everyone, k)
    decreases |After(steps).owed|
  {
    hide Enabled;
    hide StepOf;
    hide InOrder;
    hide Legal;
    hide After;
    var s := After(steps);
    if s.owed == [] {
      more := [];
      assert steps + [] == steps;
    } else {
      AlwaysSound(steps);
      NothingStuck(s);
      PayInOrder(s, Everyone, k);
      OnePaid(s);
      Extended(steps, PayOwed);
      more := DebtsPaid(steps + [PayOwed], k);
      assert (steps + [PayOwed]) + more == steps + ([PayOwed] + more);
      more := [PayOwed] + more;
    }
  }

  lemma OnePaid(s: System)
    requires Enabled(s, PayOwed)
    ensures StepOf(s, PayOwed).owed == s.owed[1..] && StepOf(s, PayOwed).flights == s.flights
  {
    hide BytesOf;
  }

  /** Steps that start no send to k bring no further one under way, and issue none. */
  lemma AloneStays(s: System, step: Step, k: Key)
    requires Enabled(s, step) && NoNewSends(k, [step])
    ensures Alone(s, Everyone, k) ==> Alone(StepOf(s, step), Everyone, k)
    ensures Sel(Everyone, k, StepOf(s, step).issued) == Sel(Everyone, k, s.issued)
  {
    hide Sel;
    hide BytesOf;
    hide TrySend;
    hide SendNumberTaken;
    assert step in [step];
    var r := StepOf(s, step);
    match step {
      case Take(_, _, _, _, _, _) =>
        var m := r.issued[|s.issued|];
        assert FlightMsgs(r.flights) == FlightMsgs(s.flights) + [m];
        SelAppend(Everyone, k, FlightMsgs(s.flights), m);
        SelAppend(Everyone, k, s.issued, m);
      case Try(thread, now) =>
        var i := FlightOf(s.flights, thread);
        if TrySend(s.table, s.flights[i].msg, now).1 {
          assert FlightMsgs(r.flights) == FlightMsgs(s.flights);
        } else {
          FlightMsgsWithout(s.flights, i, Everyone, k);
        }
      case Put(thread) => FlightMsgsWithout(s.flights, FlightOf(s.flights, thread), Everyone, k);
      case _ =>
    }
  }

  lemma {:induction false} LegalPrefix(before: seq<Step>, steps: seq<Step>)
    requires Legal(before + steps)
    ensures Legal(before)
    decreases |steps|
  {
    if steps == [] {
      assert before + steps == before;
    } else {
      assert (before + steps)[..|before + steps| - 1] == before + steps[..|steps| - 1];
      LegalPrefix(before, steps[..|steps| - 1]);
    }
  }

  /** From a state in order with at most one send to k under way, only a new send to k can break the order. */
  lemma {:induction false} OrderSurvives(steps: seq<Step>, k: Key, more: seq<Step>)
    requires Legal(steps) && Continues(steps, k, more)
    requires InOrder(After(steps), Everyone, k) && Alone(After(steps), Everyone, k)
    ensures InOrder(After(steps + more), Everyone, k) && Alone(After(steps + more), Everyone, k)
    decreases |more|
  {
    hide Enabled;
    hide StepOf;
    hide InOrder;
    hide Alone;
    hide TableOk;
    if more == [] {
      assert steps + more == steps;
    } else {
      var n := |more| - 1;
      var run := steps + more;
      assert run[..|run| - 1] == steps + more[..n] && run[|run| - 1] == more[n];
      OrderSurvives(steps, k, more[..n]);
      AlwaysSound(steps + more[..n]);
      StepInOrder(After(steps + more[..n]), more[n], Everyone, k);
      AloneStays(After(steps + more[..n]), more[n], k);
    }
  }

  /**
   Exactly when the order of all messages to a node is safe: they are in order and at
   most one send to the node is under way, if and only if they stay in order however
   the run goes on, as long as no further send to the node starts.
   */
  lemma OrderSafeExactly(steps: seq<Step>, k: Key)
    requires Legal(steps)
    ensures InOrder(After(steps), Everyone, k) && Alone(After(steps), Everyone, k) <==>
      forall more :: Continues(steps, k, more) ==> InOrder(After(steps + more), Everyone, k)
  {
    hide Legal;
    hide After;
    hide InOrder;
    hide Alone;
    if InOrder(After(steps), Everyone, k) && Alone(After(steps), Everyone, k) {
      forall more | Continues(steps, k, more)
        ensures InOrder(After(steps + more), Everyone, k)
      {
        OrderSurvives(steps, k, more);
      }
    }
    if forall more :: Continues(steps, k, more) ==> InOrder(After(steps + more), Everyone, k) {
      assert steps + [] == steps && Continues(steps, k, []);
      if !Alone(After(steps), Everyone, k) {
        var more := OrderBreaks(steps, k);
        OvertakenIsOutOfOrder(After(steps + more), k);
      }
    }
  }

  /** As soon as two sends to a node are under way together, the run can go on so that one overtakes the other. */
  lemma OrderBreaks(steps: seq<Step>, k: Key) returns (more: seq<Step>)
    requires Legal(steps) && InOrder(After(steps), Everyone, k) && !Alone(After(steps), Everyone, k)
    ensures Continues(steps, k, more) && Overtaken(After(steps + more), k)
  {
    hide Legal;
    hide After;
    hide InOrder;
    hide Overtaken;
    var paid := DebtsPaid(steps, k);
    var broken := TwoUnderWay(steps + paid, k);
    more := paid + broken;
    assert steps + more == (steps + paid) + broken;
  }
}
