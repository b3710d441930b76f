/**
 Sequence numbers: what the library writes into messages, how it checks the
 numbers it receives, and how threads and the receiver share the counters.
 */
module SeqNums {
  import opened Bytes
  import opened Messages
  import opened NodeStates
  import opened FlowControl
  import opened Responses
  import opened Wire
  import opened SendBuffers
  import opened Interleaving
  import opened Ordering

  /** The counters of a node; a node not in the table would be created with both at 1. */
  function SendNumber(t: Table, k: Key): byte {
    if k in t then t[k].sendSeqnum else 1
  }

  function Awaited(t: Table, k: Key): byte {
    if k in t then t[k].receiveSeqnum else 1
  }

  function Advance(first: byte, n: nat): byte {
    if n == 0 then first else NextSeqnum(Advance(first, n - 1))
  }

  /** The numbers first, first + 1, ... with 255 followed by 1. */
  ghost predicate InSequence(first: byte, ns: seq<byte>) {
    forall i :: 0 <= i < |ns| ==> ns[i] == Advance(first, i)
  }

  /** Advancing never meets 0 and comes back after 255 numbers. */
  lemma {:induction false} AdvanceCloses(first: byte, n: nat)
    requires first != 0
    ensures Advance(first, n) == (first - 1 + n) % 255 + 1
  {
    if n > 0 {
      AdvanceCloses(first, n - 1);
    }
  }

  lemma {:induction false} AdvanceShift(first: byte, n: nat)
    ensures Advance(NextSeqnum(first), n) == Advance(first, n + 1)
  {
    if n > 0 {
      AdvanceShift(first, n - 1);
    }
  }

  lemma InSequenceFromSecond(first: byte, ns: seq<byte>)
    requires ns != []
    ensures InSequence(first, ns) <==> ns[0] == first && InSequence(NextSeqnum(first), ns[1..])
  {
    forall i | 0 <= i < |ns| - 1
      ensures Advance(NextSeqnum(first), i) == Advance(first, i + 1)
      ensures ns[1..][i] == ns[i + 1]
    {
      AdvanceShift(first, i);
    }
    if ns[0] == first && InSequence(NextSeqnum(first), ns[1..]) {
      forall i | 1 <= i < |ns|
        ensures ns[i] == Advance(first, i)
      {
        assert ns[1..][i - 1] == ns[i];
      }
    }
  }

  // ------------------------------------------------------- who moves counters

  /** Both tables agree on every counter. */
  ghost predicate SameNumbers(t: Table, r: Table) {
    forall k :: SendNumber(t, k) == SendNumber(r, k) && Awaited(t, k) == Awaited(r, k)
  }

  lemma AskedSameNumbers(t: Table, k: Key)
    ensures SameNumbers(t, Asked(t, k))
  {
    AskedFrame(t, k);
  }

  lemma {:induction false} DrainSameNumbers(t: Table, k: Key, now: int)
    requires k in t
    ensures SameNumbers(t, Drain(t, k, now).0)
    decreases |t[k].held|
  {
    hide Asked;
    hide HasRoom;
    hide Expecting;
    hide Blocker;
    var n := t[k];
    AskedSameNumbers(t, k);
    if Blocker(t, k) == [] && n.held != [] && HasRoom(n, n.held[0]) {
      ExpectingFrame(n, n.held[0], now);
      DrainSameNumbers(t[k := Expecting(n, n.held[0], now).(held := n.held[1..])], k, now);
    }
  }

  lemma {:induction false} WakeSameNumbers(t: Table, k: Key, now: int)
    requires k in t && !t[k].stall
    ensures SameNumbers(t, Wake(t, k, now).0)
    decreases |t[k].affected|
  {
    hide Drain;
    hide Wake;
    hide Calls;
    WakeStep(t, k, now);
    if t[k].affected != [] {
      var w := t[k].affected[0];
      var popped := t[k := t[k].(affected := t[k].affected[1..])];
      if w in popped {
        DrainSameNumbers(popped, w, now);
        WakeSameNumbers(Drain(popped, w, now).0, k, now);
      } else {
        WakeSameNumbers(popped, k, now);
      }
    }
  }

  lemma SendSameNumbers(t: Table, m: Msg, now: int)
    ensures SameNumbers(t, TrySend(t, m, now).0)
  {
    hide Asked;
    hide HasRoom;
    hide SizeOf;
    var queried := Query(t, m.key);
    AskedFrame(queried, m.key);
    ExpectingFrame(Asked(queried, m.key)[m.key], m, now);
  }

  lemma UpdateSameNumbers(t: Table, k: Key, responseType: byte, now: int)
    requires TableOk(t)
    ensures SameNumbers(t, StateUpdate(t, k, responseType, now).0)
  {
    hide Drain;
    hide Scan;
    hide WindowOk;
    if k in t && t[k].responses != [] {
      ScanOk(t[k], 0, responseType, now);
      DrainSameNumbers(t[k := Scan(t[k], 0, responseType, now).node], k, now);
    }
  }

  lemma StallSameNumbers(t: Table, k: Key, status: byte, now: int)
    ensures SameNumbers(t, UpdateStall(t, k, status, now).0)
  {
    hide Wake;
    var queried := Query(t, k);
    if status == 0 {
      WakeSameNumbers(queried[k := queried[k].(stall := false)], k, now);
    }
  }

  /** Flow control never moves a counter. */
  lemma FlowKeepsNumbers(t: Table, r: Region)
    requires TableOk(t) && (r.Send? || r.Update? || r.Stall?)
    ensures SameNumbers(t, Enter(t, r))
  {
    hide TrySend;
    hide StateUpdate;
    hide UpdateStall;
    hide SameNumbers;
    hide TableOk;
    match r {
      case Send(m, now) => SendSameNumbers(t, m, now);
      case Update(k, responseType, now) => UpdateSameNumbers(t, k, responseType, now);
      case Stall(k, status, now) => StallSameNumbers(t, k, status, now);
    }
  }

  lemma OthersKeepAwaited(t: Table, r: Region, k: Key)
    requires TableOk(t) && !r.TakeReceiveNumber? && !r.SetReceiveNumber?
    ensures Awaited(Enter(t, r), k) == Awaited(t, k)
  {
    hide TrySend;
    hide StateUpdate;
    hide UpdateStall;
    hide TableOk;
    if !r.TakeSendNumber? {
      FlowKeepsNumbers(t, r);
    }
  }

  // --------------------------------------------------------- received numbers

  /**
   A message from node key. Its number is checked in up to two regions; other
   threads run regions of their own before the first and between the two.
   */
  datatype Arrival = Arrival(key: Key, seqnum: byte, before: seq<Region>, between: seq<Region>)

  ghost predicate ByOthers(rs: seq<Region>) {
    forall r :: r in rs ==> ValidRegion(r) && !r.TakeReceiveNumber? && !r.SetReceiveNumber?
  }

  ghost predicate ValidArrivals(arrivals: seq<Arrival>) {
    forall a :: a in arrivals ==> IsKey(a.key) && ByOthers(a.before) && ByOthers(a.between)
  }

  function RunOn(t: Table, rs: seq<Region>): Table {
    if rs == [] then t else Enter(RunOn(t, rs[..|rs| - 1]), rs[|rs| - 1])
  }

  /** The table afterwards, and whether the number was as awaited; 0 marks an unnumbered message. */
  function Checked(t: Table, a: Arrival): (Table, bool) {
    var start := RunOn(t, a.before);
    if a.seqnum == 0 then (start, true)
    else
      var (taken, awaited) := ReceiveNumberTaken(start, a.key);
      var interrupted := RunOn(taken, a.between);
      if a.seqnum != awaited then
        (ReceiveNumberSet(interrupted, a.key, if a.seqnum == 255 then 1 else a.seqnum + 1), false)
      else (interrupted, true)
  }

  /** No number in the stream was reported wrong. */
  predicate NoneWrong(t: Table, arrivals: seq<Arrival>)
    decreases |arrivals|
  {
    arrivals == [] || (var (r, right) := Checked(t, arrivals[0]); right && NoneWrong(r, arrivals[1..]))
  }

  function AllChecked(t: Table, arrivals: seq<Arrival>): Table
    decreases |arrivals|
  {
    if arrivals == [] then t else AllChecked(Checked(t, arrivals[0]).0, arrivals[1..])
  }

  /** The numbers received from node k, unnumbered messages apart. */
  function NumbersFrom(k: Key, arrivals: seq<Arrival>): seq<byte> {
    if arrivals == [] then []
    else
      var a := arrivals[0];
      (if a.key == k && a.seqnum != 0 then [a.seqnum] else []) + NumbersFrom(k, arrivals[1..])
  }

  lemma {:induction false} RunOnKeepsAwaited(t: Table, rs: seq<Region>)
    requires TableOk(t) && ByOthers(rs)
    ensures TableOk(RunOn(t, rs)) && forall k :: Awaited(RunOn(t, rs), k) == Awaited(t, k)
  {
    hide Enter;
    hide TableOk;
    hide ValidRegion;
    hide Awaited;
    if rs != [] {
      var front, last := rs[..|rs| - 1], rs[|rs| - 1];
      RunOnKeepsAwaited(t, front);
      EnterOk(RunOn(t, front), last);
      forall k
        ensures Awaited(Enter(RunOn(t, front), last), k) == Awaited(RunOn(t, front), k)
      {
        OthersKeepAwaited(RunOn(t, front), last, k);
      }
    }
  }

  lemma TakenAndSet(t: Table, k: Key, s: byte)
    ensures ReceiveNumberTaken(t, k).1 == Awaited(t, k)
    ensures var r := ReceiveNumberTaken(t, k).0;
      forall p :: Awaited(r, p) == if p == k then NextSeqnum(Awaited(t, k)) else Awaited(t, p)
    ensures forall p :: Awaited(ReceiveNumberSet(t, k, s), p) == if p == k then s else Awaited(t, p)
  {}

  /**
   Whatever other threads do meanwhile: a numbered message is right just when its
   number is the awaited one, and in either case the node's next awaited number
   is its successor. Unnumbered messages and other nodes' messages change nothing.
   */
  lemma CheckedMeans(t: Table, a: Arrival)
    requires TableOk(t) && ValidArrivals([a])
    ensures var (r, right) := Checked(t, a);
      && TableOk(r)
      && (right <==> a.seqnum == 0 || a.seqnum == Awaited(t, a.key))
      && forall k :: Awaited(r, k) == if k == a.key && a.seqnum != 0 then NextSeqnum(a.seqnum) else Awaited(t, k)
  {
    hide RunOn;
    hide TableOk;
    hide Awaited;
    hide ReceiveNumberTaken;
    hide ReceiveNumberSet;
    assert a in [a];
    RunOnKeepsAwaited(t, a.before);
    var start := RunOn(t, a.before);
    if a.seqnum != 0 {
      EnterOk(start, TakeReceiveNumber(a.key));
      TakenAndSet(start, a.key, a.seqnum);
      var taken := ReceiveNumberTaken(start, a.key).0;
      RunOnKeepsAwaited(taken, a.between);
      TakenAndSet(RunOn(taken, a.between), a.key, NextSeqnum(a.seqnum));
      EnterOk(RunOn(taken, a.between), SetReceiveNumber(a.key, NextSeqnum(a.seqnum)));
    }
  }

  /**
   A stream is accepted without complaint exactly when every node's numbers run
   on from the one awaited from it.
   */
  lemma {:induction false} NoneWrongExactly(t: Table, arrivals: seq<Arrival>)
    requires TableOk(t) && ValidArrivals(arrivals)
    ensures NoneWrong(t, arrivals) <==> forall k :: InSequence(Awaited(t, k), NumbersFrom(k, arrivals))
    decreases |arrivals|
  {
    hide Checked;
    hide Awaited;
    hide TableOk;
    hide InSequence;
    if arrivals == [] {
      forall k
        ensures InSequence(Awaited(t, k), [])
      {
        NothingInSequence(Awaited(t, k));
      }
    } else {
      var a := arrivals[0];
      CheckedMeans(t, a);
      var (r, right) := Checked(t, a);
      NoneWrongExactly(r, arrivals[1..]);
      forall k
        ensures InSequence(Awaited(t, k), NumbersFrom(k, arrivals))
          <==> (k == a.key ==> right) && InSequence(Awaited(r, k), NumbersFrom(k, arrivals[1..]))
      {
        var ns := NumbersFrom(k, arrivals);
        if k == a.key && a.seqnum != 0 {
          assert ns[1..] == NumbersFrom(k, arrivals[1..]);
          InSequenceFromSecond(Awaited(t, k), ns);
        } else {
          assert ns == NumbersFrom(k, arrivals[1..]);
        }
      }
    }
  }

  lemma NothingInSequence(first: byte)
    ensures InSequence(first, [])
  {}

  lemma {:induction false} AllCheckedOk(t: Table, arrivals: seq<Arrival>)
    requires TableOk(t) && ValidArrivals(arrivals)
    ensures TableOk(AllChecked(t, arrivals))
    decreases |arrivals|
  {
    hide Checked;
    hide TableOk;
    if arrivals != [] {
      CheckedMeans(t, arrivals[0]);
      AllCheckedOk(Checked(t, arrivals[0]).0, arrivals[1..]);
    }
  }

  lemma {:induction false} AllCheckedAppend(t: Table, arrivals: seq<Arrival>, a: Arrival)
    ensures AllChecked(t, arrivals + [a]) == Checked(AllChecked(t, arrivals), a).0
    decreases |arrivals|
  {
    hide Checked;
    if arrivals == [] {
      assert AllChecked(Checked(t, a).0, []) == Checked(t, a).0;
      assert [a][1..] == [] && [] + [a] == [a];
    } else {
      assert (arrivals + [a])[1..] == arrivals[1..] + [a];
      AllCheckedAppend(Checked(t, arrivals[0]).0, arrivals[1..], a);
    }
  }

  /** However many messages of a node were lost, one that arrives repairs the tracking. */
  lemma OneMessageRepairs(t: Table, earlier: seq<Arrival>, a: Arrival, later: seq<Arrival>)
    requires TableOk(t) && ValidArrivals(earlier) && ValidArrivals([a]) && ValidArrivals(later)
    requires a.seqnum != 0 && forall b :: b in later ==> b.key == a.key || b.seqnum == 0
    ensures NoneWrong(AllChecked(t, earlier + [a]), later) <==>
      InSequence(NextSeqnum(a.seqnum), NumbersFrom(a.key, later))
  {
    hide Checked;
    hide TableOk;
    hide Awaited;
    hide InSequence;
    hide NextSeqnum;
    hide ValidArrivals;
    AllCheckedOk(t, earlier);
    AllCheckedAppend(t, earlier, a);
    var r := AllChecked(t, earlier + [a]);
    CheckedMeans(AllChecked(t, earlier), a);
    NoneWrongExactly(r, later);
    forall k | k != a.key
      ensures InSequence(Awaited(r, k), NumbersFrom(k, later))
    {
      NothingFrom(k, later);
      NothingInSequence(Awaited(r, k));
    }
  }

  lemma {:induction false} NothingFrom(k: Key, arrivals: seq<Arrival>)
    requires forall b :: b in arrivals ==> b.key != k || b.seqnum == 0
    ensures NumbersFrom(k, arrivals) == []
  {
    if arrivals != [] {
      assert arrivals[0] in arrivals;
      NothingFrom(k, arrivals[1..]);
    }
  }

  /** The receiver's check of one message, when no other thread interferes. */
  method CheckNumber(nodes: NodeStateTable, addrStack: seq<byte>, msgSeqnum: byte) returns (right: bool)
    requires IsStack(addrStack)
    modifies nodes`table
    ensures (nodes.table, right) == Checked(old(nodes.table), Arrival(KeyOf(addrStack), msgSeqnum, [], []))
  {
    right := true;
    if msgSeqnum != 0 {
      var expectedSeqnum := nodes.GetAndIncrReceiveSeqnum(addrStack);
      if msgSeqnum != expectedSeqnum {
        right := false;
        if msgSeqnum == 255 {
          nodes.SetReceiveSeqnum(addrStack, 1);
        } else {
          nodes.SetReceiveSeqnum(addrStack, msgSeqnum + 1);
        }
      }
    }
  }

  // ------------------------------------------------------------- sent numbers

  function Seqnums(ms: seq<Msg>): (ns: seq<byte>)
    ensures |ns| == |ms| && forall i :: 0 <= i < |ms| ==> ns[i] == ms[i].seqnum
  {
    seq(|ms|, i requires 0 <= i < |ms| => ms[i].seqnum)
  }

  /** Sends to k carry numbers, and none is skipped. */
  predicate Numbered(k: Key, steps: seq<Step>) {
    forall step :: step in steps ==> (step.Take? && step.key == k ==> step.numbered) && step != SkipNumber(k)
  }

  /** From the run before on, at no time are two sends to k under way. */
  ghost predicate NeverInterleaved(before: seq<Step>, steps: seq<Step>, k: Key)
    requires Legal(before + steps)
    decreases |steps|
  {
    && Alone(After(before + steps), Everyone, k)
    && (steps == [] || (StepsBack(before, steps, |steps| - 1); NeverInterleaved(before, steps[..|steps| - 1], k)))
  }

  /** The first n steps behind a run are legal too. */
  lemma StepsBack(before: seq<Step>, steps: seq<Step>, n: nat)
    requires Legal(before + steps) && n <= |steps|
    ensures Legal(before + steps[..n])
  {
    assert before + steps == (before + steps[..n]) + steps[n..];
    LegalPrefix(before + steps[..n], steps[n..]);
  }

  lemma StepNumbers(s: System, step: Step, k: Key)
    requires Enabled(s, step) && Sound(s) && Numbered(k, [step])
    ensures var r := StepOf(s, step);
      if step.Take? && step.key == k then
        && Sel(Everyone, k, r.issued) == Sel(Everyone, k, s.issued) + [r.issued[|s.issued|]]
        && r.issued[|s.issued|].seqnum == SendNumber(s.table, k)
        && SendNumber(r.table, k) == NextSeqnum(SendNumber(s.table, k))
      else
        Sel(Everyone, k, r.issued) == Sel(Everyone, k, s.issued) && SendNumber(r.table, k) == SendNumber(s.table, k)
  {
    hide Sel;
    hide TableOk;
    hide BytesOf;
    hide TrySend;
    hide Enter;
    hide Fine;
    hide LineOk;
    hide InThreadOrder;
    hide NextSeqnum;
    assert step in [step];
    match step {
      case Take(_, _, _, _, _, _) =>
        var r := StepOf(s, step);
        SelAppend(Everyone, k, s.issued, r.issued[|s.issued|]);
      case Try(thread, now) => SendKeepsNumber(s.table, s.flights[FlightOf(s.flights, thread)].msg, now, k);
      case Locked(region) => LockedKeepsNumber(s.table, region, k);
      case _ =>
    }
  }

  lemma SendKeepsNumber(t: Table, m: Msg, now: int, k: Key)
    requires TableOk(t)
    ensures SendNumber(TrySend(t, m, now).0, k) == SendNumber(t, k)
  {
    hide TableOk;
    hide TrySend;
    FlowKeepsNumbers(t, Send(m, now));
  }

  lemma LockedKeepsNumber(t: Table, r: Region, k: Key)
    requires TableOk(t) && !r.TakeSendNumber?
    ensures SendNumber(Enter(t, r), k) == SendNumber(t, k)
  {
    hide TrySend;
    hide StateUpdate;
    hide UpdateStall;
    hide TableOk;
    if r.Send? || r.Update? || r.Stall? {
      FlowKeepsNumbers(t, r);
    }
  }

  /** The numbers taken for node k after a run are the successors of its counter, in the order taken. */
  lemma {:induction false} TakenInSequence(before: seq<Step>, steps: seq<Step>, k: Key)
    requires Legal(before) && Legal(before + steps) && Numbered(k, steps)
    requires Sel(Everyone, k, After(before).issued) == []
    ensures var s, first := After(before + steps), SendNumber(After(before).table, k);
      var numbers := Seqnums(Sel(Everyone, k, s.issued));
      InSequence(first, numbers) && SendNumber(s.table, k) == Advance(first, |numbers|)
    decreases |steps|
  {
    hide StepOf;
    hide Enabled;
    hide Sel;
    hide Sound;
    hide SendNumber;
    hide NextSeqnum;
    hide Legal;
    hide After;
    if steps == [] {
      assert before + steps == before;
    } else {
      var n := |steps| - 1;
      OneStepOn(before, steps);
      TakenInSequence(before, steps[..n], k);
      AlwaysSound(before + steps[..n]);
      StepNumbers(After(before + steps[..n]), steps[n], k);
    }
  }

  /** Where nothing was issued to k, nothing stands in line for it. */
  lemma NothingIssued(s: System, k: Key)
    requires Sound(s) && Sel(Everyone, k, s.issued) == []
    ensures InOrder(s, Everyone, k) && Alone(s, Everyone, k)
  {
    hide Sel;
    hide MessagesIn;
    hide TableOk;
    hide FlightsOk;
    hide LineOk;
    hide InThreadOrder;
    forall m | m in s.log || m in MessagesIn(s.owed) || m in Held(s.table, k) || m in FlightMsgs(s.flights)
      ensures !Picks(Everyone, k, m)
    {
      if Picks(Everyone, k, m) {
        UnderWayWasIssued(s, m);
        SelMember(Everyone, k, s.issued, m);
      }
    }
    SelNone(Everyone, k, s.log);
    SelNone(Everyone, k, MessagesIn(s.owed));
    SelNone(Everyone, k, Held(s.table, k));
    SelNone(Everyone, k, FlightMsgs(s.flights));
    forall f | f in s.flights
      ensures !Picks(Everyone, k, f.msg)
    {
      var i :| 0 <= i < |s.flights| && s.flights[i] == f;
      assert FlightMsgs(s.flights)[i] == f.msg;
    }
  }

  /** While no two sends to k are under way the order of all threads' messages to k is kept. */
  lemma {:induction false} OrderWhenAlone(before: seq<Step>, steps: seq<Step>, k: Key)
    requires Legal(before) && Legal(before + steps) && Sel(Everyone, k, After(before).issued) == []
    requires NeverInterleaved(before, steps, k)
    ensures InOrder(After(before + steps), Everyone, k)
    decreases |steps|
  {
    hide StepOf;
    hide Enabled;
    hide Sel;
    hide Alone;
    hide TableOk;
    hide InOrder;
    AlwaysSound(before);
    NothingIssued(After(before), k);
    if steps == [] {
      assert before + steps == before;
    } else {
      OneStepOn(before, steps);
      var front := steps[..|steps| - 1];
      OrderWhenAlone(before, front, k);
      AlwaysSound(before + front);
      StepInOrder(After(before + front), steps[|steps| - 1], Everyone, k);
    }
  }

  lemma OneStepOn(before: seq<Step>, steps: seq<Step>)
    requires Legal(before + steps) && steps != []
    ensures var front, step := steps[..|steps| - 1], steps[|steps| - 1];
      && Legal(before + front) && Enabled(After(before + front), step)
      && After(before + steps) == StepOf(After(before + front), step)
  {
    hide StepOf;
    hide Enabled;
    var run := before + steps;
    assert run[..|run| - 1] == before + steps[..|steps| - 1] && run[|run| - 1] == steps[|steps| - 1];
  }

  /**
   If no two sends to a node are ever under way together, the numbers of all its
   messages given to the send buffer run on from its counter without a gap, so a
   node that awaits the first of them finds none wrong.
   */
  lemma GlobalOrder(before: seq<Step>, steps: seq<Step>, k: Key)
    requires Legal(before) && Legal(before + steps) && Numbered(k, steps)
    requires Sel(Everyone, k, After(before).issued) == []
    requires NeverInterleaved(before, steps, k)
    ensures InSequence(SendNumber(After(before).table, k), Seqnums(Sel(Everyone, k, After(before + steps).log)))
  {
    hide Sel;
    hide SendNumber;
    var s := After(before + steps);
    TakenInSequence(before, steps, k);
    OrderWhenAlone(before, steps, k);
    var sent, all := Sel(Everyone, k, s.log), Sel(Everyone, k, s.issued);
    assert forall i :: 0 <= i < |sent| ==> all[i] == sent[i];
  }

  // ------------------------------------------- exactly when the numbers are safe

  /** The numbers of all messages in line for k, from the wire back to the senders' hands, run on from the first. */
  ghost predicate NumbersRunOn(s: System, k: Key, first: byte) {
    InSequence(first, Seqnums(Line(s, Everyone, k)))
  }

  /** Whatever else happens from any point of the run on, without a new send to k, its numbers stay in sequence. */
  ghost predicate NumbersSafe(before: seq<Step>, steps: seq<Step>, k: Key, first: byte) {
    forall n, more :: 0 <= n <= |steps| && Continues(before + steps[..n], k, more) ==>
      NumbersRunOn(After(before + steps[..n] + more), k, first)
  }

  lemma {:induction false} NothingMoreIssued(steps: seq<Step>, k: Key, more: seq<Step>)
    requires Legal(steps) && Continues(steps, k, more)
    ensures Sel(Everyone, k, After(steps + more).issued) == Sel(Everyone, k, After(steps).issued)
    decreases |more|
  {
    hide StepOf;
    hide Enabled;
    hide Sel;
    hide Alone;
    if more == [] {
      assert steps + more == steps;
    } else {
      OneStepOn(steps, more);
      NothingMoreIssued(steps, k, more[..|more| - 1]);
      AloneStays(After(steps + more[..|more| - 1]), more[|more| - 1], k);
    }
  }

  lemma OvertakenIsOutOfSequence(s: System, k: Key, first: byte)
    requires Overtaken(s, k) && InSequence(first, Seqnums(Sel(Everyone, k, s.issued)))
    ensures !NumbersRunOn(s, k, first)
  {
    hide Line;
    hide Sel;
    var line, issued := Line(s, Everyone, k), Sel(Everyone, k, s.issued);
    var n :| 0 <= n < |line| && n + 1 < |issued| && line[n] == issued[n + 1] && line[n].sender != issued[n].sender;
    assert Seqnums(issued)[n + 1] == Advance(first, n + 1);
    assert Seqnums(line)[n] == NextSeqnum(Advance(first, n)) != Advance(first, n);
  }

  lemma {:induction false} NeverInterleavedBack(before: seq<Step>, steps: seq<Step>, k: Key, n: nat)
    requires Legal(before + steps) && NeverInterleaved(before, steps, k) && n <= |steps|
    ensures Legal(before + steps[..n]) && NeverInterleaved(before, steps[..n], k)
    decreases |steps|
  {
    hide Alone;
    hide Legal;
    hide After;
    StepsBack(before, steps, n);
    if n < |steps| {
      var front := steps[..|steps| - 1];
      StepsBack(before, steps, |steps| - 1);
      NeverInterleavedBack(before, front, k, n);
      assert front[..n] == steps[..n];
    } else {
      assert steps[..n] == steps;
    }
  }

  lemma NumberedBack(k: Key, steps: seq<Step>, n: nat)
    requires Numbered(k, steps) && n <= |steps|
    ensures Numbered(k, steps[..n])
  {}

  lemma SerialisedIsSafe(before: seq<Step>, steps: seq<Step>, k: Key)
    requires Legal(before) && Legal(before + steps) && Numbered(k, steps)
    requires Sel(Everyone, k, After(before).issued) == [] && NeverInterleaved(before, steps, k)
    ensures NumbersSafe(before, steps, k, SendNumber(After(before).table, k))
  {
    hide Legal;
    hide After;
    hide Sel;
    hide Alone;
    hide SendNumber;
    hide Numbered;
    hide InSequence;
    hide NoNewSends;
    hide NeverInterleaved;
    var first := SendNumber(After(before).table, k);
    forall n, more | 0 <= n <= |steps| && Continues(before + steps[..n], k, more)
      ensures NumbersRunOn(After(before + steps[..n] + more), k, first)
    {
      NeverInterleavedBack(before, steps, k, n);
      NumberedBack(k, steps, n);
      OrderWhenAlone(before, steps[..n], k);
      AloneNow(before, steps[..n], k);
      OrderSurvives(before + steps[..n], k, more);
      NothingMoreIssued(before + steps[..n], k, more);
      TakenInSequence(before, steps[..n], k);
    }
  }

  lemma AloneNow(before: seq<Step>, steps: seq<Step>, k: Key)
    requires Legal(before + steps) && NeverInterleaved(before, steps, k)
    ensures Alone(After(before + steps), Everyone, k)
  {}

  lemma {:induction false} SafeIsSerialised(before: seq<Step>, steps: seq<Step>, k: Key)
    requires Legal(before) && Legal(before + steps) && Numbered(k, steps)
    requires Sel(Everyone, k, After(before).issued) == []
    requires NumbersSafe(before, steps, k, SendNumber(After(before).table, k))
    ensures NeverInterleaved(before, steps, k)
    decreases |steps|
  {
    hide StepOf;
    hide Enabled;
    hide Sel;
    hide Alone;
    hide SendNumber;
    hide NoNewSends;
    hide NumbersRunOn;
    hide InOrder;
    hide TableOk;
    AlwaysSound(before);
    NothingIssued(After(before), k);
    if steps == [] {
      assert before + steps == before;
    } else {
      var front := steps[..|steps| - 1];
      OneStepOn(before, steps);
      assert forall n :: 0 <= n <= |front| ==> front[..n] == steps[..n];
      NumberedBack(k, steps, |front|);
      SafeIsSerialised(before, front, k);
      OrderWhenAlone(before, front, k);
      AlwaysSound(before + front);
      StepInOrder(After(before + front), steps[|steps| - 1], Everyone, k);
      assert steps[..|steps|] == steps;
      if !Alone(After(before + steps), Everyone, k) {
        var more := OrderBreaks(before + steps, k);
        TakenInSequence(before, steps, k);
        NothingMoreIssued(before + steps, k, more);
        OvertakenIsOutOfSequence(After(before + steps + more), k, SendNumber(After(before).table, k));
      }
    }
  }

  /**
   Exactly when concurrent sends keep the numbers of a node in sequence: no two sends to
   it are ever under way together, if and only if from every point of the run, however
   it goes on without a new send to the node, the numbers in line for it stay in sequence.
   */
  lemma SerialisedExactly(before: seq<Step>, steps: seq<Step>, k: Key)
    requires Legal(before) && Legal(before + steps) && Numbered(k, steps)
    requires Sel(Everyone, k, After(before).issued) == []
    ensures NeverInterleaved(before, steps, k) <==> NumbersSafe(before, steps, k, SendNumber(After(before).table, k))
  {
    hide Legal;
    hide After;
    hide Sel;
    hide SendNumber;
    hide NeverInterleaved;
    hide NumbersSafe;
    if NeverInterleaved(before, steps, k) {
      SerialisedIsSafe(before, steps, k);
    }
    if NumbersSafe(before, steps, k, SendNumber(After(before).table, k)) {
      SafeIsSerialised(before, steps, k);
    }
  }

  /** The number skipped after a reset: the first message to the interface then carries 2. */
  lemma SkippedNumber(k: Key)
    requires IsKey(k)
    ensures Legal([SkipNumber(k)]) && SendNumber(After([SkipNumber(k)]).table, k) == 2
  {
    assert [SkipNumber(k)][..0] == [];
  }

  /**
   Every restart of discovery skips a number again. From then on the number skipped is
   missing: the next message carries the one behind it, and a node that awaited the
   skipped one reports it wrong.
   */
  lemma SkipIsReported(s: System, k: Key, thread: nat, msgType: byte, data: seq<byte>, actionId: nat,
                       peer: Table, from: Key)
    requires Sound(s) && Enabled(s, SkipNumber(k))
    requires Enabled(s, Take(thread, k, msgType, data, actionId, true))
    requires TableOk(peer) && IsKey(from) && Awaited(peer, from) == SendNumber(s.table, k)
    ensures var skipped := StepOf(s, SkipNumber(k));
      && Enabled(skipped, Take(thread, k, msgType, data, actionId, true))
      && var sent := StepOf(skipped, Take(thread, k, msgType, data, actionId, true)).issued[|s.issued|];
      && sent.key == k && sent.seqnum == NextSeqnum(SendNumber(s.table, k))
      && !Checked(peer, Arrival(from, sent.seqnum, [], [])).1
  {
    hide TableOk;
    hide Checked;
    hide LineOk;
    hide InThreadOrder;
    var skipped := StepOf(s, SkipNumber(k));
    var sent := StepOf(skipped, Take(thread, k, msgType, data, actionId, true)).issued[|s.issued|];
    assert sent.seqnum == NextSeqnum(SendNumber(s.table, k));
    assert SendNumber(s.table, k) != 0 by { CountersNotZero(s.table, k); }
    CheckedMeans(peer, Arrival(from, sent.seqnum, [], []));
  }

  lemma CountersNotZero(t: Table, k: Key)
    requires TableOk(t)
    ensures SendNumber(t, k) != 0
  {}

  /** Two threads take numbers 1 and 2 for one node, and the second overtakes the first. */
  const OVERTAKING: seq<Step> := [
    Take(1, [1], 2, [], 0, true), Take(2, [1], 2, [], 0, true), Try(2, 0), Put(2), Try(1, 0), Put(1)]

  /** A run of one more step. */
  lemma OneMore(steps: seq<Step>, n: nat)
    requires n < |steps| && Legal(steps[..n]) && Enabled(After(steps[..n]), steps[n])
    ensures Legal(steps[..n + 1]) && After(steps[..n + 1]) == StepOf(After(steps[..n]), steps[n])
  {
    hide Enabled;
    hide StepOf;
    assert steps[..n + 1][..n] == steps[..n];
  }

  /** A node with an empty window, nothing held and no stall lets a message pass. */
  lemma Passes(t: Table, m: Msg, now: int)
    requires IsKey(m.key) && m.key in t && t[m.key].held == [] && t[m.key].responseBytes + 40 <= RESPONSE_LIMIT
    requires forall p :: p in t ==> !t[p].stall
    ensures var (r, passed) := TrySend(t, m, now);
      && passed && r.Keys == t.Keys && r[m.key].held == []
      && r[m.key].responseBytes == t[m.key].responseBytes + SizeOf(m.msgType)
      && forall p :: p in r ==> !r[p].stall
  {
    hide ResponseInfo;
    SizesAreSmall(m.msgType);
    assert Blocker(t, m.key) == [];
    HeldAfterExpecting(t[m.key], m, now);
  }

  lemma SmallResponse()
    ensures SizeOf(2) <= 8
  {}

  const FIRST := Msg(1, [1], 1, 2, [], 0)
  const SECOND := Msg(2, [1], 2, 2, [], 0)

  lemma BothNumbered()
    ensures Legal(OVERTAKING[..2])
    ensures var s := After(OVERTAKING[..2]);
      && s.flights == [Flight(1, false, FIRST), Flight(2, false, SECOND)] && s.owed == [] && s.log == []
      && s.table == map[[1] := FRESH.(sendSeqnum := 3)]
  {
    EmptyRun();
    assert OVERTAKING[..0] == [];
    OneMore(OVERTAKING, 0);
    OneMore(OVERTAKING, 1);
  }

  /** A send that flow control lets pass reaches the buffer in the thread's next step. */
  lemma TriedAndPut(s: System, i: nat)
    requires i < |s.flights| && s.owed == [] && !s.flights[i].cleared && Fine(s.flights[i].msg)
    requires FlightOf(s.flights, s.flights[i].thread) == i && TrySend(s.table, s.flights[i].msg, 0).1
    ensures var t := s.flights[i].thread;
      && Enabled(s, Try(t, 0)) && Enabled(StepOf(s, Try(t, 0)), Put(t))
      && var r := StepOf(StepOf(s, Try(t, 0)), Put(t));
      && r.flights == Without(s.flights, i) && r.log == s.log + [s.flights[i].msg] && r.owed == []
      && r.table == TrySend(s.table, s.flights[i].msg, 0).0
  {
    hide TrySend;
    hide BytesOf;
    hide Added;
    var fs := s.flights[i := s.flights[i].(cleared := true)];
    var t := s.flights[i].thread;
    var j := FlightOf(fs, t);
    assert fs[i].thread == t && (forall k :: 0 <= k < |fs| ==> fs[k].thread == s.flights[k].thread);
    assert j == i;
  }

  lemma SentInRun(steps: seq<Step>, n: nat, i: nat)
    requires n + 2 <= |steps| && Legal(steps[..n])
    requires var s := After(steps[..n]);
      && i < |s.flights| && s.owed == [] && !s.flights[i].cleared && Fine(s.flights[i].msg)
      && FlightOf(s.flights, s.flights[i].thread) == i && TrySend(s.table, s.flights[i].msg, 0).1
      && steps[n] == Try(s.flights[i].thread, 0) && steps[n + 1] == Put(s.flights[i].thread)
    ensures Legal(steps[..n + 2])
    ensures var s, r := After(steps[..n]), After(steps[..n + 2]);
      && r.flights == Without(s.flights, i) && r.log == s.log + [s.flights[i].msg] && r.owed == []
      && r.table == TrySend(s.table, s.flights[i].msg, 0).0
  {
    hide Enabled;
    hide StepOf;
    hide Legal;
    hide After;
    hide TrySend;
    hide Fine;
    hide FlightOf;
    TriedAndPut(After(steps[..n]), i);
    OneMore(steps, n);
    OneMore(steps, n + 1);
  }

  lemma SecondSent()
    ensures Legal(OVERTAKING[..4])
    ensures var s := After(OVERTAKING[..4]);
      && s.flights == [Flight(1, false, FIRST)] && s.owed == [] && s.log == [SECOND]
      && TrySend(s.table, FIRST, 0).1
  {
    hide TrySend;
    hide SizeOf;
    hide Legal;
    hide After;
    SmallResponse();
    BothNumbered();
    BothFine();
    var s := After(OVERTAKING[..2]);
    assert s.flights[1].thread == 2 && FlightOf(s.flights, 2) == 1;
    Passes(s.table, SECOND, 0);
    SentInRun(OVERTAKING, 2, 1);
    Passes(After(OVERTAKING[..4]).table, FIRST, 0);
  }

  /** Interleaved sends to one node: the numbers arrive as 2, 1, though none was skipped. */
  lemma OvertakingBreaksOrder()
    ensures Legal(OVERTAKING) && Numbered([1], OVERTAKING)
    ensures Seqnums(Sel(Everyone, [1], After(OVERTAKING).log)) == [2, 1]
  {
    hide TrySend;
    hide Sel;
    hide Legal;
    hide After;
    SecondSent();
    BothFine();
    assert FlightOf(After(OVERTAKING[..4]).flights, 1) == 0;
    SentInRun(OVERTAKING, 4, 0);
    assert OVERTAKING[..6] == OVERTAKING;
    assert After(OVERTAKING).log == [SECOND] + [FIRST];
    SelConcat(Everyone, [1], [SECOND], [FIRST]);
    SelOne(Everyone, [1], FIRST);
    SelOne(Everyone, [1], SECOND);
  }

  lemma BothFine()
    ensures Fine(FIRST) && Fine(SECOND)
  {}

  lemma EmptyRun()
    ensures Legal([]) && After([]) == INITIAL
  {}
}
