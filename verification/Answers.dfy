/**
 Which message an answer belongs to: the response queue of a node holds, in order, the
 messages that passed to it and expect an answer, less those answered or lapsed, and an
 answer yields the action id of the message it answers.
 */
module Answers {
  import opened Bytes
  import opened Messages
  import opened Responses
  import opened NodeStates
  import opened FlowControl
  import opened Wakeups

  /** The entries for those messages to node k that expect an answer. */
  function Entries(ms: seq<Msg>, k: Key, now: int): seq<Expected> {
    if ms == [] then []
    else
      var m := ms[|ms| - 1];
      Entries(ms[..|ms| - 1], k, now) +
      if m.key == k && ResponseInfo(m.msgType).types != [] then [Expected(m.msgType, now, m.actionId)] else []
  }

  /** When a region is entered; the others pass no messages. */
  function TimeOf(r: Region): int {
    if r.Send? || r.Update? || r.Stall? then r.now else 0
  }

  /** All messages that passed to node k and expect an answer, in the order they passed. */
  function Awaited(rs: seq<Region>, k: Key): seq<Expected> {
    if rs == [] then []
    else
      var before, r := rs[..|rs| - 1], rs[|rs| - 1];
      Awaited(before, k) + Entries(Passed(RunTable(before), r), k, TimeOf(r))
  }

  /** How many entries at the front a region takes off: those that lapse, and the one behind them if it is answered. */
  function TakenOff(es: seq<Expected>, k: Key, r: Region): (n: nat)
    ensures n <= |es|
  {
    if r.Update? && r.key == k then TakenBy(es, r.responseType, r.now) else 0
  }

  function TakenBy(es: seq<Expected>, responseType: byte, now: int): (n: nat)
    ensures n <= |es|
  {
    var d := Lapsed(es, 0, responseType, now);
    if AnsweredBehind(es, d, 0, responseType) then d + 1 else d
  }

  /** The answers still due from node k. */
  function Due(rs: seq<Region>, k: Key): seq<Expected> {
    if rs == [] then []
    else
      var before, r := rs[..|rs| - 1], rs[|rs| - 1];
      var es := Due(before, k);
      es[TakenOff(es, k, r)..] + Entries(Passed(RunTable(before), r), k, TimeOf(r))
  }

  /** How many entries were answered or lapsed so far. */
  function Done(rs: seq<Region>, k: Key): nat {
    if rs == [] then 0
    else
      var before, r := rs[..|rs| - 1], rs[|rs| - 1];
      Done(before, k) + TakenOff(Due(before, k), k, r)
  }

  /** The action id of the entry that a message answers: the first that does not lapse, if it is answered. */
  function IdAnswered(es: seq<Expected>, responseType: byte, now: int): nat {
    var d := Lapsed(es, 0, responseType, now);
    if AnsweredBehind(es, d, 0, responseType) then es[d].actionId else 0
  }

  function QueueOf(t: Table, k: Key): seq<Expected> {
    if k in t then t[k].responses else []
  }

  /** What is due is what was awaited, less the entries done. */
  lemma {:induction false} DueIsRest(rs: seq<Region>, k: Key)
    ensures Done(rs, k) <= |Awaited(rs, k)| && Due(rs, k) == Awaited(rs, k)[Done(rs, k)..]
  {
    hide Entries;
    hide TakenOff;
    hide RunTable;
    hide Passed;
    if rs != [] {
      DueIsRest(rs[..|rs| - 1], k);
    }
  }

  lemma {:induction false} EntriesConcat(a: seq<Msg>, b: seq<Msg>, k: Key, now: int)
    ensures Entries(a + b, k, now) == Entries(a, k, now) + Entries(b, k, now)
  {
    hide ResponseInfo;
    if b == [] {
      assert a + b == a;
    } else {
      assert (a + b)[..|a + b| - 1] == a + b[..|b| - 1];
      EntriesConcat(a, b[..|b| - 1], k, now);
    }
  }

  lemma {:induction false} EntriesForOthers(ms: seq<Msg>, k: Key, now: int)
    requires forall m :: m in ms ==> m.key != k
    ensures Entries(ms, k, now) == []
  {
    hide ResponseInfo;
    if ms != [] {
      EntriesForOthers(ms[..|ms| - 1], k, now);
    }
  }

  /** A message that passes adds its entry to its node. */
  lemma ExpectingAdds(n: Node, m: Msg, now: int)
    ensures Expecting(n, m, now).responses == n.responses + Entries([m], m.key, now)
  {
    hide ResponseInfo;
    SizesAreSmall(m.msgType);
    assert [m][..0] == [];
    assert n.responses + [] == n.responses;
  }

  lemma {:induction false} DrainAdds(t: Table, k: Key, now: int, q: Key)
    requires NodesOk(t) && k in t
    ensures var (r, sent) := Drain(t, k, now);
      QueueOf(r, q) == QueueOf(t, q) + Entries(sent, q, now)
    decreases |t[k].held|
  {
    hide Asked;
    hide Blocker;
    hide SizeOf;
    hide HasRoom;
    hide WindowOk;
    hide Expecting;
    hide Entries;
    hide Drain;
    var n := t[k];
    AskedFrame(t, k);
    DrainStep(t, k, now);
    EntriesForOthers([], q, now);
    if Blocker(t, k) == [] && n.held != [] && HasRoom(n, n.held[0]) {
      var m := n.held[0];
      var next := t[k := Expecting(n, m, now).(held := n.held[1..])];
      assert m in n.held;
      ExpectingOk(n, m, now);
      ExpectingAdds(n, m, now);
      assert forall h :: h in n.held[1..] ==> h in n.held;
      DrainAdds(next, k, now, q);
      var sent := Drain(next, k, now).1;
      EntriesConcat([m], sent, q, now);
      if q != k {
        EntriesForOthers([m], q, now);
      }
    }
  }

  lemma {:induction false} WakeAdds(t: Table, k: Key, now: int, q: Key)
    requires NodesOk(t) && k in t && !t[k].stall
    ensures var (r, made) := Wake(t, k, now);
      QueueOf(r, q) == QueueOf(t, q) + Entries(MessagesIn(made), q, now)
    decreases |t[k].affected|
  {
    hide Drain;
    hide Wake;
    hide Calls;
    hide NodesOk;
    hide MessagesIn;
    hide Entries;
    WakeStep(t, k, now);
    EntriesForOthers([], q, now);
    if t[k].affected == [] {
      assert MessagesIn([]) == [] by { MessagesInCalls([]); NoCalls(); }
    } else {
      var w := t[k].affected[0];
      var popped := t[k := t[k].(affected := t[k].affected[1..])];
      var (drained, sent) := if w in popped then Drain(popped, w, now) else (popped, []);
      QueuePoppedOk(t, k);
      assert QueueOf(popped, q) == QueueOf(t, q);
      if w in popped {
        DrainOk(popped, w, now);
        DrainAdds(popped, w, now, q);
      }
      WakeAdds(drained, k, now, q);
      var made := Wake(drained, k, now).1;
      MessagesInConcat(Calls(sent), made);
      MessagesInCalls(sent);
      EntriesConcat(sent, MessagesIn(made), q, now);
    }
  }

  lemma SendAdds(t: Table, m: Msg, now: int, q: Key)
    ensures var r := Send(m, now);
      QueueOf(Enter(t, r), q) == QueueOf(t, q) + Entries(Passed(t, r), q, now)
  {
    hide Asked;
    hide Blocker;
    hide HasRoom;
    hide Expecting;
    hide Entries;
    var queried := Query(t, m.key);
    AskedFrame(queried, m.key);
    ExpectingAdds(Asked(queried, m.key)[m.key], m, now);
    EntriesForOthers([], q, now);
    if q != m.key {
      EntriesForOthers([m], q, now);
    }
  }

  /** The scan takes off what lapses and what is answered, and yields the id of the entry answered. */
  lemma ScanTakes(n: Node, responseType: byte, now: int)
    requires n.responses != []
    ensures var s := Scan(n, 0, responseType, now);
      && s.node.responses == n.responses[TakenBy(n.responses, responseType, now)..]
      && s.actionId == IdAnswered(n.responses, responseType, now) && (s.matched || s.actionId == 0)
  {
    hide Scan;
    hide Reserved;
    hide Lapsed;
    hide AnswersFrom;
    ScanIs(n, 0, responseType, now);
  }

  lemma UpdateYields(t: Table, k: Key, responseType: byte, now: int)
    ensures StateUpdate(t, k, responseType, now).2 == IdAnswered(QueueOf(t, k), responseType, now)
  {
    hide Drain;
    hide Scan;
    hide AnswersFrom;
    if k in t && t[k].responses != [] {
      ScanTakes(t[k], responseType, now);
    }
  }

  lemma UpdateAdds(t: Table, k: Key, responseType: byte, now: int, q: Key)
    requires TableOk(t)
    ensures var r := Update(k, responseType, now);
      QueueOf(Enter(t, r), q) == QueueOf(t, q)[TakenOff(QueueOf(t, q), q, r)..] + Entries(Passed(t, r), q, now)
  {
    hide Drain;
    hide Scan;
    hide TakenBy;
    hide Entries;
    hide MessagesIn;
    hide Calls;
    hide TableOk;
    hide NodesOk;
    EntriesForOthers([], q, now);
    MessagesInCalls(StateUpdate(t, k, responseType, now).1);
    if k in t && t[k].responses != [] {
      var n := Scan(t[k], 0, responseType, now).node;
      ScanTakes(t[k], responseType, now);
      ScanLeavesOk(t, k, responseType, now);
      DrainAdds(t[k := n], k, now, q);
    } else {
      assert TakenBy([], responseType, now) == 0;
    }
  }

  lemma ScanLeavesOk(t: Table, k: Key, responseType: byte, now: int)
    requires TableOk(t) && k in t && t[k].responses != []
    ensures NodesOk(t[k := Scan(t[k], 0, responseType, now).node])
  {
    hide WindowOk;
    hide Scan;
    ScanOk(t[k], 0, responseType, now);
  }

  lemma EnterAdds(t: Table, r: Region, q: Key)
    requires TableOk(t) && ValidRegion(r)
    ensures QueueOf(Enter(t, r), q) ==
      QueueOf(t, q)[TakenOff(QueueOf(t, q), q, r)..] + Entries(Passed(t, r), q, TimeOf(r))
  {
    hide TrySend;
    hide StateUpdate;
    hide Wake;
    hide MessagesIn;
    hide Lapsed;
    hide Entries;
    hide TableOk;
    EntriesForOthers([], q, TimeOf(r));
    match r {
      case Send(m, now) => SendAdds(t, m, now, q);
      case Update(k, responseType, now) => UpdateAdds(t, k, responseType, now, q);
      case Stall(k, status, now) =>
        QueryOk(t, k);
        var queried := Query(t, k);
        assert MessagesIn([]) == [] by { MessagesInCalls([]); NoCalls(); }
        if status == 0 {
          UnstalledOk(queried, k);
          WakeAdds(queried[k := queried[k].(stall := false)], k, now, q);
        }
      case _ =>
        assert MessagesIn([]) == [] by { MessagesInCalls([]); NoCalls(); }
    }
  }

  lemma UnstalledOk(t: Table, k: Key)
    requires TableOk(t) && k in t
    ensures NodesOk(t[k := t[k].(stall := false)])
  {
    hide WindowOk;
  }

  /**
   Over every run: the response queue of a node holds the messages that passed to it and
   expect an answer, each with its type, time and action id, in the order they passed,
   less those answered or lapsed.
   */
  lemma {:induction false} QueueIsRest(rs: seq<Region>, k: Key)
    requires forall r :: r in rs ==> ValidRegion(r)
    ensures Done(rs, k) <= |Awaited(rs, k)| && QueueOf(RunTable(rs), k) == Awaited(rs, k)[Done(rs, k)..]
  {
    hide Enter;
    hide Entries;
    hide TakenOff;
    hide Passed;
    hide TableOk;
    hide ValidRegion;
    DueIsRest(rs, k);
    if rs != [] {
      var before, r := rs[..|rs| - 1], rs[|rs| - 1];
      QueueIsRest(before, k);
      DueIsRest(before, k);
      WindowSafety(before);
      EnterAdds(RunTable(before), r, k);
    }
  }

  /**
   Over every run: a message from a node yields the action id of the message it answers,
   the first of those still awaited whose entry does not lapse, and 0 if it answers none.
   */
  lemma AnswerYieldsId(rs: seq<Region>, k: Key, responseType: byte, now: int)
    requires forall r :: r in rs ==> ValidRegion(r)
    ensures Done(rs, k) <= |Awaited(rs, k)|
    ensures StateUpdate(RunTable(rs), k, responseType, now).2 ==
      IdAnswered(Awaited(rs, k)[Done(rs, k)..], responseType, now)
  {
    hide StateUpdate;
    hide IdAnswered;
    hide RunTable;
    hide Awaited;
    hide Done;
    hide TableOk;
    hide ValidRegion;
    QueueIsRest(rs, k);
    WindowSafety(rs);
    UpdateYields(RunTable(rs), k, responseType, now);
  }

  /**
   What lapses, entry by entry: those in front that are two seconds old or older, and that do not have the
   answer at their place in turn. The next one is younger, or has the answer there, or no answer left there.
   */
  lemma {:induction false} LapsedExactly(es: seq<Expected>, i: nat, responseType: byte, now: int)
    ensures var d := Lapsed(es, i, responseType, now);
      && (forall j :: 0 <= j < d ==>
            && now - es[j].created >= 2 && i + j < |ResponseInfo(es[j].msgType).types|
            && ResponseInfo(es[j].msgType).types[i + j] != responseType)
      && (d < |es| ==>
            || now - es[d].created < 2 || i + d >= |ResponseInfo(es[d].msgType).types|
            || ResponseInfo(es[d].msgType).types[i + d] == responseType)
    decreases |es|
  {
    hide ResponseInfo;
    if es != [] && Lapses(es[0], i, responseType, now) {
      LapsedExactly(es[1..], i + 1, responseType, now);
    }
  }

  /** There and back: the first answer to a message that passes while nothing is due carries its action id. */
  lemma AnswerComesBack(rs: seq<Region>, m: Msg, now: int, responseType: byte, later: int)
    requires (forall r :: r in rs ==> ValidRegion(r)) && IsKey(m.key)
    requires Done(rs, m.key) == |Awaited(rs, m.key)| && TrySend(RunTable(rs), m, now).1
    requires ResponseInfo(m.msgType).types != [] && responseType == ResponseInfo(m.msgType).types[0]
    ensures StateUpdate(RunTable(rs + [Send(m, now)]), m.key, responseType, later).2 == m.actionId
  {
    hide StateUpdate;
    hide TrySend;
    hide TableOk;
    hide Entries;
    hide ResponseInfo;
    var run, k := rs + [Send(m, now)], m.key;
    assert run[..|rs|] == rs && run[|rs|] == Send(m, now);
    QueueIsRest(rs, k);
    WindowSafety(rs);
    EnterAdds(RunTable(rs), Send(m, now), k);
    WindowSafety(run);
    UpdateYields(RunTable(run), k, responseType, later);
    OneEntry(m, now);
    assert QueueOf(RunTable(run), k) == [Expected(m.msgType, now, m.actionId)];
  }

  lemma OneEntry(m: Msg, now: int)
    requires ResponseInfo(m.msgType).types != []
    ensures Entries([m], m.key, now) == [Expected(m.msgType, now, m.actionId)]
  {
    hide ResponseInfo;
    assert [m][..0] == [];
  }
}
