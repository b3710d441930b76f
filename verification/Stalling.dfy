/**
 What stall reports do: a node is stalled exactly while the last report for it says
 so, nothing reaches it or the nodes below it meanwhile, and those that were refused
 wait in its wake queue, once each, to be served in the order of that queue.
 */
module Stalling {
  import opened Bytes
  import opened Messages
  import opened Responses
  import opened NodeStates
  import opened FlowControl
  import opened Wakeups

  // ------------------------------------------------------------ who is stalled

  /** The status in the last stall report for k; 0 if there was none. */
  function LastReport(rs: seq<Region>, k: Key): byte {
    if rs == [] then 0
    else
      var r := rs[|rs| - 1];
      if r.Stall? && r.key == k then r.status else LastReport(rs[..|rs| - 1], k)
  }

  ghost predicate SameStalls(t: Table, r: Table) {
    forall p :: Stalled(t, p) <==> Stalled(r, p)
  }

  lemma {:induction false} WakeKeepsStalls(t: Table, k: Key, now: int)
    requires k in t && !t[k].stall
    ensures SameStalls(t, Wake(t, k, now).0) && k in Wake(t, k, now).0
    decreases |t[k].affected|
  {
    hide Drain;
    hide Wake;
    WakeStep(t, k, now);
    if t[k].affected != [] {
      var w := t[k].affected[0];
      var popped := t[k := t[k].(affected := t[k].affected[1..])];
      assert SameStalls(t, popped);
      WakeKeepsStalls(if w in popped then Drain(popped, w, now).0 else popped, k, now);
    }
  }

  /**
   A report stalls its node if and only if its status is not 0. Such a report makes no
   calls and touches nothing but the flag.
   */
  lemma StallReported(t: Table, k: Key, status: byte, now: int)
    ensures var r := Enter(t, Stall(k, status, now));
      && (Stalled(r, k) <==> status != 0)
      && (forall p :: p != k ==> (Stalled(r, p) <==> Stalled(t, p)))
      && (status != 0 ==>
            && CallsOf(t, Stall(k, status, now)) == [] && r.Keys == t.Keys + {k}
            && r[k] == (if k in t then t[k] else FRESH).(stall := true)
            && forall p :: p in t && p != k ==> r[p] == t[p])
  {
    hide Wake;
    var queried := Query(t, k);
    if status == 0 {
      WakeKeepsStalls(queried[k := queried[k].(stall := false)], k, now);
    }
  }

  /** Nothing else changes who is stalled. */
  lemma OnlyReportsStall(t: Table, r: Region, k: Key)
    requires !(r.Stall? && r.key == k)
    ensures Stalled(Enter(t, r), k) <==> Stalled(t, k)
  {
    hide Wake;
    hide Drain;
    hide Scan;
    hide SizeOf;
    hide Expecting;
    match r {
      case Send(m, now) =>
        var queried := Query(t, m.key);
        AskedFrame(queried, m.key);
        ExpectingFrame(Asked(queried, m.key)[m.key], m, now);
      case Update(q, responseType, now) =>
        if q in t && t[q].responses != [] {
          ScanKeepsStall(t[q], 0, responseType, now);
        }
      case Stall(q, status, now) =>
        StallReported(t, q, status, now);
      case _ =>
    }
  }

  lemma {:induction false} ScanKeepsStall(n: Node, i: nat, responseType: byte, now: int)
    requires n.responses != []
    ensures Scan(n, i, responseType, now).node.stall == n.stall
  {
    hide SizeOf;
    hide Reserved;
    hide Scan;
    hide AnsweredBehind;
    hide Lapsed;
    ScanIs(n, i, responseType, now);
  }

  /** Over every run: a node is stalled if and only if the last report for it has a status other than 0. */
  lemma {:induction false} StalledExactly(rs: seq<Region>, k: Key)
    ensures Stalled(RunTable(rs), k) <==> LastReport(rs, k) != 0
  {
    hide Enter;
    if rs != [] {
      var before, r := RunTable(rs[..|rs| - 1]), rs[|rs| - 1];
      StalledExactly(rs[..|rs| - 1], k);
      if r.Stall? && r.key == k {
        StallReported(before, k, r.status, r.now);
      } else {
        OnlyReportsStall(before, r, k);
      }
    }
  }

  /**
   Over every run: while the last report for a node other than the root says that it is
   stalled, nothing passes to it or to a node below it.
   */
  lemma NothingPassesStalled(rs: seq<Region>, n: nat, k: Key)
    requires (forall r :: r in rs ==> ValidRegion(r)) && n < |rs|
    requires k != [] && LastReport(rs[..n + 1], k) != 0
    ensures forall m :: m in Passed(RunTable(rs[..n]), rs[n]) ==> !(k <= m.key)
  {
    hide Enter;
    hide Passed;
    hide TableOk;
    hide ValidRegion;
    var now := rs[..n + 1];
    assert now[..|now| - 1] == rs[..n];
    StalledExactly(now, k);
    WindowSafety(rs[..n]);
    forall m | m in Passed(RunTable(rs[..n]), rs[n])
      ensures !(k <= m.key)
    {
      var i := |k|;
      assert k <= m.key ==> m.key[..i] == k;
      StallSafety(RunTable(rs[..n]), rs[n], m);
    }
  }

  /** What is sent to a stalled node or below one is held behind what is held already, and its node waits. */
  lemma SendIsHeld(t: Table, m: Msg, now: int, k: Key)
    requires k != [] && k <= m.key && Stalled(t, k)
    ensures var (r, passed) := TrySend(t, m, now);
      && !passed && m.key in r
      && r[m.key].held == (if m.key in t then t[m.key].held else []) + [m]
      && exists i :: WaitsOn(r, m.key, i)
  {
    hide Asked;
    hide SizeOf;
    hide HasRoom;
    hide Expecting;
    var queried := Query(t, m.key);
    assert m.key[..|k|] == k && Stalled(queried, k);
    BlockerMeaning(queried, m.key);
    AskedFrame(queried, m.key);
    AskedWaits(queried, m.key);
    var asked, r, i := Asked(queried, m.key), TrySend(t, m, now).0, |Blocker(queried, m.key)|;
    assert OnlyTouches(asked, r, m.key);
    WaitsOnPersists(asked, r, m.key, m.key, i);
  }

  // --------------------------------------------------------------- wake queues

  /** No node is queued twice, unless its address has a byte that the search misreads. */
  ghost predicate OnceEach(queue: seq<Key>) {
    forall i, j :: 0 <= i < j < |queue| && queue[i] == queue[j] ==> exists b :: b in queue[i] && b >= 128
  }

  ghost predicate WaitOnce(t: Table) {
    forall p :: p in t ==> OnceEach(t[p].affected)
  }

  lemma EnlistedOnce(queue: seq<Key>, k: Key)
    requires OnceEach(queue)
    ensures OnceEach(Enlisted(queue, k))
  {
    if !Found(queue, k) && k in queue {
      var i :| 0 <= i < |k| && k[i] >= 128;
      assert k[i] in k;
    }
  }

  lemma AskedWaitOnce(t: Table, k: Key)
    requires WaitOnce(t)
    ensures WaitOnce(Asked(t, k))
  {
    hide OnceEach;
    hide Enlisted;
    var b := Blocker(t, k);
    if b != [] {
      EnlistedOnce(t[b].affected, k);
    }
  }

  lemma {:induction false} DrainWaitOnce(t: Table, k: Key, now: int)
    requires k in t && WaitOnce(t)
    ensures WaitOnce(Drain(t, k, now).0)
    decreases |t[k].held|
  {
    hide OnceEach;
    hide Asked;
    hide SizeOf;
    hide HasRoom;
    hide Expecting;
    var n := t[k];
    AskedWaitOnce(t, k);
    if Blocker(t, k) == [] && n.held != [] && HasRoom(n, n.held[0]) {
      ExpectingFrame(n, n.held[0], now);
      DrainWaitOnce(t[k := Expecting(n, n.held[0], now).(held := n.held[1..])], k, now);
    }
  }

  lemma TailOnce(queue: seq<Key>)
    requires queue != [] && OnceEach(queue)
    ensures OnceEach(queue[1..])
  {}

  lemma {:induction false} WakeWaitOnce(t: Table, k: Key, now: int)
    requires k in t && !t[k].stall && WaitOnce(t)
    ensures WaitOnce(Wake(t, k, now).0)
    decreases |t[k].affected|
  {
    hide Drain;
    hide Wake;
    hide OnceEach;
    WakeStep(t, k, now);
    if t[k].affected != [] {
      TailOnce(t[k].affected);
      var w := t[k].affected[0];
      var popped := t[k := t[k].(affected := t[k].affected[1..])];
      if w in popped {
        DrainWaitOnce(popped, w, now);
      }
      WakeWaitOnce(if w in popped then Drain(popped, w, now).0 else popped, k, now);
    }
  }

  lemma EnterWaitOnce(t: Table, r: Region)
    requires WaitOnce(t)
    ensures WaitOnce(Enter(t, r))
  {
    hide Wake;
    hide Drain;
    hide Scan;
    hide SizeOf;
    hide HasRoom;
    hide Expecting;
    hide Asked;
    hide OnceEach;
    assert OnceEach([]) by { NobodyOnce(); }
    match r {
      case Send(m, now) =>
        var queried := Query(t, m.key);
        AskedFrame(queried, m.key);
        AskedWaitOnce(queried, m.key);
        ExpectingFrame(Asked(queried, m.key)[m.key], m, now);
      case Update(k, responseType, now) =>
        if k in t && t[k].responses != [] {
          ScanKeepsQueue(t[k], 0, responseType, now);
          DrainWaitOnce(t[k := Scan(t[k], 0, responseType, now).node], k, now);
        }
      case Stall(k, status, now) =>
        var queried := Query(t, k);
        if status == 0 {
          WakeWaitOnce(queried[k := queried[k].(stall := false)], k, now);
        }
      case _ =>
    }
  }

  lemma NobodyOnce()
    ensures OnceEach([])
  {}

  lemma {:induction false} ScanKeepsQueue(n: Node, i: nat, responseType: byte, now: int)
    requires n.responses != []
    ensures Scan(n, i, responseType, now).node.affected == n.affected
  {
    hide SizeOf;
    hide Reserved;
    hide Scan;
    hide AnsweredBehind;
    hide Lapsed;
    ScanIs(n, i, responseType, now);
  }

  /** Over every run: no node is in a wake queue twice, unless its address has a byte above 127. */
  lemma {:induction false} WaitersOnce(rs: seq<Region>)
    ensures WaitOnce(RunTable(rs))
  {
    hide Enter;
    hide OnceEach;
    if rs != [] {
      WaitersOnce(rs[..|rs| - 1]);
      EnterWaitOnce(RunTable(rs[..|rs| - 1]), rs[|rs| - 1]);
    }
  }

  /** With such a byte it is queued once for every message held. */
  lemma HighAddressWaitsTwice(t: Table, m: Msg, now: int)
    requires m.key == [200] && m.key in t && t[m.key].stall && t[m.key].affected == [[200]]
    ensures TrySend(t, m, now).0[m.key].affected == [[200], [200]]
  {
    hide SizeOf;
    hide HasRoom;
    assert !Found([[200]], [200]) by { assert [200][0] == 200; }
  }

  ghost predicate NotBehind(p: Key, q: Key, queue: seq<Key>) {
    exists a, b :: 0 <= a <= b < |queue| && p == queue[a] && q == queue[b]
  }

  /** Messages come in the order in which their nodes stand in the queue. */
  ghost predicate InQueueOrder(ms: seq<Msg>, queue: seq<Key>) {
    forall i, j :: 0 <= i < j < |ms| ==> NotBehind(ms[i].key, ms[j].key, queue)
  }

  lemma InOrderBehind(first: seq<Msg>, rest: seq<Msg>, queue: seq<Key>)
    requires queue != [] && (forall m :: m in first ==> m.key == queue[0])
    requires InQueueOrder(rest, queue[1..]) && forall m :: m in rest ==> m.key in queue[1..]
    ensures InQueueOrder(first + rest, queue)
  {
    var all := first + rest;
    forall i, j | 0 <= i < j < |all|
      ensures NotBehind(all[i].key, all[j].key, queue)
    {
      if j < |first| {
        assert first[i] in first && first[j] in first;
        assert all[i].key == queue[0] && all[j].key == queue[0];
      } else if i < |first| {
        assert first[i] in first && rest[j - |first|] in rest;
        var b :| 0 <= b < |queue[1..]| && queue[1..][b] == all[j].key;
        assert all[i].key == queue[0] && all[j].key == queue[b + 1];
      } else {
        var a, b :| 0 <= a <= b < |queue[1..]| && rest[i - |first|].key == queue[1..][a]
          && rest[j - |first|].key == queue[1..][b];
        assert all[i].key == queue[a + 1] && all[j].key == queue[b + 1];
      }
    }
  }

  /** The end of a stall serves the nodes that wait in the order of the queue, and nobody else. */
  lemma {:induction false} WakeServesInOrder(t: Table, k: Key, now: int)
    requires NodesOk(t) && k in t && !t[k].stall
    ensures var ms := MessagesIn(Wake(t, k, now).1);
      InQueueOrder(ms, t[k].affected) && forall m :: m in ms ==> m.key in t[k].affected
    decreases |t[k].affected|
  {
    hide Drain;
    hide Wake;
    hide NodesOk;
    hide Calls;
    hide MessagesIn;
    hide InQueueOrder;
    WakeStep(t, k, now);
    var queue := t[k].affected;
    if queue == [] {
      assert MessagesIn([]) == [] by { MessagesInCalls([]); NoCalls(); }
      NobodyInOrder(queue);
    } else {
      var w := queue[0];
      var popped := t[k := t[k].(affected := queue[1..])];
      var (drained, sent) := if w in popped then Drain(popped, w, now) else (popped, []);
      QueuePoppedOk(t, k);
      if w in popped {
        DrainOk(popped, w, now);
      }
      WakeServesInOrder(drained, k, now);
      var rest := Wake(drained, k, now).1;
      MessagesInConcat(Calls(sent), rest);
      MessagesInCalls(sent);
      InOrderBehind(sent, MessagesIn(rest), queue);
    }
  }

  lemma NobodyInOrder(queue: seq<Key>)
    ensures InQueueOrder([], queue)
  {}
}
