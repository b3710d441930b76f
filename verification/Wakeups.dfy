/**
 No lost wakeup: a node with held messages either has no room for the first of
 them or waits in the queue of a stalled node above it. Every region keeps this
 but one: dropping an expired response frees room without retrying.
 */
module Wakeups {
  import opened Bytes
  import opened Messages
  import opened Responses
  import opened NodeStates
  import opened FlowControl

  /** k is in the wake queue of the stalled node at the first i bytes of its key. */
  ghost predicate WaitsOn(t: Table, k: Key, i: nat) {
    1 <= i <= |k| && Stalled(t, k[..i]) && k in t[k[..i]].affected
  }

  /**
   Someone will come back to the held messages of k: a response is outstanding or a stalled
   node has k on its list.
   */
  ghost predicate Settled(t: Table, k: Key)
    requires k in t
  {
    t[k].held == [] || !HasRoom(t[k], t[k].held[0]) || exists i :: WaitsOn(t, k, i)
  }

  ghost predicate NoLostWakeup(t: Table) {
    forall k :: k in t ==> Settled(t, k)
  }

  /** Without room there is an outstanding response. */
  lemma NoRoomMeansResponseDue(n: Node, m: Msg)
    requires WindowOk(n.responseBytes, n.responses) && !HasRoom(n, m)
    ensures n.responses != []
  {
    if n.responses == [] {
      EmptyWindowAdmits(n, m);
    }
  }

  // ------------------------------------------------------------ what persists

  /** r differs from t in node k, and in wake queues of stalled nodes, which only gain entries. */
  ghost predicate OnlyTouches(t: Table, r: Table, k: Key) {
    && r.Keys == t.Keys
    && forall p :: p in t ==>
      && r[p].stall == t[p].stall
      && (forall w :: w in t[p].affected ==> w in r[p].affected)
      && (!t[p].stall ==> r[p].affected == t[p].affected)
      && (p != k ==> r[p] == t[p].(affected := r[p].affected))
  }

  lemma WaitsOnPersists(t: Table, r: Table, k: Key, k': Key, i: nat)
    requires OnlyTouches(t, r, k') && WaitsOn(t, k, i)
    ensures WaitsOn(r, k, i)
  {
    hide HasRoom;
  }

  lemma SettledPersists(t: Table, r: Table, k: Key, q: Key)
    requires OnlyTouches(t, r, k) && q in t && q != k && Settled(t, q)
    ensures Settled(r, q)
  {
    if i :| WaitsOn(t, q, i) {
      WaitsOnPersists(t, r, q, k, i);
    }
  }

  lemma AskedTouches(t: Table, k: Key)
    ensures OnlyTouches(t, Asked(t, k), k)
  {}

  /** Asking a blocked node leaves it on the blocker's list. */
  lemma {:induction false} AskedWaits(t: Table, k: Key)
    requires Blocker(t, k) != []
    ensures WaitsOn(Asked(t, k), k, |Blocker(t, k)|)
  {
    var b := Blocker(t, k);
    assert b == k[..|b|];
  }

  lemma OnlyTouchesTransitive(a: Table, b: Table, c: Table, k: Key)
    requires OnlyTouches(a, b, k) && OnlyTouches(b, c, k)
    ensures OnlyTouches(a, c, k)
  {}

  /** Draining a node settles it and touches nothing else. */
  lemma {:induction false} DrainSettles(t: Table, k: Key, now: int)
    requires k in t
    ensures var r := Drain(t, k, now).0; OnlyTouches(t, r, k) && Settled(r, k)
    decreases |t[k].held|
  {
    hide Asked;
    hide SizeOf;
    hide Expecting;
    hide HasRoom;
    var n := t[k];
    if Blocker(t, k) != [] {
      AskedTouches(t, k);
      AskedWaits(t, k);
    } else if n.held != [] && HasRoom(n, n.held[0]) {
      var next := t[k := Expecting(n, n.held[0], now).(held := n.held[1..])];
      ExpectingFrame(n, n.held[0], now);
      DrainSettles(next, k, now);
      OnlyTouchesTransitive(t, next, Drain(next, k, now).0, k);
    }
  }

  // -------------------------------------------------------- region by region

  lemma SettledPersistsQuery(t: Table, k: Key, q: Key)
    requires q in t && Settled(t, q)
    ensures Settled(Query(t, k), q)
  {
    if i :| WaitsOn(t, q, i) {
      assert WaitsOn(Query(t, k), q, i);
    }
  }

  lemma QuerySettles(t: Table, k: Key)
    requires NoLostWakeup(t)
    ensures NoLostWakeup(Query(t, k))
  {
    forall q | q in Query(t, k)
      ensures Settled(Query(t, k), q)
    {
      if q in t {
        SettledPersistsQuery(t, k, q);
      }
    }
  }

  /** A node that is ready waits on nobody. */
  lemma NotReadyImpossible(t: Table, k: Key)
    requires Unstalled(t, k)
    ensures Asked(t, k) == t && !exists i :: WaitsOn(t, k, i)
  {
    BlockerMeaning(t, k);
  }

  /** The sending node itself: a held message means it waits, or there was no room. */
  lemma TrySendSettlesOwn(t: Table, m: Msg, now: int)
    requires m.key in t && Settled(t, m.key)
    ensures Settled(TrySend(t, m, now).0, m.key)
  {
    hide Asked;
    hide SizeOf;
    hide Expecting;
    hide Blocker;
    var k := m.key;
    var asked := Asked(t, k);
    var r := TrySend(t, m, now).0;
    AskedTouches(t, k);
    ExpectingFrame(asked[k], m, now);
    if Blocker(t, k) != [] {
      AskedWaits(t, k);
      WaitsOnPersists(asked, r, k, k, |Blocker(t, k)|);
    } else {
      BlockerMeaning(t, k);
      NotReadyImpossible(t, k);
    }
  }

  lemma TrySendSettles(t: Table, m: Msg, now: int)
    requires NoLostWakeup(t)
    ensures NoLostWakeup(TrySend(t, m, now).0)
  {
    hide Asked;
    hide SizeOf;
    hide Expecting;
    hide Blocker;
    hide HasRoom;
    hide Settled;
    var k := m.key;
    var queried := Query(t, k);
    var r := TrySend(t, m, now).0;
    QuerySettles(t, k);
    AskedTouches(queried, k);
    ExpectingFrame(Asked(queried, k)[k], m, now);
    assert OnlyTouches(queried, r, k);
    assert TrySend(queried, m, now) == TrySend(t, m, now);
    TrySendSettlesOwn(queried, m, now);
    forall q | q in r && q != k
      ensures Settled(r, q)
    {
      SettledPersists(queried, r, k, q);
    }
  }

  /** Replacing a node by one with the same stall flag, wake queue, held messages and window. */
  lemma ReplacedSettles(t: Table, k: Key, n: Node)
    requires NoLostWakeup(t) && k in t
    requires n.affected == t[k].affected && n.held == t[k].held && n.responseBytes == t[k].responseBytes
    requires t[k].stall ==> n.stall
    ensures NoLostWakeup(t[k := n])
  {
    forall q | q in t
      ensures Settled(t[k := n], q)
    {
      if i :| WaitsOn(t, q, i) {
        assert WaitsOn(t[k := n], q, i);
      } else {
        assert Settled(t, q);
      }
    }
  }

  lemma OthersPersist(t: Table, r: Table, k: Key)
    requires OnlyTouches(t, r, k) && NoLostWakeup(t) && k in t
    ensures NoLostWakeup(r) <==> Settled(r, k)
  {
    hide Settled;
    hide OnlyTouches;
    assert r.Keys == t.Keys by { SameKeys(t, r, k); }
    forall q | q in r && q != k
      ensures Settled(r, q)
    {
      SettledPersists(t, r, k, q);
    }
  }

  lemma SameKeys(t: Table, r: Table, k: Key)
    requires OnlyTouches(t, r, k)
    ensures r.Keys == t.Keys
  {}

  /** Taking responses off a node leaves it settled exactly when it was waiting or still has nothing that fits. */
  lemma FreedNode(t: Table, k: Key, n: Node)
    requires k in t && n == t[k].(responseBytes := n.responseBytes, responses := n.responses)
    ensures OnlyTouches(t, t[k := n], k)
    ensures Settled(t[k := n], k) <==> t[k].held == [] || !HasRoom(n, t[k].held[0]) || exists i :: WaitsOn(t, k, i)
  {
    hide HasRoom;
    var r := t[k := n];
    if i :| WaitsOn(t, k, i) {
      assert WaitsOn(r, k, i);
    }
    if i :| WaitsOn(r, k, i) {
      assert WaitsOn(t, k, i);
    }
  }

  // ------------------------------------------------------------ what lapses

  /** The guard of the expiry branch: at answer index i the entry is not answered and has expired. */
  predicate Lapses(e: Expected, i: nat, responseType: byte, now: int) {
    var types := ResponseInfo(e.msgType).types;
    i < |types| && types[i] != responseType && Expired(e, now)
  }

  /** How many entries at the front lapse, the first tested at answer index i, each further one an index higher. */
  function Lapsed(es: seq<Expected>, i: nat, responseType: byte, now: int): (d: nat)
    ensures d <= |es|
    decreases |es|
  {
    if es == [] || !Lapses(es[0], i, responseType, now) then 0 else 1 + Lapsed(es[1..], i + 1, responseType, now)
  }

  /** The entry has the answer at index i or later. */
  predicate AnswersFrom(e: Expected, i: nat, responseType: byte) {
    var types := ResponseInfo(e.msgType).types;
    exists j :: i <= j < |types| && types[j] == responseType
  }

  /** After the first d entries lapsed, the entry behind them is answered. */
  predicate AnsweredBehind(es: seq<Expected>, d: nat, i: nat, responseType: byte) {
    d < |es| && AnswersFrom(es[d], i + d, responseType)
  }

  lemma ReservedSplit(es: seq<Expected>, n: nat)
    requires 0 < n <= |es|
    ensures Reserved(es[..n]) == SizeOf(es[0].msgType) + Reserved(es[1..][..n - 1])
  {
    hide SizeOf;
    assert es[..n][1..] == es[1..][..n - 1];
  }

  /**
   A scan result as read off the queue: what lapses is dropped, and the entry behind is taken if it is answered,
   and yields its action id.
   */
  ghost predicate ReadOff(n: Node, i: nat, responseType: byte, now: int, s: Scanned) {
    var es, d := n.responses, Lapsed(n.responses, i, responseType, now);
    var taken := if s.matched then d + 1 else d;
    && s.dropped == d && (s.matched <==> AnsweredBehind(es, d, i, responseType)) && taken <= |es|
    && s.node == n.(responses := es[taken..], responseBytes := n.responseBytes - Reserved(es[..taken]))
    && s.actionId == if s.matched then es[d].actionId else 0
  }

  /** The scan ends at the front entry: past its answers, at its answer, or by dropping the last entry. */
  lemma ReadOffFront(n: Node, i: nat, responseType: byte, now: int)
    requires n.responses != []
    requires var types := ResponseInfo(n.responses[0].msgType).types;
      i >= |types| || types[i] == responseType || (Expired(n.responses[0], now) && |n.responses| == 1)
    ensures ReadOff(n, i, responseType, now, Scan(n, i, responseType, now))
  {
    hide SizeOf;
    hide ResponseInfo;
    var es := n.responses;
    assert es[..0] == [] && es[0..] == es;
    ReservedSplit(es, 1);
    assert es[1..][..0] == [];
  }

  /** An entry dropped in front of a scan that is right. */
  lemma ReadOffDropped(n: Node, i: nat, responseType: byte, now: int, s: Scanned)
    requires |n.responses| > 1 && Lapses(n.responses[0], i, responseType, now)
    requires ReadOff(Popped(n), i + 1, responseType, now, s)
    ensures ReadOff(n, i, responseType, now, s.(dropped := s.dropped + 1))
  {
    hide SizeOf;
    hide Lapses;
    hide AnswersFrom;
    var es := n.responses;
    var d := Lapsed(es[1..], i + 1, responseType, now);
    var taken := if s.matched then d + 1 else d;
    assert Lapsed(es, i, responseType, now) == d + 1;
    ReservedSplit(es, taken + 1);
    assert es[1..][taken..] == es[taken + 1..];
    assert d < |es| - 1 ==> es[1..][d] == es[d + 1];
  }

  lemma ReadOffLater(n: Node, i: nat, responseType: byte, now: int, s: Scanned)
    requires n.responses != [] && !Expired(n.responses[0], now) && ReadOff(n, i + 1, responseType, now, s)
    requires var types := ResponseInfo(n.responses[0].msgType).types; i < |types| && types[i] != responseType
    ensures ReadOff(n, i, responseType, now, s)
  {
    hide SizeOf;
    hide ResponseInfo;
    hide AnswersFrom;
    LaterAnswer(n.responses[0], i, responseType);
  }

  /** What the scan does, read off the queue. */
  lemma {:induction false} ScanIs(n: Node, i: nat, responseType: byte, now: int)
    requires n.responses != []
    ensures ReadOff(n, i, responseType, now, Scan(n, i, responseType, now))
    decreases |n.responses|, |ResponseInfo(n.responses[0].msgType).types| - i
  {
    hide SizeOf;
    hide ResponseInfo;
    hide ReadOff;
    var es := n.responses;
    var types := ResponseInfo(es[0].msgType).types;
    if i >= |types| || types[i] == responseType || (Expired(es[0], now) && |es| == 1) {
      ReadOffFront(n, i, responseType, now);
    } else if Expired(es[0], now) {
      ScanIs(Popped(n), i + 1, responseType, now);
      ReadOffDropped(n, i, responseType, now, Scan(Popped(n), i + 1, responseType, now));
    } else {
      ScanIs(n, i + 1, responseType, now);
      ReadOffLater(n, i, responseType, now, Scan(n, i + 1, responseType, now));
    }
  }

  lemma LaterAnswer(e: Expected, i: nat, responseType: byte)
    requires var types := ResponseInfo(e.msgType).types; i < |types| && types[i] != responseType
    ensures AnswersFrom(e, i, responseType) <==> AnswersFrom(e, i + 1, responseType)
  {
    hide ResponseInfo;
  }

  /** The guard of the failing branch: the region is a message whose sender's front entry lapses. */
  predicate DropsExpired(t: Table, r: Region) {
    r.Update? && r.key in t && t[r.key].responses != [] && Lapses(t[r.key].responses[0], 0, r.responseType, r.now)
  }

  /** The guard decides: the scan drops an entry if and only if it holds beforehand. */
  lemma DropsExpiredExactly(t: Table, r: Region)
    requires r.Update? && r.key in t && t[r.key].responses != []
    ensures DropsExpired(t, r) <==> Scan(t[r.key], 0, r.responseType, r.now).dropped > 0
  {
    hide ResponseInfo;
    hide Scan;
    ScanIs(t[r.key], 0, r.responseType, r.now);
  }

  /**
   A region that forgets nobody: unless it is a message from a node with responses due,
   its front entry does not lapse, or the entry behind those that lapse is answered, or
   nothing is held, or the bytes of the lapsed entries do not make room for it, or the
   node waits on a stalled one.
   */
  ghost predicate Harmless(t: Table, r: Region) {
    r.Update? && r.key in t && t[r.key].responses != [] ==>
      var n := t[r.key];
      var d := Lapsed(n.responses, 0, r.responseType, r.now);
      || !DropsExpired(t, r)
      || AnsweredBehind(n.responses, d, 0, r.responseType)
      || n.held == []
      || n.responseBytes - Reserved(n.responses[..d]) + SizeOf(n.held[0].msgType) > RESPONSE_LIMIT
      || exists i :: WaitsOn(t, r.key, i)
  }

  lemma WindowOf(t: Table, k: Key)
    requires TableOk(t) && k in t
    ensures WindowOk(t[k].responseBytes, t[k].responses)
  {}

  /** A message from a node keeps the property exactly when it is harmless. */
  lemma UpdateSettlesExactly(t: Table, k: Key, responseType: byte, now: int)
    requires TableOk(t) && NoLostWakeup(t) && k in t && t[k].responses != []
    ensures NoLostWakeup(StateUpdate(t, k, responseType, now).0) <==> Harmless(t, Update(k, responseType, now))
  {
    hide Drain;
    hide SizeOf;
    hide ResponseInfo;
    hide Reserved;
    hide WindowOk;
    hide TableOk;
    hide Scan;
    hide Lapsed;
    hide AnsweredBehind;
    hide DropsExpired;
    hide Blocker;
    hide Asked;
    hide WaitsOn;
    hide Settled;
    hide NoLostWakeup;
    hide OnlyTouches;
    var s := Scan(t[k], 0, responseType, now);
    var popped := t[k := s.node];
    var r := StateUpdate(t, k, responseType, now).0;
    WindowOf(t, k);
    ScanOk(t[k], 0, responseType, now);
    ScanIs(t[k], 0, responseType, now);
    DropsExpiredExactly(t, Update(k, responseType, now));
    FreedNode(t, k, s.node);
    if s.matched {
      DrainSettles(popped, k, now);
      OnlyTouchesTransitive(t, popped, r, k);
      OthersPersist(t, r, k);
    } else if s.dropped == 0 {
      assert r == t;
    } else {
      OthersPersist(t, popped, k);
    }
  }

  // ---------------------------------------------------------------- releasing

  /** While k's queue is released: everyone is settled or still on the queue. */
  ghost predicate SettledOrQueued(t: Table, k: Key)
    requires k in t
  {
    forall q :: q in t && q !in t[k].affected ==> Settled(t, q)
  }

  lemma PoppedPersists(t: Table, k: Key, q: Key)
    requires k in t && !t[k].stall && t[k].affected != [] && q in t && Settled(t, q)
    ensures Settled(t[k := t[k].(affected := t[k].affected[1..])], q)
  {
    var popped := t[k := t[k].(affected := t[k].affected[1..])];
    if i :| WaitsOn(t, q, i) {
      assert WaitsOn(popped, q, i);
    }
  }

  /** One round: the node at the front is popped and drained. */
  lemma WakeRound(t: Table, k: Key, now: int) returns (drained: Table)
    requires k in t && !t[k].stall && t[k].affected != [] && SettledOrQueued(t, k)
    ensures var popped := t[k := t[k].(affected := t[k].affected[1..])];
      drained == if t[k].affected[0] in popped then Drain(popped, t[k].affected[0], now).0 else popped
    ensures drained.Keys == t.Keys && !drained[k].stall && drained[k].affected == t[k].affected[1..]
    ensures SettledOrQueued(drained, k)
  {
    hide Drain;
    hide Settled;
    var w := t[k].affected[0];
    var popped := t[k := t[k].(affected := t[k].affected[1..])];
    drained := popped;
    if w in popped {
      drained := Drain(popped, w, now).0;
      DrainSettles(popped, w, now);
    }
    forall q | q in drained && q !in drained[k].affected
      ensures Settled(drained, q)
    {
      if q != w {
        assert q !in t[k].affected;
        PoppedPersists(t, k, q);
        if w in popped {
          SettledPersists(popped, drained, w, q);
        }
      }
    }
  }

  /** Releasing a queue terminates with the queue empty and every node settled. */
  lemma {:induction false} WakeSettles(t: Table, k: Key, now: int)
    requires k in t && !t[k].stall && SettledOrQueued(t, k)
    ensures var r := Wake(t, k, now).0; NoLostWakeup(r) && k in r && r[k].affected == [] && !r[k].stall
    decreases |t[k].affected|
  {
    hide Drain;
    hide Settled;
    if t[k].affected != [] {
      var drained := WakeRound(t, k, now);
      WakeSettles(drained, k, now);
    }
  }

  /**
   The end of a stall: the released node's wake queue is empty afterwards, and
   every node ends with nothing held, without room, or on the list of a stalled
   node that is not the released one.
   */
  lemma ReleaseSettles(t: Table, k: Key, now: int)
    requires NoLostWakeup(t)
    ensures var r := UpdateStall(t, k, 0, now).0;
      && NoLostWakeup(r) && k in r && r[k].affected == [] && !r[k].stall
      && forall q, i :: WaitsOn(r, q, i) ==> q[..i] != k
  {
    hide Wake;
    hide SizeOf;
    var queried := Query(t, k);
    QuerySettles(t, k);
    var released := queried[k := queried[k].(stall := false)];
    forall q | q in released && q !in released[k].affected
      ensures Settled(released, q)
    {
      assert Settled(queried, q);
      if i :| WaitsOn(queried, q, i) {
        assert WaitsOn(released, q, i);
      }
    }
    WakeSettles(released, k, now);
  }

  // --------------------------------------------------------- a lost wakeup

  const LONE: Key := [1]
  const BIG := Msg(0, LONE, 1, 0x46, [], 0)
  const AWAITED := FRESH.(responseBytes := 40, responses := [Expected(0x46, 0, 0)], held := [BIG])

  /** 40 bytes are reserved; a second message, needing 40 again, is held. */
  lemma TwoSends()
    ensures RunTable([Send(BIG, 0), Send(BIG, 0)]) == map[LONE := AWAITED]
  {
    hide RunTable;
    hide TrySend;
    var first := AWAITED.(held := []);
    assert Expecting(FRESH, BIG, 0) == first && !HasRoom(first, BIG);
    RunEmpty();
    RunOneMore([], Send(BIG, 0));
    SendToLoneNode(map[], LONE, FRESH, BIG);
    assert [] + [Send(BIG, 0)] == [Send(BIG, 0)];
    assert RunTable([Send(BIG, 0)]) == map[LONE := first];
    RunOneMore([Send(BIG, 0)], Send(BIG, 0));
    SendToLoneNode(map[LONE := first], LONE, first, BIG);
    assert first.held + [BIG] == [BIG] && first.(held := [BIG]) == AWAITED;
    assert [Send(BIG, 0)] + [Send(BIG, 0)] == [Send(BIG, 0), Send(BIG, 0)];
  }

  lemma RunEmpty()
    ensures RunTable([]) == map[]
  {}

  /** A node with messages held and no response due, in a table without stalls. */
  ghost predicate Abandoned(t: Table, k: Key) {
    k in t && t[k].responses == [] && t[k].held != [] && forall p :: p in t ==> !t[p].stall
  }

  /**
   The failing family is not empty. The only expected response expires on an
   unrelated message; the held message now fits, nothing is stalled, and no
   response is due that could bring a region back to it.
   */
  lemma LostWakeup()
    ensures var rs := [Send(BIG, 0), Send(BIG, 0), Update(LONE, MSG_CS_STATE, 10)];
      var t := RunTable(rs);
      && (forall r :: r in rs ==> ValidRegion(r)) && Abandoned(t, LONE)
      && t[LONE].held == [BIG] && HasRoom(t[LONE], BIG) && Unstalled(t, LONE) && !NoLostWakeup(t)
  {
    hide RunTable;
    var rs := [Send(BIG, 0), Send(BIG, 0)];
    TwoSends();
    RunOneMore(rs, Update(LONE, MSG_CS_STATE, 10));
    assert rs + [Update(LONE, MSG_CS_STATE, 10)] == [Send(BIG, 0), Send(BIG, 0), Update(LONE, MSG_CS_STATE, 10)];
    assert Scan(AWAITED, 0, MSG_CS_STATE, 10) == Scanned(Popped(AWAITED), false, 0, 1);
    var t := map[LONE := Popped(AWAITED)];
    assert StateUpdate(map[LONE := AWAITED], LONE, MSG_CS_STATE, 10).0 == t;
    assert LONE[..1] == LONE && !Settled(t, LONE);
  }

  lemma UnstalledTable(t: Table, k: Key)
    requires forall p :: p in t ==> !t[p].stall
    ensures Blocker(t, k) == [] && Asked(t, k) == t
  {}

  lemma AbandonedSend(t: Table, m: Msg, now: int, k: Key)
    requires Abandoned(t, k)
    ensures var (r, passed) := TrySend(t, m, now);
      Abandoned(r, k) && t[k].held <= r[k].held && (passed ==> m.key != k)
  {
    hide SizeOf;
    hide HasRoom;
    hide Asked;
    hide Blocker;
    var queried := Query(t, m.key);
    UnstalledTable(queried, m.key);
    ExpectingFrame(queried[m.key], m, now);
  }

  lemma AbandonedUpdate(t: Table, q: Key, responseType: byte, now: int, k: Key)
    requires TableOk(t) && IsKey(q) && Abandoned(t, k)
    ensures var (r, sent, id) := StateUpdate(t, q, responseType, now);
      Abandoned(r, k) && t[k].held <= r[k].held && forall m :: m in sent ==> m.key != k
  {
    hide Drain;
    hide Scan;
    hide WindowOk;
    hide Settled;
    if q in t && t[q].responses != [] {
      ScanOk(t[q], 0, responseType, now);
      var scanned := t[q := Scan(t[q], 0, responseType, now).node];
      DrainOk(scanned, q, now);
      DrainSettles(scanned, q, now);
    }
  }

  /** No region but a stall report helps an abandoned node: it stays so, and none of its messages passes. */
  lemma AbandonedStays(t: Table, r: Region, k: Key)
    requires TableOk(t) && ValidRegion(r) && Abandoned(t, k) && !r.Stall?
    ensures Abandoned(Enter(t, r), k) && t[k].held <= Enter(t, r)[k].held
    ensures forall m :: m in Passed(t, r) ==> m.key != k
  {
    hide TrySend;
    hide StateUpdate;
    hide TableOk;
    match r {
      case Send(m, now) => AbandonedSend(t, m, now, k);
      case Update(q, responseType, now) =>
        MessagesInCalls(StateUpdate(t, q, responseType, now).1);
        AbandonedUpdate(t, q, responseType, now, k);
      case Stall(_, _, _) =>
      case _ =>
    }
  }

  /** The loss is for good: over any run without stall reports the node never sends again. */
  lemma {:induction false} AbandonedForever(before: seq<Region>, rs: seq<Region>, k: Key)
    requires (forall r :: r in before ==> ValidRegion(r)) && Abandoned(RunTable(before), k)
    requires forall r :: r in rs ==> ValidRegion(r) && !r.Stall?
    ensures Abandoned(RunTable(before + rs), k) && RunTable(before)[k].held <= RunTable(before + rs)[k].held
    ensures forall i, m :: 0 <= i < |rs| && m in Passed(RunTable(before + rs[..i]), rs[i]) ==> m.key != k
  {
    hide Enter;
    hide Passed;
    hide RunTable;
    hide Abandoned;
    hide ValidRegion;
    if rs == [] {
      assert before + rs == before;
    } else {
      var n := |rs| - 1;
      AbandonedForever(before, rs[..n], k);
      assert (before + rs[..n]) + [rs[n]] == before + rs;
      RunOneMore(before + rs[..n], rs[n]);
      WindowSafety(before + rs[..n]);
      var t := RunTable(before + rs[..n]);
      AbandonedStays(t, rs[n], k);
      forall i, m | 0 <= i < |rs| && m in Passed(RunTable(before + rs[..i]), rs[i])
        ensures m.key != k
      {
        if i < n {
          assert rs[..n][..i] == rs[..i] && rs[..n][i] == rs[i];
        }
      }
    }
  }

  lemma RunOneMore(rs: seq<Region>, r: Region)
    ensures RunTable(rs + [r]) == Enter(RunTable(rs), r)
  {
    hide Enter;
    assert (rs + [r])[..|rs|] == rs;
  }

  lemma SendToLoneNode(t: Table, k: Key, n: Node, m: Msg)
    requires |k| == 1 && m.key == k && !n.stall && (t == map[k := n] || (t == map[] && n == FRESH))
    ensures TrySend(t, m, 0).0 ==
      map[k := if n.held == [] && HasRoom(n, m) then Expecting(n, m, 0) else n.(held := n.held + [m])]
  {
    hide Expecting;
    hide HasRoom;
    assert Blocker(Query(t, k), k) == Blocker(Query(t, k), k[..0]) == [];
  }

  // ------------------------------------------------------------------- runs

  /** A region keeps the property exactly when it is harmless. */
  lemma EnterSettlesExactly(t: Table, r: Region)
    requires TableOk(t) && ValidRegion(r) && NoLostWakeup(t)
    ensures NoLostWakeup(Enter(t, r)) <==> Harmless(t, r)
  {
    hide TrySend;
    hide UpdateStall;
    hide Scan;
    hide DropsExpired;
    hide AnsweredBehind;
    hide Lapsed;
    hide Settled;
    hide TableOk;
    match r {
      case Send(m, now) => TrySendSettles(t, m, now);
      case Update(k, responseType, now) =>
        if k in t && t[k].responses != [] {
          UpdateSettlesExactly(t, k, responseType, now);
        }
      case Stall(k, status, now) =>
        if status == 0 {
          ReleaseSettles(t, k, now);
        } else {
          StallSettles(t, k, status, now);
        }
      case _ =>
        QuerySettles(t, r.key);
        ReplacedSettles(Query(t, r.key), r.key, Enter(t, r)[r.key]);
    }
  }

  /** In particular every region keeps it in which no entry lapses. */
  lemma EnterKeepsWakeups(t: Table, r: Region)
    requires TableOk(t) && ValidRegion(r) && NoLostWakeup(t) && !DropsExpired(t, r)
    ensures NoLostWakeup(Enter(t, r))
  {
    hide Enter;
    hide DropsExpired;
    hide AnsweredBehind;
    hide Lapsed;
    hide TableOk;
    hide NoLostWakeup;
    EnterSettlesExactly(t, r);
  }

  lemma StallSettles(t: Table, k: Key, status: byte, now: int)
    requires NoLostWakeup(t) && status != 0
    ensures NoLostWakeup(UpdateStall(t, k, status, now).0)
  {
    hide Settled;
    QuerySettles(t, k);
    ReplacedSettles(Query(t, k), k, Query(t, k)[k].(stall := true));
  }

  /** A run in which no message comes from a node whose front entry lapses on it. */
  ghost predicate NothingExpires(rs: seq<Region>) {
    forall i :: 0 <= i < |rs| ==> !DropsExpired(RunTable(rs[..i]), rs[i])
  }

  /** In every state reachable without an expiry no wakeup is lost. */
  lemma {:induction false} NoWakeupIsLost(rs: seq<Region>)
    requires (forall r :: r in rs ==> ValidRegion(r)) && NothingExpires(rs)
    ensures NoLostWakeup(RunTable(rs))
  {
    hide Enter;
    hide ValidRegion;
    hide DropsExpired;
    hide Settled;
    if rs != [] {
      var n := |rs| - 1;
      forall i | 0 <= i < n
        ensures !DropsExpired(RunTable(rs[..n][..i]), rs[..n][i])
      {
        assert rs[..n][..i] == rs[..i];
      }
      NoWakeupIsLost(rs[..n]);
      WindowSafety(rs[..n]);
      EnterKeepsWakeups(RunTable(rs[..n]), rs[n]);
    }
  }

  /** Over a whole run: at no point is a wakeup lost, if and only if every region is harmless where it is entered. */
  lemma {:induction false} NeverLostExactly(rs: seq<Region>)
    requires forall r :: r in rs ==> ValidRegion(r)
    ensures (forall i :: 0 <= i <= |rs| ==> NoLostWakeup(RunTable(rs[..i])))
        <==> (forall i :: 0 <= i < |rs| ==> Harmless(RunTable(rs[..i]), rs[i]))
  {
    hide Enter;
    hide RunTable;
    hide ValidRegion;
    hide Harmless;
    hide NoLostWakeup;
    hide TableOk;
    if rs == [] {
      assert rs[..0] == [] && NoLostWakeup(RunTable([])) by { NothingLostYet(); }
    } else {
      var n := |rs| - 1;
      var front := rs[..n];
      NeverLostExactly(front);
      assert forall i :: 0 <= i <= n ==> front[..i] == rs[..i];
      assert forall i :: 0 <= i < n ==> front[i] == rs[i];
      assert rs[..n + 1] == rs == front + [rs[n]];
      RunOneMore(front, rs[n]);
      WindowSafety(front);
      if NoLostWakeup(RunTable(front)) {
        EnterSettlesExactly(RunTable(front), rs[n]);
      }
    }
  }

  lemma NothingLostYet()
    ensures NoLostWakeup(RunTable([]))
  {}
}
