/**
 What the flow control of the node table keeps in every run: the response window is
 respected, every queue belongs to its node, and nothing passes a stalled node.
 */
module FlowControl {
  import opened Bytes
  import opened Messages
  import opened Responses
  import opened NodeStates

  // -------------------------------------------------------------- invariants

  /** Bytes reserved for a queue of expected responses. */
  function Reserved(es: seq<Expected>): nat {
    if es == [] then 0 else SizeOf(es[0].msgType) + Reserved(es[1..])
  }

  /** The byte counter is the sum over the response queue and stays inside the window. */
  ghost predicate WindowOk(responseBytes: int, responses: seq<Expected>) {
    && responseBytes == Reserved(responses) <= RESPONSE_LIMIT
    && forall e :: e in responses ==> SizeOf(e.msgType) > 0
  }

  ghost predicate NodeOk(k: Key, n: Node) {
    && IsKey(k) && WindowOk(n.responseBytes, n.responses)
    && n.sendSeqnum != 0 && n.receiveSeqnum != 0
    && (forall m :: m in n.held ==> m.key == k)
    && (forall w :: w in n.affected ==> IsKey(w) && k <= w)
  }

  ghost predicate NodesOk(t: Table) {
    forall k :: k in t ==> NodeOk(k, t[k])
  }

  /** Only a stalled node has others waiting for it, and nobody waits for the root. */
  ghost predicate WaitingOnlyForStalled(t: Table) {
    forall k :: k in t && t[k].affected != [] ==> t[k].stall && k != []
  }

  ghost predicate TableOk(t: Table) {
    NodesOk(t) && WaitingOnlyForStalled(t)
  }

  // ------------------------------------------------------------------- runs

  /** The regions executed under the node table mutex. */
  datatype Region =
    | TakeSendNumber(key: Key)
    | Send(msg: Msg, now: int)
    | Update(key: Key, responseType: byte, now: int)
    | Stall(key: Key, status: byte, now: int)
    | TakeReceiveNumber(key: Key)
    | SetReceiveNumber(key: Key, seqnum: byte)

  ghost predicate ValidRegion(r: Region) {
    && IsKey(if r.Send? then r.msg.key else r.key)
    && (r.SetReceiveNumber? ==> r.seqnum != 0)
  }

  function Enter(t: Table, r: Region): Table {
    match r
    case TakeSendNumber(k) => SendNumberTaken(t, k).0
    case Send(m, now) => TrySend(t, m, now).0
    case Update(k, responseType, now) => StateUpdate(t, k, responseType, now).0
    case Stall(k, status, now) => UpdateStall(t, k, status, now).0
    case TakeReceiveNumber(k) => ReceiveNumberTaken(t, k).0
    case SetReceiveNumber(k, s) => ReceiveNumberSet(t, k, s)
  }

  /** Calls to the send buffer made inside the region; a direct send that passes is buffered after it. */
  function CallsOf(t: Table, r: Region): seq<Action> {
    match r
    case Update(k, responseType, now) => Calls(StateUpdate(t, k, responseType, now).1)
    case Stall(k, status, now) => UpdateStall(t, k, status, now).1
    case _ => []
  }

  function MessagesIn(calls: seq<Action>): seq<Msg> {
    if calls == [] then []
    else MessagesIn(calls[..|calls| - 1]) + if calls[|calls| - 1].Buffer? then [calls[|calls| - 1].msg] else []
  }

  /** Messages that pass flow control in a region, directly or from a held queue. */
  function Passed(t: Table, r: Region): seq<Msg> {
    if r.Send? then (if TrySend(t, r.msg, r.now).1 then [r.msg] else []) else MessagesIn(CallsOf(t, r))
  }

  function RunTable(rs: seq<Region>): Table {
    if rs == [] then map[] else Enter(RunTable(rs[..|rs| - 1]), rs[|rs| - 1])
  }

  // ----------------------------------------------------------- window safety

  lemma {:induction false} ReservedAppend(es: seq<Expected>, e: Expected)
    ensures Reserved(es + [e]) == Reserved(es) + SizeOf(e.msgType)
  {
    hide SizeOf;
    if es == [] {
      assert [e][1..] == [];
    } else {
      assert (es + [e])[1..] == es[1..] + [e];
      ReservedAppend(es[1..], e);
    }
  }

  lemma ExpectingOk(n: Node, m: Msg, now: int)
    requires WindowOk(n.responseBytes, n.responses) && HasRoom(n, m)
    ensures WindowOk(Expecting(n, m, now).responseBytes, Expecting(n, m, now).responses)
    ensures Expecting(n, m, now).responseBytes == n.responseBytes + SizeOf(m.msgType)
    ensures var e := Expecting(n, m, now); e == n.(responseBytes := e.responseBytes, responses := e.responses)
  {
    hide SizeOf;
    ReservedAppend(n.responses, Expected(m.msgType, now, m.actionId));
  }

  /** An empty window admits any message. */
  lemma EmptyWindowAdmits(n: Node, m: Msg)
    requires WindowOk(n.responseBytes, n.responses) && n.responses == []
    ensures HasRoom(n, m)
  {
    hide ResponseInfo;
    SizesAreSmall(m.msgType);
  }

  lemma PoppedOk(n: Node)
    requires WindowOk(n.responseBytes, n.responses) && n.responses != []
    ensures WindowOk(Popped(n).responseBytes, Popped(n).responses) && Popped(n).responseBytes < n.responseBytes
  {
    hide SizeOf;
    assert n.responses[0] in n.responses;
  }

  /** The scan only takes entries off the front; unless it drops or matches one it changes nothing. */
  lemma {:induction false} ScanOk(n: Node, i: nat, responseType: byte, now: int)
    requires n.responses != [] && WindowOk(n.responseBytes, n.responses)
    ensures var s := Scan(n, i, responseType, now);
      && WindowOk(s.node.responseBytes, s.node.responses)
      && s.node == n.(responseBytes := s.node.responseBytes, responses := s.node.responses)
      && (s.matched || s.dropped > 0 ==> s.node.responseBytes < n.responseBytes)
      && (!s.matched && s.dropped == 0 ==> s.node == n)
    decreases |n.responses|, |ResponseInfo(n.responses[0].msgType).types| - i
  {
    hide SizeOf;
    hide WindowOk;
    PoppedOk(n);
    var head := n.responses[0];
    var types := ResponseInfo(head.msgType).types;
    if i < |types| && types[i] != responseType {
      if Expired(head, now) {
        if |n.responses| > 1 {
          ScanOk(Popped(n), i + 1, responseType, now);
        }
      } else {
        ScanOk(n, i + 1, responseType, now);
      }
    }
  }

  lemma {:induction false} BlockerIsPrefix(t: Table, k: Key)
    requires IsKey(k)
    ensures IsKey(Blocker(t, k)) && Blocker(t, k) <= k
  {
    if k != [] && !Stalled(t, k) {
      BlockerIsPrefix(t, k[..|k| - 1]);
    }
  }

  lemma AskedOk(t: Table, k: Key)
    requires NodesOk(t) && IsKey(k)
    ensures NodesOk(Asked(t, k))
    ensures WaitingOnlyForStalled(t) ==> WaitingOnlyForStalled(Asked(t, k))
  {
    hide WindowOk;
    BlockerIsPrefix(t, k);
  }

  lemma {:induction false} DrainOk(t: Table, k: Key, now: int)
    requires NodesOk(t) && k in t
    ensures NodesOk(Drain(t, k, now).0)
    ensures WaitingOnlyForStalled(t) ==> WaitingOnlyForStalled(Drain(t, k, now).0)
    ensures forall m :: m in Drain(t, k, now).1 ==> m.key == k
    decreases |t[k].held|
  {
    hide Asked;
    hide SizeOf;
    hide WindowOk;
    hide Expecting;
    var n := t[k];
    if Blocker(t, k) != [] {
      AskedOk(t, k);
    } else if n.held != [] && HasRoom(n, n.held[0]) {
      ExpectingOk(n, n.held[0], now);
      assert n.held[0] in n.held;
      DrainOk(t[k := Expecting(n, n.held[0], now).(held := n.held[1..])], k, now);
    }
  }

  /** All waiting is for stalled nodes, k apart, whose queue is being released. */
  ghost predicate WaitingOnlyForStalledOr(t: Table, k: Key) {
    forall p :: p in t && p != k && t[p].affected != [] ==> t[p].stall && p != []
  }

  lemma QueuePoppedOk(t: Table, k: Key)
    requires NodesOk(t) && k in t && t[k].affected != [] && !t[k].stall
    ensures var popped := t[k := t[k].(affected := t[k].affected[1..])]; NodesOk(popped) && !popped[k].stall
  {
    hide WindowOk;
    assert forall w :: w in t[k].affected[1..] ==> w in t[k].affected;
  }

  lemma {:induction false} WakeOk(t: Table, k: Key, now: int)
    requires NodesOk(t) && k in t && !t[k].stall && WaitingOnlyForStalledOr(t, k)
    ensures var r := Wake(t, k, now).0; TableOk(r) && r.Keys == t.Keys && r[k].affected == []
    decreases |t[k].affected|
  {
    hide WindowOk;
    hide Drain;
    if t[k].affected != [] {
      var w := t[k].affected[0];
      var popped := t[k := t[k].(affected := t[k].affected[1..])];
      QueuePoppedOk(t, k);
      if w in popped {
        DrainOk(popped, w, now);
        DrainWaiting(popped, w, k, now);
        WakeOk(Drain(popped, w, now).0, k, now);
      } else {
        WakeOk(popped, k, now);
      }
    }
  }

  lemma {:induction false} DrainWaiting(t: Table, w: Key, k: Key, now: int)
    requires w in t && k in t && WaitingOnlyForStalledOr(t, k)
    ensures WaitingOnlyForStalledOr(Drain(t, w, now).0, k)
    decreases |t[w].held|
  {
    hide SizeOf;
    hide Expecting;
    var n := t[w];
    if Blocker(t, w) == [] && n.held != [] && HasRoom(n, n.held[0]) {
      ExpectingFrame(n, n.held[0], now);
      DrainWaiting(t[w := Expecting(n, n.held[0], now).(held := n.held[1..])], w, k, now);
    }
  }

  lemma ExpectingFrame(n: Node, m: Msg, now: int)
    ensures var e := Expecting(n, m, now);
      e == n.(responseBytes := n.responseBytes + SizeOf(m.msgType), responses := e.responses)
  {
    hide ResponseInfo;
  }

  lemma QueryOk(t: Table, k: Key)
    requires TableOk(t) && IsKey(k)
    ensures TableOk(Query(t, k)) && NodeOk(k, Query(t, k)[k])
  {}

  /** Replacing a node by one with the same stall flag and wake queue. */
  lemma ReplacedOk(t: Table, k: Key, n: Node)
    requires TableOk(t) && k in t && NodeOk(k, n) && n.stall == t[k].stall && n.affected == t[k].affected
    ensures TableOk(t[k := n])
  {
    hide NodeOk;
  }

  lemma TrySendOk(t: Table, m: Msg, now: int)
    requires TableOk(t) && IsKey(m.key)
    ensures TableOk(TrySend(t, m, now).0)
  {
    hide Asked;
    hide Query;
    hide SizeOf;
    hide WindowOk;
    hide Expecting;
    hide Blocker;
    hide TableOk;
    var queried := Query(t, m.key);
    QueryOk(t, m.key);
    var asked := Asked(queried, m.key);
    assert TableOk(asked) && m.key in asked && NodeOk(m.key, asked[m.key]) by {
      AskedKeepsTable(queried, m.key);
    }
    var n := asked[m.key];
    if HasRoom(n, m) {
      ExpectingOk(n, m, now);
      ReplacedOk(asked, m.key, Expecting(n, m, now));
    }
    ReplacedOk(asked, m.key, n.(held := n.held + [m]));
  }

  lemma AskedKeepsTable(t: Table, k: Key)
    requires TableOk(t) && k in t
    ensures TableOk(Asked(t, k)) && k in Asked(t, k) && NodeOk(k, Asked(t, k)[k])
  {
    hide WindowOk;
    AskedOk(t, k);
  }

  /** Asking changes nothing but wake queues. */
  lemma AskedFrame(t: Table, k: Key)
    ensures Asked(t, k).Keys == t.Keys
    ensures forall p :: p in t ==> Asked(t, k)[p] == t[p].(affected := Asked(t, k)[p].affected)
  {}

  lemma StateUpdateOk(t: Table, k: Key, responseType: byte, now: int)
    requires TableOk(t) && IsKey(k)
    ensures TableOk(StateUpdate(t, k, responseType, now).0)
  {
    hide Drain;
    hide WindowOk;
    hide Scan;
    if k in t && t[k].responses != [] {
      ScanOk(t[k], 0, responseType, now);
      DrainOk(t[k := Scan(t[k], 0, responseType, now).node], k, now);
    }
  }

  lemma UpdateStallOk(t: Table, k: Key, status: byte, now: int)
    requires TableOk(t) && IsKey(k)
    ensures TableOk(UpdateStall(t, k, status, now).0)
  {
    hide Wake;
    hide WindowOk;
    hide Query;
    QueryOk(t, k);
    var queried := Query(t, k);
    if status == 0 {
      WakeOk(queried[k := queried[k].(stall := false)], k, now);
    }
  }

  lemma EnterOk(t: Table, r: Region)
    requires TableOk(t) && ValidRegion(r)
    ensures TableOk(Enter(t, r))
  {
    hide WindowOk;
    hide Query;
    hide TrySend;
    hide StateUpdate;
    hide UpdateStall;
    hide TableOk;
    match r {
      case Send(m, now) => TrySendOk(t, m, now);
      case Update(k, responseType, now) => StateUpdateOk(t, k, responseType, now);
      case Stall(k, status, now) => UpdateStallOk(t, k, status, now);
      case _ =>
        QueryOk(t, r.key);
        ReplacedOk(Query(t, r.key), r.key, Enter(t, r)[r.key]);
    }
  }

  /**
   In every run, expiry included: each node's byte counter is the sum over its
   response queue and within the window of 48 bytes, every node's queues belong to
   it, nobody waits for a node that is not stalled, and no counter is 0.
   */
  lemma {:induction false} WindowSafety(rs: seq<Region>)
    requires forall r :: r in rs ==> ValidRegion(r)
    ensures TableOk(RunTable(rs))
  {
    hide Enter;
    hide ValidRegion;
    if rs != [] {
      WindowSafety(rs[..|rs| - 1]);
      EnterOk(RunTable(rs[..|rs| - 1]), rs[|rs| - 1]);
    }
  }

  /** Exactly when a message passes: nothing on the way is stalled, nothing is held, and the window has room for it. */
  lemma PassesExactly(t: Table, m: Msg, now: int)
    requires TableOk(t)
    ensures TrySend(t, m, now).1 <==>
      && Unstalled(t, m.key)
      && (m.key in t ==> t[m.key].held == [] && Reserved(t[m.key].responses) + SizeOf(m.msgType) <= 48)
  {
    hide ResponseInfo;
    hide Expecting;
    hide Blocker;
    hide Asked;
    var queried := Query(t, m.key);
    SizesAreSmall(m.msgType);
    AskedFrame(queried, m.key);
    BlockerMeaning(queried, m.key);
    assert forall p :: Stalled(queried, p) <==> Stalled(t, p);
  }

  // ------------------------------------------------------------ stall safety

  /** No node on the way from k to the root, the root apart, is stalled. */
  ghost predicate Unstalled(t: Table, k: Key) {
    forall i :: 1 <= i <= |k| ==> !Stalled(t, k[..i])
  }

  /** The byte-zeroing walk finds a blocker exactly when some non-root node on the way is stalled. */
  lemma {:induction false} BlockerMeaning(t: Table, k: Key)
    ensures Blocker(t, k) == [] <==> Unstalled(t, k)
  {
    if k != [] {
      var up := k[..|k| - 1];
      BlockerMeaning(t, up);
      assert forall i :: 1 <= i < |k| ==> k[..i] == up[..i];
      assert k[..|k|] == k;
    }
  }

  /** What it finds is the nearest: nothing between it and the node is stalled. */
  lemma {:induction false} BlockerIsNearest(t: Table, k: Key)
    requires Blocker(t, k) != []
    ensures var b := Blocker(t, k);
      b <= k && Stalled(t, b) && forall i :: |b| < i <= |k| ==> !Stalled(t, k[..i])
  {
    assert k[..|k|] == k;
    if !Stalled(t, k) {
      var up := k[..|k| - 1];
      BlockerIsNearest(t, up);
      assert forall i :: 0 <= i < |k| ==> k[..i] == up[..i];
    }
  }

  lemma {:induction false} SameStallsSameBlocker(t: Table, r: Table, k: Key)
    requires forall p :: Stalled(t, p) <==> Stalled(r, p)
    ensures Blocker(t, k) == Blocker(r, k)
  {
    if k != [] {
      SameStallsSameBlocker(t, r, k[..|k| - 1]);
    }
  }

  lemma DrainPassesUnstalled(t: Table, k: Key, now: int)
    requires NodesOk(t) && k in t
    ensures forall m :: m in Drain(t, k, now).1 ==> m.key == k && Unstalled(Drain(t, k, now).0, k)
  {
    hide WindowOk;
    var (r, sent) := Drain(t, k, now);
    DrainOk(t, k, now);
    if sent != [] {
      SameStallsSameBlocker(t, r, k);
      BlockerMeaning(r, k);
    }
  }

  lemma {:induction false} MessagesInConcat(a: seq<Action>, b: seq<Action>)
    ensures MessagesIn(a + b) == MessagesIn(a) + MessagesIn(b)
  {
    if b == [] {
      assert a + b == a;
    } else {
      assert (a + b)[..|a + b| - 1] == a + b[..|b| - 1];
      MessagesInConcat(a, b[..|b| - 1]);
    }
  }

  lemma {:induction false} MessagesInBuffered(ms: seq<Msg>)
    ensures MessagesIn(Buffered(ms)) == ms
  {
    if ms != [] {
      var n := |ms| - 1;
      assert Buffered(ms)[..n] == Buffered(ms[..n]);
      MessagesInBuffered(ms[..n]);
    }
  }

  lemma MessagesInCalls(sent: seq<Msg>)
    ensures MessagesIn(Calls(sent)) == sent
  {
    if sent != [] {
      assert (Buffered(sent) + [FlushBuffer])[..|sent|] == Buffered(sent);
      MessagesInBuffered(sent);
    }
  }

  lemma {:induction false} WakePassesUnstalled(t: Table, k: Key, now: int)
    requires NodesOk(t) && k in t && !t[k].stall
    ensures forall p :: Stalled(t, p) <==> Stalled(Wake(t, k, now).0, p)
    ensures forall m :: m in MessagesIn(Wake(t, k, now).1) ==> Unstalled(Wake(t, k, now).0, m.key)
    decreases |t[k].affected|
  {
    hide NodesOk;
    hide Drain;
    hide Wake;
    hide Calls;
    hide MessagesIn;
    WakeStep(t, k, now);
    if t[k].affected == [] {
      assert MessagesIn([]) == [] by { MessagesInCalls([]); NoCalls(); }
    } else {
      var w := t[k].affected[0];
      var popped := t[k := t[k].(affected := t[k].affected[1..])];
      var (drained, sent) := if w in popped then Drain(popped, w, now) else (popped, []);
      QueuePoppedOk(t, k);
      if w in popped {
        DrainOk(popped, w, now);
        DrainPassesUnstalled(popped, w, now);
      }
      WakePassesUnstalled(drained, k, now);
      MessagesInConcat(Calls(sent), Wake(drained, k, now).1);
      MessagesInCalls(sent);
    }
  }

  lemma NoCalls()
    ensures Calls([]) == []
  {}

  lemma SendPassesUnstalled(t: Table, m: Msg, now: int)
    requires TrySend(t, m, now).1
    ensures Unstalled(TrySend(t, m, now).0, m.key)
  {
    hide SizeOf;
    hide HasRoom;
    hide Unstalled;
    var queried := Query(t, m.key);
    var r := TrySend(t, m, now).0;
    AskedFrame(queried, m.key);
    SameStallsSameBlocker(queried, r, m.key);
    BlockerMeaning(r, m.key);
  }

  lemma UpdatePassesUnstalled(t: Table, k: Key, responseType: byte, now: int)
    requires TableOk(t)
    ensures var (r, sent, id) := StateUpdate(t, k, responseType, now); forall m :: m in sent ==> Unstalled(r, m.key)
  {
    hide WindowOk;
    hide Drain;
    hide Scan;
    hide Unstalled;
    if k in t && t[k].responses != [] {
      ScanOk(t[k], 0, responseType, now);
      DrainPassesUnstalled(t[k := Scan(t[k], 0, responseType, now).node], k, now);
    }
  }

  lemma StallEndPassesUnstalled(t: Table, k: Key, status: byte, now: int)
    requires TableOk(t) && IsKey(k)
    ensures var (r, made) := UpdateStall(t, k, status, now); forall m :: m in MessagesIn(made) ==> Unstalled(r, m.key)
  {
    hide WindowOk;
    hide Wake;
    hide Unstalled;
    QueryOk(t, k);
    if status == 0 {
      var queried := Query(t, k);
      WakePassesUnstalled(queried[k := queried[k].(stall := false)], k, now);
    }
  }

  /**
   Whatever passes flow control in a region, directly or out of a held queue,
   goes to a node that is not stalled and has no stalled ancestor but the root.
   */
  lemma StallSafety(t: Table, r: Region, m: Msg)
    requires TableOk(t) && ValidRegion(r) && m in Passed(t, r)
    ensures Unstalled(Enter(t, r), m.key)
  {
    hide TrySend;
    hide StateUpdate;
    hide UpdateStall;
    hide Unstalled;
    hide TableOk;
    match r {
      case Send(_, now) => SendPassesUnstalled(t, m, now);
      case Update(k, responseType, now) =>
        MessagesInCalls(StateUpdate(t, k, responseType, now).1);
        UpdatePassesUnstalled(t, k, responseType, now);
      case Stall(k, status, now) => StallEndPassesUnstalled(t, k, status, now);
      case _ =>
    }
  }

  /** The root is never consulted: its own stall holds nothing back. */
  lemma {:induction false} RootStallIgnored(t: Table, root: Node, k: Key)
    ensures Blocker(t[[] := root], k) == Blocker(t, k)
  {
    if k != [] {
      RootStallIgnored(t, root, k[..|k| - 1]);
    }
  }
}
