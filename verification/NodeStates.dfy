/**
 Per-node flow control (src/transmission/bidib_transmission_node_states.c): a
 window of expected response bytes, a queue of held messages, a stall flag and a
 queue of nodes to wake when the stall ends. The functions give each region
 under the node table mutex as a map from table to table; the class runs the
 library's loops on the table and is proved against them.

 The table is keyed by C strings, so a key is the address up to its first zero.
 */
module NodeStates {
  import opened Bytes
  import opened Messages
  import opened Responses

  type Key = seq<byte>

  /** A message on its way to a node; the sender is the thread that issued it. */
  datatype Msg = Msg(sender: nat, key: Key, seqnum: byte, msgType: byte, data: seq<byte>, actionId: nat)

  datatype Expected = Expected(msgType: byte, created: int, actionId: nat)

  datatype Node = Node(
    receiveSeqnum: byte, sendSeqnum: byte, stall: bool, responseBytes: int,
    affected: seq<Key>, responses: seq<Expected>, held: seq<Msg>)

  type Table = map<Key, Node>

  /** Calls the holder of the node table makes to the send buffer. */
  datatype Action = Buffer(msg: Msg) | FlushBuffer

  const RESPONSE_LIMIT := 48
  const RESPONSE_QUEUE_EXPIRATION_SECS := 2
  const FRESH := Node(1, 1, false, 0, [], [], [])

  // ------------------------------------------------------------ the stall walk

  function Query(t: Table, k: Key): (r: Table)
    ensures k in r
  {
    if k in t then t else t[k := FRESH]
  }

  predicate Stalled(t: Table, k: Key) {
    k in t && t[k].stall
  }

  /**
   The nearest stalled node from cur towards the root; the root itself is never consulted,
   and [] says there is none.
   */
  function Blocker(t: Table, cur: Key): (b: Key)
    ensures b <= cur && (b != [] ==> Stalled(t, b))
  {
    if cur == [] then [] else if Stalled(t, cur) then cur else Blocker(t, cur[..|cur| - 1])
  }

  /**
   Whether the wake queue search finds an entry. The comparison sets an unsigned
   byte against a signed char, so an address with a byte above 127 is never found.
   */
  predicate Found(queue: seq<Key>, k: Key) {
    k in queue && forall i :: 0 <= i < |k| ==> k[i] < 128
  }

  function Enlisted(queue: seq<Key>, k: Key): seq<Key> {
    if Found(queue, k) then queue else queue + [k]
  }

  /** Asking whether a node is ready puts it into the wake queue of whoever blocks it. */
  function Asked(t: Table, k: Key): Table {
    var b := Blocker(t, k);
    if b == [] then t else t[b := t[b].(affected := Enlisted(t[b].affected, k))]
  }

  // --------------------------------------------------------------- sending

  function Expecting(n: Node, m: Msg, now: int): Node {
    var size := SizeOf(m.msgType);
    if size > 0 then
      n.(responseBytes := n.responseBytes + size, responses := n.responses + [Expected(m.msgType, now, m.actionId)])
    else n
  }

  predicate HasRoom(n: Node, m: Msg) {
    n.responseBytes + SizeOf(m.msgType) <= RESPONSE_LIMIT
  }

  /** Sending a message: it passes, or it joins the held messages of its node. */
  function TrySend(t: Table, m: Msg, now: int): (Table, bool) {
    var queried := Query(t, m.key);
    var ready := Blocker(queried, m.key) == [];
    var asked := Asked(queried, m.key);
    var n := asked[m.key];
    if ready && n.held == [] && HasRoom(n, m) then
      (asked[m.key := Expecting(n, m, now)], true)
    else
      (asked[m.key := n.(held := n.held + [m])], false)
  }

  /** Sending held messages as long as the node is ready and its window has room. */
  function Drain(t: Table, k: Key, now: int): (r: (Table, seq<Msg>))
    requires k in t
    ensures r.0.Keys == t.Keys
    ensures forall p :: p in t ==> r.0[p].stall == t[p].stall && (!t[p].stall ==> r.0[p].affected == t[p].affected)
    decreases |t[k].held|
  {
    var n := t[k];
    if Blocker(t, k) != [] then (Asked(t, k), [])
    else if n.held == [] || !HasRoom(n, n.held[0]) then (t, [])
    else
      var (rest, sent) := Drain(t[k := Expecting(n, n.held[0], now).(held := n.held[1..])], k, now);
      (rest, [n.held[0]] + sent)
  }

  function Buffered(ms: seq<Msg>): seq<Action> {
    seq(|ms|, i requires 0 <= i < |ms| => Buffer(ms[i]))
  }

  /** The calls made for drained messages: each is buffered, and a flush follows unless there were none. */
  function Calls(sent: seq<Msg>): seq<Action> {
    if sent == [] then [] else Buffered(sent) + [FlushBuffer]
  }

  // -------------------------------------------------------------- responses

  function Popped(n: Node): Node
    requires n.responses != []
  {
    n.(responses := n.responses[1..], responseBytes := n.responseBytes - SizeOf(n.responses[0].msgType))
  }

  predicate Expired(e: Expected, now: int) {
    now - e.created >= RESPONSE_QUEUE_EXPIRATION_SECS
  }

  datatype Scanned = Scanned(node: Node, matched: bool, actionId: nat, dropped: nat)

  /**
   The scan over the answers of the front entry: a match takes the entry off; an
   expired entry is dropped and the scan goes on, at the next answer index, with
   the entry behind it.
   */
  function Scan(n: Node, i: nat, responseType: byte, now: int): Scanned
    requires n.responses != []
    decreases |n.responses|, |ResponseInfo(n.responses[0].msgType).types| - i
  {
    var head := n.responses[0];
    var types := ResponseInfo(head.msgType).types;
    if i >= |types| then Scanned(n, false, 0, 0)
    else if types[i] == responseType then Scanned(Popped(n), true, head.actionId, 0)
    else if Expired(head, now) then
      if |n.responses| > 1 then
        var s := Scan(Popped(n), i + 1, responseType, now);
        s.(dropped := s.dropped + 1)
      else Scanned(Popped(n), false, 0, 1)
    else Scan(n, i + 1, responseType, now)
  }

  /** A message from a node: table, messages released by it, and the action id it answers. */
  function StateUpdate(t: Table, k: Key, responseType: byte, now: int): (Table, seq<Msg>, nat) {
    if k !in t || t[k].responses == [] then (t, [], 0)
    else
      var s := Scan(t[k], 0, responseType, now);
      if s.matched then
        var (drained, sent) := Drain(t[k := s.node], k, now);
        (drained, sent, s.actionId)
      else (t[k := s.node], [], 0)
  }

  // ----------------------------------------------------------------- stalls

  /** Releasing the wake queue of a node that is no longer stalled, front first. */
  function Wake(t: Table, k: Key, now: int): (Table, seq<Action>)
    requires k in t && !t[k].stall
    decreases |t[k].affected|
  {
    if t[k].affected == [] then (t, [])
    else
      var w := t[k].affected[0];
      var popped := t[k := t[k].(affected := t[k].affected[1..])];
      var (drained, sent) := if w in popped then Drain(popped, w, now) else (popped, []);
      var (woken, calls) := Wake(drained, k, now);
      (woken, Calls(sent) + calls)
  }

  function UpdateStall(t: Table, k: Key, status: byte, now: int): (Table, seq<Action>) {
    var queried := Query(t, k);
    if status == 0 then Wake(queried[k := queried[k].(stall := false)], k, now)
    else (queried[k := queried[k].(stall := true)], [])
  }

  // ------------------------------------------------------- sequence numbers

  function NextSeqnum(s: byte): byte {
    if s == 255 then 1 else s + 1
  }

  function SendNumberTaken(t: Table, k: Key): (Table, byte) {
    var queried := Query(t, k);
    var s := queried[k].sendSeqnum;
    (queried[k := queried[k].(sendSeqnum := NextSeqnum(s))], s)
  }

  function ReceiveNumberTaken(t: Table, k: Key): (Table, byte) {
    var queried := Query(t, k);
    var s := queried[k].receiveSeqnum;
    (queried[k := queried[k].(receiveSeqnum := NextSeqnum(s))], s)
  }

  function ReceiveNumberSet(t: Table, k: Key, s: byte): Table {
    var queried := Query(t, k);
    queried[k := queried[k].(receiveSeqnum := s)]
  }

  // --------------------------------------------- the table and its operations

  class NodeStateTable {
    var table: Table
    var calls: seq<Action>

    constructor ()
      ensures table == map[] && calls == []
    {
      table := map[];
      calls := [];
    }

    method NodeQuery(k: Key) returns (n: Node)
      modifies this`table
      ensures table == Query(old(table), k) && n == table[k]
    {
      if k !in table {
        table := table[k := FRESH];
      }
      n := table[k];
    }

    /** The walk towards the root: a copy of the address loses its last non-zero byte in each round. */
    method StallReady(addrStack: seq<byte>) returns (ready: bool)
      requires IsStack(addrStack)
      modifies this`table
      ensures table == Asked(old(table), KeyOf(addrStack))
      ensures ready <==> Blocker(old(table), KeyOf(addrStack)) == []
    {
      var addrCpy := new byte[4](i requires 0 <= i < 4 => addrStack[i]);
      assert addrCpy[..] == addrStack;
      while addrCpy[0] != 0
        invariant IsStack(addrCpy[..]) && table == old(table)
        invariant Blocker(table, KeyOf(addrCpy[..])) == Blocker(table, KeyOf(addrStack))
        decreases (if addrCpy[0] != 0 then 1 else 0) + (if addrCpy[1] != 0 then 1 else 0)
          + (if addrCpy[2] != 0 then 1 else 0)
      {
        var key := KeyOf(addrCpy[..]);
        if key in table && table[key].stall {
          var n := table[key];
          if !Found(n.affected, KeyOf(addrStack)) {
            table := table[key := n.(affected := n.affected + [KeyOf(addrStack)])];
          } else {
            assert table == table[key := n];
          }
          return false;
        }
        ghost var cur := addrCpy[..];
        var i := 2;
        while i >= 0
          invariant -1 <= i <= 2 && addrCpy[..] == cur
          invariant forall j :: i < j <= 2 ==> cur[j] == 0
        {
          if addrCpy[i] != 0 {
            addrCpy[i] := 0;
            break;
          }
          i := i - 1;
        }
        assert i >= 0 && addrCpy[..] == cur[i := 0];
        ShortenedKey(cur, i);
      }
      ready := true;
    }

    method NodeTrySend(m: Msg, now: int) returns (passed: bool)
      requires IsKey(m.key)
      modifies this`table
      ensures (table, passed) == TrySend(old(table), m, now)
    {
      var n := NodeQuery(m.key);
      KeyOfStackOf(m.key);
      var ready := StallReady(StackOf(m.key));
      n := table[m.key];
      if ready && n.held == [] && n.responseBytes + SizeOf(m.msgType) <= RESPONSE_LIMIT {
        table := table[m.key := Expecting(n, m, now)];
        passed := true;
      } else {
        table := table[m.key := n.(held := n.held + [m])];
        passed := false;
      }
    }

    method TryQueuedMessages(k: Key, now: int)
      requires k in table && IsKey(k)
      modifies this
      ensures table == Drain(old(table), k, now).0
      ensures calls == old(calls) + Calls(Drain(old(table), k, now).1)
    {
      hide ResponseInfo;
      hide Blocker;
      hide Asked;
      hide Expecting;
      hide StackOf;
      hide Drain;
      ghost var goal := Drain(table, k, now);
      ghost var sent: seq<Msg> := [];
      var sentCount := 0;
      KeyOfStackOf(k);
      assert goal.1 == sent + Drain(table, k, now).1;
      while true
        invariant k in table && sentCount == |sent|
        invariant goal.0 == Drain(table, k, now).0 && goal.1 == sent + Drain(table, k, now).1
        invariant calls == old(calls) + Buffered(sent)
        decreases |table[k].held|
      {
        DrainStep(table, k, now);
        var ready := StallReady(StackOf(k));
        if !ready || table[k].held == [] {
          break;
        }
        var n := table[k];
        var m := n.held[0];
        if n.responseBytes + SizeOf(m.msgType) <= RESPONSE_LIMIT {
          calls := calls + [Buffer(m)];
          table := table[k := Expecting(n, m, now).(held := n.held[1..])];
          HeldAfterExpecting(n, m, now);
          assert Buffered(sent + [m]) == Buffered(sent) + [Buffer(m)];
          sent := sent + [m];
          sentCount := sentCount + 1;
        } else {
          break;
        }
      }
      assert sent + [] == sent && goal == (table, sent);
      if sentCount > 0 {
        calls := calls + [FlushBuffer];
      }
    }

    method NodeStateUpdate(addrStack: seq<byte>, responseType: byte, now: int) returns (actionId: nat)
      requires IsStack(addrStack)
      modifies this
      ensures var (t, sent, id) := StateUpdate(old(table), KeyOf(addrStack), responseType, now);
        table == t && calls == old(calls) + Calls(sent) && actionId == id
    {
      hide ResponseInfo;
      hide Drain;
      actionId := 0;
      var k := KeyOf(addrStack);
      if k in table && table[k].responses != [] {
        var response := table[k].responses[0];
        ghost var before := table;
        ghost var goal := Scan(table[k], 0, responseType, now);
        var i := 2;
        while i <= |ResponseInfo(response.msgType).types| + 1
          invariant 2 <= i && k in table && table[k].responses != [] && response == table[k].responses[0]
          invariant calls == old(calls) && table == before[k := table[k]]
          invariant var s := Scan(table[k], i - 2, responseType, now);
            goal.node == s.node && goal.matched == s.matched && goal.actionId == s.actionId
          decreases |table[k].responses|,
            var n := |ResponseInfo(response.msgType).types|; if i <= n + 1 then n + 2 - i else 0
        {
          if ResponseInfo(response.msgType).types[i - 2] == responseType {
            table := table[k := Popped(table[k])];
            actionId := response.actionId;
            assert table == before[k := goal.node];
            TryQueuedMessages(k, now);
            return;
          } else if now - response.created >= RESPONSE_QUEUE_EXPIRATION_SECS {
            table := table[k := Popped(table[k])];
            if table[k].responses != [] {
              response := table[k].responses[0];
            } else {
              assert table == before[k := goal.node];
              return;
            }
          }
          i := i + 1;
        }
      }
    }

    /** Pops and drains the nodes waiting for k, front first. */
    method ReleaseAffected(k: Key, now: int)
      requires k in table && !table[k].stall
      requires forall w :: w in table[k].affected ==> IsKey(w)
      modifies this
      ensures table == Wake(old(table), k, now).0
      ensures calls == old(calls) + Wake(old(table), k, now).1
    {
      hide Drain;
      hide Wake;
      ghost var goal := Wake(table, k, now);
      ghost var made: seq<Action> := [];
      assert goal.1 == made + Wake(table, k, now).1;
      while table[k].affected != []
        invariant k in table && !table[k].stall
        invariant forall w :: w in table[k].affected ==> IsKey(w)
        invariant goal.0 == Wake(table, k, now).0 && goal.1 == made + Wake(table, k, now).1
        invariant calls == old(calls) + made
        decreases |table[k].affected|
      {
        WakeStep(table, k, now);
        var elem := table[k].affected[0];
        table := table[k := table[k].(affected := table[k].affected[1..])];
        ghost var step := Calls(if elem in table then Drain(table, elem, now).1 else []);
        if elem in table {
          TryQueuedMessages(elem, now);
        }
        assert made + (step + Wake(table, k, now).1) == (made + step) + Wake(table, k, now).1;
        made := made + step;
      }
      WakeStep(table, k, now);
      assert made + [] == made && goal.1 == made;
    }

    method NodeUpdateStall(addrStack: seq<byte>, stallStatus: byte, now: int)
      requires IsStack(addrStack)
      requires forall p, w :: p in table && w in table[p].affected ==> IsKey(w)
      modifies this
      ensures var (t, made) := UpdateStall(old(table), KeyOf(addrStack), stallStatus, now);
        table == t && calls == old(calls) + made
    {
      hide Wake;
      var k := KeyOf(addrStack);
      var n := NodeQuery(k);
      if stallStatus == 0 {
        table := table[k := n.(stall := false)];
        ReleaseAffected(k, now);
      } else {
        table := table[k := n.(stall := true)];
      }
    }

    method GetAndIncrSendSeqnum(addrStack: seq<byte>) returns (seqnum: byte)
      requires IsStack(addrStack)
      modifies this`table
      ensures (table, seqnum) == SendNumberTaken(old(table), KeyOf(addrStack))
    {
      var k := KeyOf(addrStack);
      var n := NodeQuery(k);
      seqnum := n.sendSeqnum;
      table := table[k := n.(sendSeqnum := NextSeqnum(seqnum))];
    }

    method GetAndIncrReceiveSeqnum(addrStack: seq<byte>) returns (seqnum: byte)
      requires IsStack(addrStack)
      modifies this`table
      ensures (table, seqnum) == ReceiveNumberTaken(old(table), KeyOf(addrStack))
    {
      var k := KeyOf(addrStack);
      var n := NodeQuery(k);
      seqnum := n.receiveSeqnum;
      table := table[k := n.(receiveSeqnum := NextSeqnum(seqnum))];
    }

    method SetReceiveSeqnum(addrStack: seq<byte>, seqnum: byte)
      requires IsStack(addrStack)
      modifies this`table
      ensures table == ReceiveNumberSet(old(table), KeyOf(addrStack), seqnum)
    {
      var k := KeyOf(addrStack);
      var n := NodeQuery(k);
      table := table[k := n.(receiveSeqnum := seqnum)];
    }
  }

  /** One round of draining: nothing more is sent, or one message goes and the rest follows. */
  lemma DrainStep(t: Table, k: Key, now: int)
    requires k in t
    ensures Blocker(t, k) == [] ==> Asked(t, k) == t
    ensures Blocker(t, k) != [] ==> Drain(t, k, now) == (Asked(t, k), [])
    ensures Blocker(t, k) == [] && (t[k].held == [] || !HasRoom(t[k], t[k].held[0])) ==> Drain(t, k, now) == (t, [])
    ensures Blocker(t, k) == [] && t[k].held != [] && HasRoom(t[k], t[k].held[0]) ==>
      var m := t[k].held[0];
      var rest := Drain(t[k := Expecting(t[k], m, now).(held := t[k].held[1..])], k, now);
      Drain(t, k, now) == (rest.0, [m] + rest.1)
  {
    hide Blocker;
    hide Expecting;
    hide HasRoom;
  }

  lemma HeldAfterExpecting(n: Node, m: Msg, now: int)
    ensures Expecting(n, m, now) ==
      n.(responseBytes := n.responseBytes + SizeOf(m.msgType), responses := Expecting(n, m, now).responses)
  {
    hide ResponseInfo;
  }

  /** One round of waking. */
  lemma WakeStep(t: Table, k: Key, now: int)
    requires k in t && !t[k].stall
    ensures t[k].affected == [] ==> Wake(t, k, now) == (t, [])
    ensures t[k].affected != [] ==>
      var w := t[k].affected[0];
      var popped := t[k := t[k].(affected := t[k].affected[1..])];
      var (drained, sent) := if w in popped then Drain(popped, w, now) else (popped, []);
      Wake(t, k, now) == (Wake(drained, k, now).0, Calls(sent) + Wake(drained, k, now).1)
  {
    hide Drain;
    hide Calls;
  }

  /** Zeroing the last non-zero byte either leaves the key as it is, behind an inner zero, or shortens it by one. */
  lemma ShortenedKey(stack: seq<byte>, i: nat)
    requires IsStack(stack) && i <= 2 && stack[0] != 0 && stack[i] != 0 && forall j :: i < j <= 2 ==> stack[j] == 0
    ensures var key, shorter := KeyOf(stack), KeyOf(stack[i := 0]);
      key != [] && (shorter == key || shorter == key[..|key| - 1])
  {
    var key, shorter := KeyOf(stack), KeyOf(stack[i := 0]);
    if i == |key| - 1 {
      assert shorter == key[..|key| - 1];
    } else {
      assert shorter == key;
    }
  }
}
