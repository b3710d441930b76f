/**
 Threads, receiver and flusher together. Each region under a mutex is one step:
 a send takes a sequence number, asks flow control, and adds to the send buffer
 in three steps that other threads may interrupt. The receiver holds the node
 table while it makes the send buffer calls it owes, so until they are made no
 other thread enters the node table, but anyone may use the send buffer.
 */
module Interleaving {
  import opened Bytes
  import opened Messages
  import opened NodeStates
  import opened FlowControl
  import opened SendBuffers
  import opened Receivers
  import opened Wire

  /** A send under way: numbered, and once cleared by flow control on its way to the buffer. */
  datatype Flight = Flight(thread: nat, cleared: bool, msg: Msg)

  /**
   The shared state, with two histories: every message issued, in the order the
   sequence numbers were taken, and every message added to the send buffer.
   */
  datatype System = System(
    table: Table, flights: seq<Flight>, owed: seq<Action>, buffer: SendState,
    log: seq<Msg>, issued: seq<Msg>)

  const INITIAL := System(map[], [], [], EMPTY, [], [])

  datatype Step =
    | Take(thread: nat, key: Key, msgType: byte, data: seq<byte>, actionId: nat, numbered: bool)
    | Try(thread: nat, now: int)
    | Put(thread: nat)
    | Locked(region: Region)
    | PayOwed
    | FlushStep
    | SetCapacity(capacity: byte)
    | SkipNumber(key: Key)

  function FlightOf(fs: seq<Flight>, thread: nat): (i: nat)
    ensures i <= |fs| && (i < |fs| ==> fs[i].thread == thread)
    ensures forall j :: 0 <= j < i ==> fs[j].thread != thread
    decreases |fs|
  {
    if fs == [] then 0 else if fs[0].thread == thread then 0 else 1 + FlightOf(fs[1..], thread)
  }

  function Without<T>(s: seq<T>, i: nat): seq<T>
    requires i < |s|
  {
    s[..i] + s[i + 1..]
  }

  /** A message fits the length byte and has a type the response table covers. */
  ghost predicate Fine(m: Msg) {
    IsKey(m.key) && |m.key| + 4 + |m.data| <= 255 && m.msgType < 0x80
  }

  /** The bytes of a message as the library builds them. */
  function BytesOf(m: Msg): (b: seq<byte>)
    requires Fine(m)
    ensures Sendable(b)
  {
    KeyOfStackOf(m.key);
    DissectBuilt(StackOf(m.key), m.seqnum, m.msgType, m.data);
    Build(StackOf(m.key), m.seqnum, m.msgType, m.data)
  }

  /** The bytes tell the message: the far end reads its node, number, type and data off them. */
  lemma BytesTell(m: Msg)
    requires Fine(m)
    ensures var b := BytesOf(m);
      && WellFormed(b) && IsStack(AddressField(b)) && KeyOf(AddressField(b)) == m.key
      && SeqField(b) == m.seqnum && TypeField(b) == m.msgType && DataField(b) == m.data
  {
    KeyOfStackOf(m.key);
    DissectBuilt(StackOf(m.key), m.seqnum, m.msgType, m.data);
  }

  /** What a step needs: the mutexes free, and for each thread its own next step. */
  ghost predicate Enabled(s: System, step: Step) {
    match step
    case Take(thread, key, msgType, data, _, numbered) =>
      && FlightOf(s.flights, thread) == |s.flights|
      && IsKey(key) && |key| + 4 + |data| <= 255 && msgType < 0x80
      && (numbered ==> s.owed == [])
    case Try(thread, _) =>
      var i := FlightOf(s.flights, thread);
      i < |s.flights| && !s.flights[i].cleared && s.owed == []
    case Put(thread) =>
      var i := FlightOf(s.flights, thread);
      i < |s.flights| && s.flights[i].cleared && Fine(s.flights[i].msg)
    case Locked(region) =>
      s.owed == [] && ValidRegion(region) && !region.Send? && !region.TakeSendNumber?
    case PayOwed => s.owed != [] && (s.owed[0].Buffer? ==> Fine(s.owed[0].msg))
    case FlushStep => true
    case SetCapacity(_) => true
    case SkipNumber(key) => IsKey(key) && s.owed == []
  }

  function AddedTo(s: System, m: Msg): System
    requires Fine(m)
  {
    s.(buffer := Added(s.buffer, BytesOf(m)), log := s.log + [m])
  }

  function StepOf(s: System, step: Step): System
    requires Enabled(s, step)
  {
    match step
    case Take(thread, key, msgType, data, actionId, numbered) =>
      var (table, seqnum) := if numbered then SendNumberTaken(s.table, key) else (s.table, 0);
      var m := Msg(thread, key, seqnum, msgType, data, actionId);
      s.(table := table, flights := s.flights + [Flight(thread, false, m)], issued := s.issued + [m])
    case Try(thread, now) =>
      var i := FlightOf(s.flights, thread);
      var (table, passed) := TrySend(s.table, s.flights[i].msg, now);
      s.(table := table,
         flights := if passed then s.flights[i := s.flights[i].(cleared := true)] else Without(s.flights, i))
    case Put(thread) =>
      var i := FlightOf(s.flights, thread);
      AddedTo(s, s.flights[i].msg).(flights := Without(s.flights, i))
    case Locked(region) =>
      s.(table := Enter(s.table, region), owed := CallsOf(s.table, region))
    case PayOwed =>
      var rest := s.(owed := s.owed[1..]);
      if s.owed[0].Buffer? then AddedTo(rest, s.owed[0].msg) else rest.(buffer := Flushed(rest.buffer))
    case FlushStep => s.(buffer := Flushed(s.buffer))
    case SetCapacity(c) => s.(buffer := WithCapacity(s.buffer, c))
    case SkipNumber(key) => s.(table := SendNumberTaken(s.table, key).0)
  }

  /** Step sequences that can happen from the initial state. */
  ghost predicate Legal(steps: seq<Step>)
    decreases |steps|, 0
  {
    steps == [] || (Legal(steps[..|steps| - 1]) && Enabled(After(steps[..|steps| - 1]), steps[|steps| - 1]))
  }

  ghost function After(steps: seq<Step>): System
    requires Legal(steps)
    decreases |steps|, 1
  {
    if steps == [] then INITIAL else StepOf(After(steps[..|steps| - 1]), steps[|steps| - 1])
  }

  // ------------------------------------------------------------- selections

  /** Whose messages: those of one thread, or everyone's. */
  datatype Who = One(thread: nat) | Everyone

  predicate Picks(w: Who, k: Key, m: Msg) {
    m.key == k && (w.One? ==> m.sender == w.thread)
  }

  /** The messages to node k issued by w, in order. */
  function Sel(w: Who, k: Key, ms: seq<Msg>): seq<Msg> {
    if ms == [] then []
    else Sel(w, k, ms[..|ms| - 1]) + if Picks(w, k, ms[|ms| - 1]) then [ms[|ms| - 1]] else []
  }

  function Held(t: Table, k: Key): seq<Msg> {
    if k in t then t[k].held else []
  }

  function FlightMsgs(fs: seq<Flight>): (ms: seq<Msg>)
    ensures |ms| == |fs| && forall i :: 0 <= i < |fs| ==> ms[i] == fs[i].msg
  {
    seq(|fs|, i requires 0 <= i < |fs| => fs[i].msg)
  }

  lemma {:induction false} SelConcat(w: Who, k: Key, a: seq<Msg>, b: seq<Msg>)
    ensures Sel(w, k, a + b) == Sel(w, k, a) + Sel(w, k, b)
  {
    if b == [] {
      assert a + b == a;
    } else {
      var n := |b| - 1;
      assert (a + b)[..|a + b| - 1] == a + b[..n];
      SelConcat(w, k, a, b[..n]);
    }
  }

  lemma SelOne(w: Who, k: Key, m: Msg)
    ensures Sel(w, k, [m]) == if Picks(w, k, m) then [m] else []
  {
    assert [m][..0] == [];
  }

  lemma SelAppend(w: Who, k: Key, ms: seq<Msg>, m: Msg)
    ensures Sel(w, k, ms + [m]) == Sel(w, k, ms) + if Picks(w, k, m) then [m] else []
  {
    assert (ms + [m])[..|ms|] == ms;
  }

  lemma {:induction false} SelMember(w: Who, k: Key, ms: seq<Msg>, m: Msg)
    ensures m in Sel(w, k, ms) <==> m in ms && Picks(w, k, m)
  {
    if ms != [] {
      SelMember(w, k, ms[..|ms| - 1], m);
      assert ms == ms[..|ms| - 1] + [ms[|ms| - 1]];
    }
  }

  /** Messages that go to another node, or come from other threads, are not selected. */
  lemma SelNone(w: Who, k: Key, ms: seq<Msg>)
    requires forall m :: m in ms ==> !Picks(w, k, m)
    ensures Sel(w, k, ms) == []
  {
    if Sel(w, k, ms) != [] {
      SelMember(w, k, ms, Sel(w, k, ms)[0]);
    }
  }

  // --------------------------------------------- conservation in the node table

  lemma {:induction false} DrainConserves(t: Table, k: Key, now: int, q: Key)
    requires k in t
    ensures var (r, sent) := Drain(t, k, now);
      Held(t, q) == if q == k then sent + Held(r, q) else Held(r, q)
    decreases |t[k].held|
  {
    hide Asked;
    hide HasRoom;
    hide Expecting;
    hide Blocker;
    var n := t[k];
    AskedFrame(t, k);
    if Blocker(t, k) == [] && n.held != [] && HasRoom(n, n.held[0]) {
      DrainConserves(t[k := Expecting(n, n.held[0], now).(held := n.held[1..])], k, now, q);
    }
  }

  /** What draining a node takes out of its held messages is what it sends, in order. */
  lemma DrainSelected(t: Table, k: Key, now: int, w: Who, q: Key)
    requires NodesOk(t) && k in t
    ensures var (r, sent) := Drain(t, k, now);
      Sel(w, q, sent) + Sel(w, q, Held(r, q)) == Sel(w, q, Held(t, q))
  {
    hide Drain;
    var (r, sent) := Drain(t, k, now);
    DrainOk(t, k, now);
    DrainConserves(t, k, now, q);
    if q == k {
      SelConcat(w, q, sent, Held(r, q));
    } else {
      SelNone(w, q, sent);
    }
  }

  lemma QueuePoppedHeld(t: Table, k: Key, q: Key)
    requires k in t && t[k].affected != []
    ensures Held(t[k := t[k].(affected := t[k].affected[1..])], q) == Held(t, q)
  {}

  lemma {:induction false} WakeSelected(t: Table, k: Key, now: int, w: Who, q: Key)
    requires NodesOk(t) && k in t && !t[k].stall
    ensures var (r, made) := Wake(t, k, now);
      Sel(w, q, MessagesIn(made)) + Sel(w, q, Held(r, q)) == Sel(w, q, Held(t, q))
    decreases |t[k].affected|
  {
    hide Drain;
    hide Wake;
    hide Calls;
    hide NodesOk;
    hide Sel;
    hide Held;
    WakeStep(t, k, now);
    if t[k].affected == [] {
      SelNone(w, q, []);
      assert MessagesIn([]) == [];
    } else {
      var f := t[k].affected[0];
      var popped := t[k := t[k].(affected := t[k].affected[1..])];
      var (drained, sent) := if f in popped then Drain(popped, f, now) else (popped, []);
      var (r, made) := Wake(drained, k, now);
      QueuePoppedOk(t, k);
      QueuePoppedHeld(t, k, q);
      assert Sel(w, q, sent) + Sel(w, q, Held(drained, q)) == Sel(w, q, Held(popped, q)) by {
        if f in popped {
          DrainSelected(popped, f, now, w, q);
        } else {
          SelNone(w, q, []);
        }
      }
      if f in popped {
        DrainOk(popped, f, now);
      }
      WakeSelected(drained, k, now, w, q);
      MessagesInConcat(Calls(sent), made);
      MessagesInCalls(sent);
      SelConcat(w, q, sent, MessagesIn(made));
    }
  }

  lemma QueryHeld(t: Table, k: Key, q: Key)
    ensures Held(Query(t, k), q) == Held(t, q)
  {}

  lemma UpdateConserves(t: Table, k: Key, responseType: byte, now: int, w: Who, q: Key)
    requires TableOk(t)
    ensures var (r, sent, id) := StateUpdate(t, k, responseType, now);
      Sel(w, q, sent) + Sel(w, q, Held(r, q)) == Sel(w, q, Held(t, q))
  {
    hide Drain;
    hide Scan;
    hide TableOk;
    hide NodesOk;
    SelNone(w, q, []);
    if k in t && t[k].responses != [] {
      var s := Scan(t[k], 0, responseType, now);
      ScanKeeps(t, k, responseType, now);
      if s.matched {
        DrainSelected(t[k := s.node], k, now, w, q);
      }
    }
  }

  lemma StallConserves(t: Table, k: Key, status: byte, now: int, w: Who, q: Key)
    requires TableOk(t) && IsKey(k)
    ensures var (r, made) := UpdateStall(t, k, status, now);
      Sel(w, q, MessagesIn(made)) + Sel(w, q, Held(r, q)) == Sel(w, q, Held(t, q))
  {
    hide Wake;
    hide NodesOk;
    QueryHeld(t, k, q);
    QueryOk(t, k);
    SelNone(w, q, []);
    assert MessagesIn([]) == [];
    var queried := Query(t, k);
    if status == 0 {
      StallFlagOk(queried, k);
      WakeSelected(queried[k := queried[k].(stall := false)], k, now, w, q);
    }
  }

  /** The receiver's regions move messages from held queues to the calls it owes, keeping their order. */
  lemma LockedConserves(t: Table, r: Region, w: Who, q: Key)
    requires TableOk(t) && ValidRegion(r) && !r.Send?
    ensures Sel(w, q, MessagesIn(CallsOf(t, r))) + Sel(w, q, Held(Enter(t, r), q)) == Sel(w, q, Held(t, q))
  {
    hide StateUpdate;
    hide UpdateStall;
    hide Calls;
    hide TableOk;
    hide Sel;
    match r {
      case Send(_, _) =>
      case Update(k, responseType, now) =>
        UpdateConserves(t, k, responseType, now, w, q);
        MessagesInCalls(StateUpdate(t, k, responseType, now).1);
      case Stall(k, status, now) =>
        StallConserves(t, k, status, now, w, q);
      case _ =>
        QueryHeld(t, r.key, q);
        SelNone(w, q, []);
        assert MessagesIn([]) == [];
    }
  }

  lemma StallFlagOk(t: Table, k: Key)
    requires NodesOk(t) && k in t
    ensures NodesOk(t[k := t[k].(stall := false)])
  {
    hide WindowOk;
  }

  lemma ScanKeeps(t: Table, k: Key, responseType: byte, now: int)
    requires TableOk(t) && k in t && t[k].responses != []
    ensures var n := Scan(t[k], 0, responseType, now).node;
      n.held == t[k].held && NodesOk(t[k := n])
  {
    hide WindowOk;
    ScanOk(t[k], 0, responseType, now);
  }

  lemma TrySendHeld(t: Table, m: Msg, now: int, q: Key)
    ensures var (r, passed) := TrySend(t, m, now);
      && (passed ==> Held(t, m.key) == [] && Held(r, q) == Held(t, q))
      && (!passed ==> Held(r, q) == if q == m.key then Held(t, q) + [m] else Held(t, q))
  {
    hide HasRoom;
    hide Asked;
    hide Expecting;
    var queried := Query(t, m.key);
    AskedFrame(queried, m.key);
    ExpectingFrame(Asked(queried, m.key)[m.key], m, now);
  }
}
