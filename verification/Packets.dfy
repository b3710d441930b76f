/**
 How messages are put into packets: no packet of several messages exceeds the capacity
 announced, none ends while there is room, and what flow control releases goes out at once.
 */
module Packets {
  import opened Bytes
  import opened Messages
  import opened NodeStates
  import opened FlowControl
  import opened SendBuffers
  import opened Receivers
  import opened Wire
  import opened Interleaving
  import opened Ordering

  /** The capacity in force: the last one reported, at least 64. */
  function CapacityNow(ops: seq<SendOp>): nat {
    if ops == [] then 64
    else
      var op := ops[|ops| - 1];
      if !op.Capacity? then CapacityNow(ops[..|ops| - 1]) else if op.capacity <= 64 then 64 else op.capacity
  }

  /** For each message submitted, the capacity in force when it was added. */
  function Caps(ops: seq<SendOp>): (cs: seq<nat>)
    ensures |cs| == |Submitted(ops)|
  {
    if ops == [] then []
    else Caps(ops[..|ops| - 1]) + if ops[|ops| - 1].Add? then [CapacityNow(ops)] else []
  }

  /** The packets written, as the far end takes them off the line. */
  function Written(s: SendState): seq<seq<byte>> {
    ReceiveAll(START, s.written).packets
  }

  /** How many messages are in the first n packets. */
  function Carried(packets: seq<seq<byte>>, n: nat): nat
    requires n <= |packets|
  {
    |Delivered(packets[..n])|
  }

  /** The n-th packet keeps to the capacity in force when its last message was added, or holds a single message. */
  ghost predicate KeepsTo(packets: seq<seq<byte>>, caps: seq<nat>, n: nat)
    requires n < |packets|
  {
    var e := Carried(packets, n + 1);
    && Carried(packets, n) < e <= |caps|
    && (|packets[n]| <= caps[e - 1] || e == Carried(packets, n) + 1)
  }

  /** The n-th packet left no room for another message, or not for the one that came next. */
  ghost predicate IsFull(packets: seq<seq<byte>>, submitted: seq<seq<byte>>, caps: seq<nat>, n: nat)
    requires n < |packets| && |submitted| == |caps|
  {
    var e := Carried(packets, n + 1);
    && 0 < e <= |caps|
    && (|packets[n]| + 4 > caps[e - 1] || (e < |submitted| && |packets[n]| + |submitted[e]| > caps[e]))
  }

  ghost predicate AllKeep(packets: seq<seq<byte>>, caps: seq<nat>) {
    forall n :: 0 <= n < |packets| ==> KeepsTo(packets, caps, n)
  }

  ghost predicate AllFull(packets: seq<seq<byte>>, submitted: seq<seq<byte>>, caps: seq<nat>)
    requires |submitted| == |caps|
  {
    forall n :: 0 <= n < |packets| ==> IsFull(packets, submitted, caps, n)
  }

  /** What waits leaves four bytes of the capacity in force when its last message was added. */
  ghost predicate WaitsSmall(pending: seq<byte>, caps: seq<nat>) {
    pending != [] ==> caps != [] && |pending| + 4 <= caps[|caps| - 1]
  }

  lemma CarriedBefore(packets: seq<seq<byte>>, p: seq<byte>, n: nat)
    requires n <= |packets|
    ensures Carried(packets + [p], n) == Carried(packets, n)
    ensures Carried(packets + [p], |packets| + 1) == Carried(packets, |packets|) + |SplitOf(p)|
  {
    assert (packets + [p])[..n] == packets[..n];
    assert (packets + [p])[..|packets| + 1] == packets + [p] && packets[..|packets|] == packets;
    DeliveredAppend(packets, p);
  }

  /** A flush writes what waits as one packet, and what waits are the messages no packet carries yet. */
  lemma FlushWrites(s: SendState, submitted: seq<seq<byte>>)
    requires InStep(s, submitted)
    ensures Written(Flushed(s)) == Written(s) + if s.pending == [] then [] else [s.pending]
    ensures Carried(Written(s), |Written(s)|) + |SplitOf(s.pending)| == |submitted|
    ensures s.pending != [] ==> |SplitOf(s.pending)| > 0
  {
    hide Frame;
    assert Written(s)[..|Written(s)|] == Written(s);
    if s.pending != [] {
      var r := ReceiveAll(START, s.written);
      ReceiveConcat(START, s.written, Frame(s.pending));
      ReceiveFrame(r, s.pending);
    }
  }

  /** A packet more behind them changes nothing about the packets before. */
  lemma KeepStill(packets: seq<seq<byte>>, p: seq<byte>, caps: seq<nat>, n: nat)
    requires n < |packets| && KeepsTo(packets, caps, n)
    ensures KeepsTo(packets + [p], caps, n)
  {
    hide Carried;
    CarriedBefore(packets, p, n);
    CarriedBefore(packets, p, n + 1);
  }

  lemma FullStill(packets: seq<seq<byte>>, p: seq<byte>, submitted: seq<seq<byte>>, caps: seq<nat>, n: nat)
    requires n < |packets| && |submitted| == |caps| && IsFull(packets, submitted, caps, n)
    ensures IsFull(packets + [p], submitted, caps, n)
  {
    hide Carried;
    CarriedBefore(packets, p, n + 1);
  }

  lemma AppendKeeps(packets: seq<seq<byte>>, p: seq<byte>, caps: seq<nat>)
    requires AllKeep(packets, caps) && |SplitOf(p)| > 0
    requires Carried(packets, |packets|) + |SplitOf(p)| == |caps|
    requires |p| <= caps[|caps| - 1] || |SplitOf(p)| == 1
    ensures AllKeep(packets + [p], caps)
  {
    hide Carried;
    hide KeepsTo;
    forall n | 0 <= n < |packets|
      ensures KeepsTo(packets + [p], caps, n)
    {
      KeepStill(packets, p, caps, n);
    }
    LastKeeps(packets, p, caps);
  }

  lemma LastKeeps(packets: seq<seq<byte>>, p: seq<byte>, caps: seq<nat>)
    requires |SplitOf(p)| > 0 && Carried(packets, |packets|) + |SplitOf(p)| == |caps|
    requires |p| <= caps[|caps| - 1] || |SplitOf(p)| == 1
    ensures KeepsTo(packets + [p], caps, |packets|)
  {
    hide Carried;
    hide SplitOf;
    CarriedBefore(packets, p, |packets|);
    var e := Carried(packets + [p], |packets| + 1);
    assert e == |caps| && (packets + [p])[|packets|] == p;
  }

  lemma AppendFull(packets: seq<seq<byte>>, p: seq<byte>, submitted: seq<seq<byte>>, caps: seq<nat>)
    requires |submitted| == |caps| && AllFull(packets, submitted, caps)
    requires var e := Carried(packets, |packets|) + |SplitOf(p)|;
      && 0 < e <= |caps|
      && (|p| + 4 > caps[e - 1] || (e < |submitted| && |p| + |submitted[e]| > caps[e]))
    ensures AllFull(packets + [p], submitted, caps)
  {
    hide Carried;
    hide IsFull;
    forall n | 0 <= n < |packets|
      ensures IsFull(packets + [p], submitted, caps, n)
    {
      FullStill(packets, p, submitted, caps, n);
    }
    assert IsFull(packets + [p], submitted, caps, |packets|) by { LastFull(packets, p, submitted, caps); }
  }

  lemma LastFull(packets: seq<seq<byte>>, p: seq<byte>, submitted: seq<seq<byte>>, caps: seq<nat>)
    requires |submitted| == |caps|
    requires var e := Carried(packets, |packets|) + |SplitOf(p)|;
      && 0 < e <= |caps|
      && (|p| + 4 > caps[e - 1] || (e < |submitted| && |p| + |submitted[e]| > caps[e]))
    ensures IsFull(packets + [p], submitted, caps, |packets|)
  {
    hide Carried;
    CarriedBefore(packets, p, |packets|);
  }

  lemma MoreKeep(packets: seq<seq<byte>>, caps: seq<nat>, c: nat)
    requires AllKeep(packets, caps)
    ensures AllKeep(packets, caps + [c])
  {
    hide Carried;
    forall n | 0 <= n < |packets|
      ensures KeepsTo(packets, caps + [c], n)
    {
      assert KeepsTo(packets, caps, n);
    }
  }

  lemma MoreFull(packets: seq<seq<byte>>, submitted: seq<seq<byte>>, caps: seq<nat>, m: seq<byte>, c: nat)
    requires |submitted| == |caps| && AllFull(packets, submitted, caps)
    ensures AllFull(packets, submitted + [m], caps + [c])
  {
    hide Carried;
    forall n | 0 <= n < |packets|
      ensures IsFull(packets, submitted + [m], caps + [c], n)
    {
      assert IsFull(packets, submitted, caps, n);
    }
  }

  lemma FlushKeeps(s: SendState, submitted: seq<seq<byte>>, caps: seq<nat>)
    requires InStep(s, submitted) && |submitted| == |caps| && AllKeep(Written(s), caps)
    requires s.pending != [] ==> |caps| > 0 && (|s.pending| <= caps[|caps| - 1] || |SplitOf(s.pending)| == 1)
    ensures AllKeep(Written(Flushed(s)), caps)
  {
    hide InStep;
    hide Flushed;
    hide Written;
    hide Carried;
    hide AllKeep;
    FlushWrites(s, submitted);
    if s.pending != [] {
      AppendKeeps(Written(s), s.pending, caps);
    } else {
      assert Written(s) + [] == Written(s);
    }
  }

  /** The buffer at the two stages of adding: after the flush in front, and with the message in. */
  function Room(s: SendState, m: seq<byte>): SendState {
    if |m| + |s.pending| > s.cap then Flushed(s) else s
  }

  function Filled(s: SendState, m: seq<byte>): SendState {
    Room(s, m).(pending := Room(s, m).pending + m)
  }

  lemma AddStages(s: SendState, m: seq<byte>, submitted: seq<seq<byte>>)
    requires InStep(s, submitted) && |s.pending| <= 251 && Sendable(m)
    ensures Added(s, m) == if |Filled(s, m).pending| > s.cap - 4 then Flushed(Filled(s, m)) else Filled(s, m)
    ensures InStep(Room(s, m), submitted) && InStep(Filled(s, m), submitted + [m])
    ensures Room(s, m).pending == (if |m| + |s.pending| > s.cap then [] else s.pending)
    ensures Written(Filled(s, m)) == Written(Room(s, m)) && SplitOf(m) == [m]
  {
    hide InStep;
    hide Flushed;
    FlushInStep(s, submitted);
    AppendInStep(Room(s, m), m, submitted);
    assert [m][1..] == [] && Concat([m]) == m + Concat([]) == m;
    SplitConcat([m]);
  }

  lemma AddKeeps(s: SendState, m: seq<byte>, submitted: seq<seq<byte>>, caps: seq<nat>)
    requires InStep(s, submitted) && |s.pending| <= 251 && Sendable(m)
    requires |submitted| == |caps| && AllKeep(Written(s), caps) && WaitsSmall(s.pending, caps)
    ensures AllKeep(Written(Added(s, m)), caps + [s.cap]) && WaitsSmall(Added(s, m).pending, caps + [s.cap])
  {
    hide InStep;
    hide Flushed;
    hide Added;
    hide AllKeep;
    hide Written;
    hide SplitOf;
    hide Sendable;
    AddStages(s, m, submitted);
    if |m| + |s.pending| > s.cap {
      FlushKeeps(s, submitted, caps);
    }
    var filled := Filled(s, m);
    MoreKeep(Written(Room(s, m)), caps, s.cap);
    if |filled.pending| > s.cap - 4 {
      assert Room(s, m).pending == [] ==> filled.pending == m;
      FlushKeeps(filled, submitted + [m], caps + [s.cap]);
      FlushEmpties(filled);
    }
  }

  lemma FlushEmpties(s: SendState)
    ensures Flushed(s).pending == [] && Flushed(s).cap == s.cap
  {}

  lemma AddFills(s: SendState, m: seq<byte>, submitted: seq<seq<byte>>, caps: seq<nat>)
    requires InStep(s, submitted) && |s.pending| <= 251 && Sendable(m)
    requires |submitted| == |caps| && AllFull(Written(s), submitted, caps)
    ensures AllFull(Written(Added(s, m)), submitted + [m], caps + [s.cap])
  {
    hide InStep;
    hide Flushed;
    hide Added;
    hide AllFull;
    hide Written;
    hide Carried;
    hide SplitOf;
    hide Sendable;
    AddStages(s, m, submitted);
    MoreFull(Written(s), submitted, caps, m, s.cap);
    FlushWrites(s, submitted);
    var all, cs := submitted + [m], caps + [s.cap];
    assert Written(s) + [] == Written(s);
    if |m| + |s.pending| > s.cap && s.pending != [] {
      assert all[|submitted|] == m && cs[|submitted|] == s.cap;
      AppendFull(Written(s), s.pending, all, cs);
    }
    var filled := Filled(s, m);
    FlushWrites(filled, all);
    if |filled.pending| > s.cap - 4 {
      assert cs[|all| - 1] == s.cap;
      assert filled.pending != [] by { Holds(m); }
      AppendFull(Written(filled), filled.pending, all, cs);
    }
  }

  lemma Holds(m: seq<byte>)
    requires Sendable(m)
    ensures m != []
  {}

  /**
   For every run of adds, flushes and capacity changes: each packet written has at most the
   capacity in force when its last message was added, or holds that message alone; and what
   waits leaves at least four bytes of that capacity.
   */
  lemma {:induction false} PacketsKeepCapacity(ops: seq<SendOp>)
    requires forall op :: op in ops ==> ValidOp(op)
    ensures PerformAll(ops).cap == CapacityNow(ops)
    ensures AllKeep(Written(PerformAll(ops)), Caps(ops)) && WaitsSmall(PerformAll(ops).pending, Caps(ops))
  {
    hide InStep;
    hide Flushed;
    hide Added;
    hide Written;
    hide AllKeep;
    if ops == [] {
      NothingWritten();
    } else {
      var front, op := ops[..|ops| - 1], ops[|ops| - 1];
      var s := PerformAll(front);
      assert op in ops && ValidOp(op);
      PacketsKeepCapacity(front);
      EndToEnd(front);
      FlushEmpties(s);
      assert Caps(front) + [] == Caps(front);
      match op {
        case Add(m) =>
          AddKeeps(s, m, Submitted(front), Caps(front));
          AddedCap(s, m);
        case FlushNow => FlushKeeps(s, Submitted(front), Caps(front));
        case Capacity(c) => assert Written(WithCapacity(s, c)) == Written(s) by { CapacityWritesNothing(s, c); }
      }
    }
  }

  lemma AddedCap(s: SendState, m: seq<byte>)
    ensures Added(s, m).cap == s.cap
  {}

  lemma CapacityWritesNothing(s: SendState, c: byte)
    ensures Written(WithCapacity(s, c)) == Written(s)
  {}

  lemma NothingWritten()
    ensures Written(EMPTY) == [] && AllKeep([], []) && AllFull([], [], [])
  {}

  /**
   For every run without flushes from outside: no packet ends early. Each left less than
   four bytes of the capacity, or no room for the message that came next.
   */
  lemma {:induction false} PacketsAreFilled(ops: seq<SendOp>)
    requires forall op :: op in ops ==> ValidOp(op) && !op.FlushNow?
    ensures AllFull(Written(PerformAll(ops)), Submitted(ops), Caps(ops))
  {
    hide InStep;
    hide Added;
    hide Written;
    hide AllFull;
    if ops == [] {
      NothingWritten();
    } else {
      var front, op := ops[..|ops| - 1], ops[|ops| - 1];
      var s := PerformAll(front);
      assert op in ops && ValidOp(op);
      PacketsAreFilled(front);
      PacketsKeepCapacity(front);
      EndToEnd(front);
      assert Caps(front) + [] == Caps(front) && Submitted(front) + [] == Submitted(front);
      match op {
        case Add(m) => AddFills(s, m, Submitted(front), Caps(front));
        case Capacity(c) => CapacityWritesNothing(s, c);
      }
    }
  }

  // ------------------------------------------------------ under any interleaving

  /** What a step does to the send buffer. */
  function BufferOps(s: System, step: Step): seq<SendOp>
    requires Enabled(s, step)
  {
    match step
    case Put(thread) => [Add(BytesOf(s.flights[FlightOf(s.flights, thread)].msg))]
    case PayOwed => [if s.owed[0].Buffer? then Add(BytesOf(s.owed[0].msg)) else FlushNow]
    case FlushStep => [FlushNow]
    case SetCapacity(c) => [Capacity(c)]
    case _ => []
  }

  ghost function AllBufferOps(steps: seq<Step>): seq<SendOp>
    requires Legal(steps)
  {
    if steps == [] then []
    else
      var front := steps[..|steps| - 1];
      AllBufferOps(front) + BufferOps(After(front), steps[|steps| - 1])
  }

  lemma StepIsRun(s: System, step: Step, ops: seq<SendOp>)
    requires Enabled(s, step) && AllFine(s.log) && AllFine(StepOf(s, step).log)
    requires s.buffer == PerformAll(ops) && BytesOfAll(s.log) == Submitted(ops)
    ensures var more := BufferOps(s, step);
      && StepOf(s, step).buffer == PerformAll(ops + more)
      && BytesOfAll(StepOf(s, step).log) == Submitted(ops + more)
      && forall op :: op in more ==> ValidOp(op)
  {
    hide Added;
    hide Flushed;
    hide WithCapacity;
    hide BytesOf;
    hide Fine;
    hide Sendable;
    hide TrySend;
    hide Enter;
    hide SendNumberTaken;
    hide FlightOf;
    var more := BufferOps(s, step);
    if more == [] {
      assert ops + more == ops;
    } else {
      assert (ops + more)[..|ops|] == ops;
    }
  }

  lemma {:induction false} BufferIsRun(steps: seq<Step>)
    requires Legal(steps)
    ensures var ops := AllBufferOps(steps);
      && (forall op :: op in ops ==> ValidOp(op)) && After(steps).buffer == PerformAll(ops)
      && AllFine(After(steps).log) && BytesOfAll(After(steps).log) == Submitted(ops)
  {
    hide PerformAll;
    hide Submitted;
    hide BytesOfAll;
    hide AllFine;
    hide ValidOp;
    hide BufferOps;
    hide StepOf;
    hide Enabled;
    AllLogged(steps);
    if steps == [] {
      NothingAdded();
    } else {
      var front := steps[..|steps| - 1];
      BufferIsRun(front);
      StepIsRun(After(front), steps[|steps| - 1], AllBufferOps(front));
    }
  }

  lemma AllLogged(steps: seq<Step>)
    requires Legal(steps)
    ensures AllFine(After(steps).log)
  {
    AlwaysSound(steps);
  }

  lemma NothingAdded()
    ensures PerformAll([]) == EMPTY && Submitted([]) == [] && BytesOfAll([]) == []
  {}

  /** Under any interleaving, the packets on the line keep to the capacity as in a run of the send buffer alone. */
  lemma PacketsAlwaysKeepCapacity(steps: seq<Step>)
    requires Legal(steps)
    ensures var s, caps := After(steps).buffer, Caps(AllBufferOps(steps));
      && |caps| == |After(steps).log| && AllKeep(Written(s), caps) && WaitsSmall(s.pending, caps)
  {
    hide Written;
    hide AllKeep;
    BufferIsRun(steps);
    PacketsKeepCapacity(AllBufferOps(steps));
  }

  // ------------------------------------------------- what is released goes out

  ghost predicate EndsInFlush(calls: seq<Action>) {
    calls != [] ==> calls[|calls| - 1] == FlushBuffer
  }

  lemma {:induction false} WakeEndsInFlush(t: Table, k: Key, now: int)
    requires k in t && !t[k].stall
    ensures EndsInFlush(Wake(t, k, now).1)
    decreases |t[k].affected|
  {
    hide Drain;
    hide Wake;
    WakeStep(t, k, now);
    if t[k].affected != [] {
      var w := t[k].affected[0];
      var popped := t[k := t[k].(affected := t[k].affected[1..])];
      WakeEndsInFlush(if w in popped then Drain(popped, w, now).0 else popped, k, now);
    }
  }

  lemma CallsEndInFlush(t: Table, r: Region)
    ensures EndsInFlush(CallsOf(t, r))
  {
    hide StateUpdate;
    hide Wake;
    if r.Stall? && r.status == 0 {
      var queried := Query(t, r.key);
      WakeEndsInFlush(queried[r.key := queried[r.key].(stall := false)], r.key, r.now);
    }
  }

  lemma StepEndsInFlush(s: System, step: Step)
    requires Enabled(s, step) && EndsInFlush(s.owed)
    ensures EndsInFlush(StepOf(s, step).owed)
  {
    hide TrySend;
    hide Enter;
    hide CallsOf;
    hide SendNumberTaken;
    hide BytesOf;
    hide Fine;
    hide ValidRegion;
    hide Added;
    hide Flushed;
    hide WithCapacity;
    hide FlightOf;
    if step.Locked? {
      CallsEndInFlush(s.table, step.region);
    }
  }

  lemma {:induction false} OwedEndsInFlush(steps: seq<Step>)
    requires Legal(steps)
    ensures EndsInFlush(After(steps).owed)
  {
    hide StepOf;
    hide Enabled;
    hide EndsInFlush;
    if steps == [] {
      assert EndsInFlush([]) by { NothingOwed(); }
    } else {
      OwedEndsInFlush(steps[..|steps| - 1]);
      StepEndsInFlush(After(steps[..|steps| - 1]), steps[|steps| - 1]);
    }
  }

  lemma NothingOwed()
    ensures EndsInFlush([])
  {}

  /**
   Under any interleaving: when the receiver has made the last call it owes, the send buffer
   is empty, and the far end has everything added so far, what was released included.
   */
  lemma ReleasedGoesOut(steps: seq<Step>)
    requires Legal(steps) && steps != [] && steps[|steps| - 1] == PayOwed && After(steps).owed == []
    ensures var s := After(steps);
      && AllFine(s.log) && s.buffer.pending == []
      && Delivered(ReceiveAll(START, s.buffer.written).packets) == BytesOfAll(s.log)
  {
    hide StepOf;
    hide Enabled;
    hide AllFine;
    hide BytesOfAll;
    hide ReceiveAll;
    hide Fits;
    OwedEndsInFlush(steps[..|steps| - 1]);
    PaidOff(After(steps[..|steps| - 1]));
    WireDelivers(steps);
    NothingSplit();
  }

  /** The last call owed is a flush. */
  lemma PaidOff(s: System)
    requires Enabled(s, PayOwed) && StepOf(s, PayOwed).owed == [] && EndsInFlush(s.owed)
    ensures StepOf(s, PayOwed).buffer.pending == []
  {
    hide Added;
    hide BytesOf;
    assert s.owed == [FlushBuffer];
  }

  lemma NothingSplit()
    ensures SplitOf([]) == [] && forall ms: seq<seq<byte>> :: ms + [] == ms
  {}
}
