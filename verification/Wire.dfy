/**
 End to end over the serial line: whatever the send buffer writes, the receive
 loop turns back into the messages that were put in.
 */
module Wire {
  import opened Bytes
  import opened Crc
  import opened Messages
  import opened SendBuffers
  import opened Receivers

  /** What threads do to the send buffer, each under its mutex. */
  datatype SendOp = Add(message: seq<byte>) | FlushNow | Capacity(capacity: byte)

  /** Messages the library can build: at most 255 bytes, the length byte included. */
  predicate Sendable(m: seq<byte>) {
    Framed(m) && |m| <= 255
  }

  predicate ValidOp(op: SendOp) {
    op.Add? ==> Sendable(op.message)
  }

  function Perform(s: SendState, op: SendOp): SendState {
    match op
    case Add(m) => Added(s, m)
    case FlushNow => Flushed(s)
    case Capacity(c) => WithCapacity(s, c)
  }

  const EMPTY := SendState([], 64, [])

  function PerformAll(ops: seq<SendOp>): SendState {
    if ops == [] then EMPTY else Perform(PerformAll(ops[..|ops| - 1]), ops[|ops| - 1])
  }

  /** The messages put into the buffer, in order. */
  function Submitted(ops: seq<SendOp>): seq<seq<byte>> {
    if ops == [] then []
    else Submitted(ops[..|ops| - 1]) + if ops[|ops| - 1].Add? then [ops[|ops| - 1].message] else []
  }

  /** The buffer content and the bytes written agree with what was submitted. */
  ghost predicate InStep(s: SendState, submitted: seq<seq<byte>>) {
    var r := ReceiveAll(START, s.written);
    && 64 <= s.cap <= 255
    && (forall m :: m in SplitOf(s.pending) ==> Framed(m))
    && Idle(r) && Fits(START, s.written)
    && Delivered(r.packets) + SplitOf(s.pending) == submitted
  }

  lemma FlushInStep(s: SendState, submitted: seq<seq<byte>>)
    requires InStep(s, submitted) && |s.pending| <= 255
    ensures InStep(Flushed(s), submitted) && Flushed(s).pending == [] && Flushed(s).cap == s.cap
  {
    hide Frame;
    if s.pending != [] {
      var r := ReceiveAll(START, s.written);
      ReceiveConcat(START, s.written, Frame(s.pending));
      ReceiveFrame(r, s.pending);
      DeliveredAppend(r.packets, s.pending);
    }
  }

  lemma AppendInStep(s: SendState, m: seq<byte>, submitted: seq<seq<byte>>)
    requires InStep(s, submitted) && Framed(m)
    ensures InStep(s.(pending := s.pending + m), submitted + [m])
  {
    hide Framed;
    SplitPartitions(s.pending);
    ConcatAppend(SplitOf(s.pending), m);
    SplitConcat(SplitOf(s.pending) + [m]);
  }

  lemma PerformInStep(s: SendState, op: SendOp, submitted: seq<seq<byte>>)
    requires InStep(s, submitted) && |s.pending| <= 251 && ValidOp(op)
    ensures InStep(Perform(s, op), submitted + if op.Add? then [op.message] else [])
    ensures |Perform(s, op).pending| <= 251
  {
    hide Flushed;
    hide InStep;
    assert submitted + [] == submitted;
    match op {
      case Add(m) =>
        FlushInStep(s, submitted);
        assert 64 <= s.cap <= 255 by { CapacityInStep(s, submitted); }
        var room := if |m| + |s.pending| > s.cap then Flushed(s) else s;
        var filled := room.(pending := room.pending + m);
        AppendInStep(room, m, submitted);
        FlushInStep(filled, submitted + [m]);
      case FlushNow =>
        FlushInStep(s, submitted);
      case Capacity(c) =>
        CapacityChangeInStep(s, c, submitted);
    }
  }

  lemma CapacityInStep(s: SendState, submitted: seq<seq<byte>>)
    requires InStep(s, submitted)
    ensures 64 <= s.cap <= 255
  {}

  lemma CapacityChangeInStep(s: SendState, c: byte, submitted: seq<seq<byte>>)
    requires InStep(s, submitted)
    ensures InStep(WithCapacity(s, c), submitted)
  {}

  /**
   For every run of adds, flushes and capacity changes: feeding all bytes
   written to the receive loop gives exactly the messages submitted, in order,
   less those still in the send buffer, and the read buffer is never overrun.
   */
  lemma {:induction false} EndToEnd(ops: seq<SendOp>)
    requires forall op :: op in ops ==> ValidOp(op)
    ensures var s := PerformAll(ops);
      && Delivered(ReceiveAll(START, s.written).packets) + SplitOf(s.pending) == Submitted(ops)
      && Fits(START, s.written) && |s.pending| <= 251 && InStep(s, Submitted(ops))
  {
    if ops != [] {
      EndToEnd(ops[..|ops| - 1]);
      PerformInStep(PerformAll(ops[..|ops| - 1]), ops[|ops| - 1], Submitted(ops[..|ops| - 1]));
    }
  }

  /** After a flush nothing is missing. */
  lemma AllArriveAfterFlush(ops: seq<SendOp>)
    requires forall op :: op in ops ==> ValidOp(op)
    ensures Delivered(ReceiveAll(START, PerformAll(ops + [FlushNow]).written).packets) == Submitted(ops)
  {
    hide Flushed;
    EndToEnd(ops + [FlushNow]);
    assert (ops + [FlushNow])[..|ops|] == ops;
    assert Submitted(ops + [FlushNow]) == Submitted(ops) + [];
    EndToEnd(ops);
    FlushInStep(PerformAll(ops), Submitted(ops));
  }

  /** The bound is exact: a packet fits the read buffer just when it has at most 255 bytes of content. */
  lemma FrameFits(content: seq<byte>)
    ensures Fits(START, Frame(content)) <==> |content| <= 255
  {
    hide CrcOf;
    hide Escape;
    var packet := content + [CrcOf(content)];
    var synced := Receiver(true, [], false, []);
    assert Receive(START, MAGIC) == synced;
    assert Frame(content)[1..] == Escape(packet) + [MAGIC];
    ReceiveConcat(synced, Escape(packet), [MAGIC]);
    ReceiveEscaped(synced, packet);
    ReceiveBody(synced, content);
  }

  /**
   A packet that a burst of up to eight bits hit before it was escaped is dropped whole:
   nothing of it is delivered, and the receiver goes on as if it had not come.
   */
  lemma CorruptedIsDropped(r: Receiver, content: seq<byte>, e: seq<byte>, i: nat, s: bv8, w: bv8)
    requires Idle(r) && r.synced && |e| == |content| + 1 && IsBurst(e, i, s, w)
    ensures ReceiveAll(r, Escape(XorSeq(content + [CrcOf(content)], e)) + [MAGIC]) == r
  {
    hide CrcOf;
    hide Escape;
    hide Xor;
    hide ReceiveAll;
    var packet := content + [CrcOf(content)];
    var hit := XorSeq(packet, e);
    CheckByteUnique(content, CrcOf(content));
    BurstsAreDetected(packet, e, i, s, w);
    ReceiveConcat(r, Escape(hit), [MAGIC]);
    ReceiveEscaped(r, hit);
    assert r.buffer + hit == hit;
    OneByte(r.(buffer := hit), MAGIC);
  }

  lemma OneByte(r: Receiver, b: byte)
    ensures ReceiveAll(r, [b]) == Receive(r, b)
  {
    assert ReceiveAll(r, [b]) == ReceiveAll(Receive(r, b), []);
  }
}
