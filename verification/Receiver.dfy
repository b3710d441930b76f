/**
 The receive loop (src/transmission/bidib_transmission_receive.c): wait for the
 first delimiter, then unescape and check one packet after the other and cut
 each accepted packet into messages.
 */
module Receivers {
  import opened Bytes
  import opened Crc
  import opened Messages
  import opened SendBuffers

  const READ_BUFFER_SIZE := 256

  /**
   The receive loop between two bytes: whether the first delimiter was seen,
   the unescaped bytes of the packet under way, whether an escape is pending,
   and the content of every packet accepted so far.
   */
  datatype Receiver = Receiver(synced: bool, buffer: seq<byte>, escapeHot: bool, packets: seq<seq<byte>>)

  const START := Receiver(false, [], false, [])

  /** What a delimiter makes of the bytes in front of it: a packet if they check to zero, nothing otherwise. */
  function Accepted(buffer: seq<byte>): seq<seq<byte>> {
    if buffer != [] && CrcOf(buffer) == 0 then [buffer[..|buffer| - 1]] else []
  }

  function Receive(r: Receiver, data: byte): Receiver {
    if !r.synced then
      r.(synced := data == MAGIC)
    else if data == MAGIC then
      if r.buffer == [] then r
      else Receiver(true, [], false, r.packets + Accepted(r.buffer))
    else if data == ESCAPE then
      r.(escapeHot := true)
    else
      r.(buffer := r.buffer + [if r.escapeHot then Xor(data, 0x20) else data], escapeHot := false)
  }

  function ReceiveAll(r: Receiver, input: seq<byte>): Receiver
    decreases |input|
  {
    if input == [] then r else ReceiveAll(Receive(r, input[0]), input[1..])
  }

  /** The read buffer is never filled beyond its size on this input. */
  predicate Fits(r: Receiver, input: seq<byte>)
    decreases |input|
  {
    |r.buffer| <= READ_BUFFER_SIZE && (input != [] ==> Fits(Receive(r, input[0]), input[1..]))
  }

  /** The messages of all packets, in order. */
  function Delivered(packets: seq<seq<byte>>): seq<seq<byte>> {
    if packets == [] then [] else Delivered(packets[..|packets| - 1]) + SplitOf(packets[|packets| - 1])
  }

  lemma {:induction false} ReceiveConcat(r: Receiver, a: seq<byte>, b: seq<byte>)
    ensures ReceiveAll(r, a + b) == ReceiveAll(ReceiveAll(r, a), b)
    ensures Fits(r, a + b) <==> Fits(r, a) && Fits(ReceiveAll(r, a), b)
    decreases |a|
  {
    hide Receive;
    if a == [] {
      assert a + b == b;
    } else {
      assert (a + b)[1..] == a[1..] + b;
      ReceiveConcat(Receive(r, a[0]), a[1..], b);
    }
  }

  // ------------------------------------------------- the loop as the library runs it

  /** Waits for the first delimiter; pos is the input position behind it. */
  method ReceiveFirstPktMagic(input: seq<byte>) returns (pos: nat, found: bool)
    ensures pos <= |input|
    ensures ReceiveAll(START, input) == ReceiveAll(START.(synced := found), input[pos..])
    ensures Fits(START, input) <==> Fits(START.(synced := found), input[pos..])
    ensures !found ==> pos == |input|
  {
    hide Xor;
    hide CrcOf;
    pos := 0;
    while pos < |input|
      invariant pos <= |input|
      invariant ReceiveAll(START, input) == ReceiveAll(START, input[pos..])
      invariant Fits(START, input) <==> Fits(START, input[pos..])
    {
      var data := input[pos];
      assert input[pos..][1..] == input[pos + 1..];
      pos := pos + 1;
      if data == MAGIC {
        return pos, true;
      }
    }
    found := false;
  }

  /** Where a receiver stands after part of an input: what remains decides the same result and the same overruns. */
  ghost predicate ComesFrom(start: Receiver, input: seq<byte>, r: Receiver, rest: seq<byte>) {
    ReceiveAll(start, input) == ReceiveAll(r, rest) && (Fits(start, input) <==> Fits(r, rest))
  }

  lemma ByteComesFrom(start: Receiver, all: seq<byte>, r: Receiver, input: seq<byte>, pos: nat)
    requires pos < |input| && ComesFrom(start, all, r, input[pos..]) && |r.buffer| <= READ_BUFFER_SIZE
    ensures ComesFrom(start, all, Receive(r, input[pos]), input[pos + 1..])
  {
    hide Receive;
    assert input[pos..][1..] == input[pos + 1..];
  }

  lemma NothingFits(r: Receiver, input: seq<byte>)
    requires |r.buffer| > READ_BUFFER_SIZE
    ensures !Fits(r, input)
  {}

  /**
   One packet: bytes go to the read buffer until a delimiter ends it or the input
   does. The library stores without looking at the size of the buffer; overrun
   says that the next byte would go past its end.
   */
  method ReceivePacket(input: seq<byte>, start: nat, ghost packets: seq<seq<byte>>)
    returns (pos: nat, messages: seq<seq<byte>>, overrun: bool, ghost rest: Receiver)
    requires start <= |input|
    ensures start <= pos <= |input| && (pos == start ==> pos == |input|)
    ensures overrun ==> !Fits(Receiver(true, [], false, packets), input[start..])
    ensures !overrun ==> |rest.buffer| <= READ_BUFFER_SIZE
    ensures !overrun && pos < |input| ==> rest.synced && rest.buffer == [] && !rest.escapeHot
    ensures !overrun ==> ComesFrom(Receiver(true, [], false, packets), input[start..], rest, input[pos..])
    ensures !overrun ==> Delivered(rest.packets) == Delivered(packets) + messages
  {
    hide Xor;
    hide Step;
    hide CrcOf;
    hide ComesFrom;
    hide ReceiveAll;
    hide Fits;
    var buffer := new byte[READ_BUFFER_SIZE];
    var bufferIndex := 0;
    var escapeHot := false;
    var crc: byte := 0;
    ghost var whole := Receiver(true, [], false, packets);
    pos := start;
    messages := [];
    overrun := false;
    EncodeNothing();
    StartsHere(whole, input[start..]);
    while pos < |input|
      invariant start <= pos <= |input| && 0 <= bufferIndex <= READ_BUFFER_SIZE
      invariant crc == CrcOf(buffer[..bufferIndex])
      invariant ComesFrom(whole, input[start..], Receiver(true, buffer[..bufferIndex], escapeHot, packets),
        input[pos..])
    {
      var data := input[pos];
      ghost var r := Receiver(true, buffer[..bufferIndex], escapeHot, packets);
      ByteComesFrom(whole, input[start..], r, input, pos);
      pos := pos + 1;
      if data == MAGIC {
        if bufferIndex != 0 {
          rest := Receiver(true, [], false, packets + Accepted(buffer[..bufferIndex]));
          if crc == 0 {
            bufferIndex := bufferIndex - 1;
            messages := SplitPacket(buffer, bufferIndex);
            assert buffer[..bufferIndex + 1][..bufferIndex] == buffer[..bufferIndex];
            DeliveredAppend(packets, buffer[..bufferIndex]);
          } else {
            assert packets + [] == packets;
          }
          return;
        }
      } else if data == ESCAPE {
        escapeHot := true;
      } else {
        if escapeHot {
          data := Xor(data, 0x20);
          escapeHot := false;
        }
        if bufferIndex == READ_BUFFER_SIZE {
          overrun := true;
          rest := whole;
          NothingFits(Receive(r, input[pos - 1]), input[pos..]);
          NoFitFrom(whole, input[start..], Receive(r, input[pos - 1]), input[pos..]);
          return;
        }
        CrcAppend(buffer[..bufferIndex], data);
        assert Receive(r, input[pos - 1]).buffer == buffer[..bufferIndex] + [data];
        buffer[bufferIndex] := data;
        crc := Step(crc, data);
        assert buffer[..bufferIndex + 1] == r.buffer + [data];
        bufferIndex := bufferIndex + 1;
      }
    }
    rest := Receiver(true, buffer[..bufferIndex], escapeHot, packets);
  }

  lemma StartsHere(r: Receiver, input: seq<byte>)
    ensures ComesFrom(r, input, r, input)
  {}

  lemma NoFitFrom(start: Receiver, input: seq<byte>, r: Receiver, rest: seq<byte>)
    requires ComesFrom(start, input, r, rest) && !Fits(r, rest)
    ensures !Fits(start, input)
  {}

  lemma DeliveredAppend(packets: seq<seq<byte>>, p: seq<byte>)
    ensures Delivered(packets + [p]) == Delivered(packets) + SplitOf(p)
  {
    assert (packets + [p])[..|packets|] == packets;
  }

  /**
   The receiver thread over a whole input: either a byte goes past the read buffer,
   exactly if the input does not fit, or it delivers exactly the messages of the
   packets the byte-wise machine accepts.
   */
  method AutoReceive(input: seq<byte>) returns (messages: seq<seq<byte>>, overrun: bool)
    ensures overrun <==> !Fits(START, input)
    ensures !overrun ==> messages == Delivered(ReceiveAll(START, input).packets)
  {
    hide Receive;
    var pos, found := ReceiveFirstPktMagic(input);
    messages, overrun := [], false;
    ghost var r := START.(synced := found);
    while found && pos < |input|
      invariant pos <= |input| && !overrun && |r.buffer| <= READ_BUFFER_SIZE
      invariant found && pos < |input| ==> r == Receiver(true, [], false, r.packets)
      invariant ComesFrom(START, input, r, input[pos..])
      invariant messages == Delivered(r.packets)
      decreases |input| - pos
    {
      var more;
      ghost var before := r;
      pos, more, overrun, r := ReceivePacket(input, pos, r.packets);
      if overrun {
        return;
      }
      messages := messages + more;
    }
  }

  // ------------------------------------------------------ what fits the buffer

  /** Bytes a stretch without delimiters puts into the read buffer: all but the escapes. */
  function Stored(s: seq<byte>): nat {
    if s == [] then 0 else Stored(s[..|s| - 1]) + if s[|s| - 1] == ESCAPE then 0 else 1
  }

  /** The bytes from i to j follow a delimiter and contain none. */
  predicate Stretch(input: seq<byte>, i: int, j: int) {
    1 <= i <= j <= |input| && input[i - 1] == MAGIC && MAGIC !in input[i..j]
  }

  /** The receiver holds as many bytes as the stretch that ends the input has stored. */
  lemma {:induction false} BufferHolds(input: seq<byte>, i: nat)
    requires Stretch(input, i, |input|)
    ensures ReceiveAll(START, input).synced && |ReceiveAll(START, input).buffer| == Stored(input[i..])
    decreases |input|
  {
    hide Xor;
    hide CrcOf;
    var n := |input| - 1;
    ReceiveConcat(START, input[..n], [input[n]]);
    assert input == input[..n] + [input[n]];
    var r := ReceiveAll(START, input[..n]);
    assert [input[n]][1..] == [];
    assert ReceiveAll(r, [input[n]]) == ReceiveAll(Receive(r, input[n]), []) == Receive(r, input[n]);
    UntilSynced(START, input[..n]);
    if i <= n {
      assert input[..n][i..] == input[i..][..n - i];
      assert input[n] == input[i..][n - i] && input[i..][n - i] in input[i..];
      BufferHolds(input[..n], i);
    }
  }

  /** Before the first delimiter nothing is stored, and a stretch covers every position behind it. */
  lemma {:induction false} StretchOf(input: seq<byte>) returns (i: nat)
    ensures i <= |input| && (if MAGIC in input then Stretch(input, i, |input|) else ReceiveAll(START, input) == START)
    decreases |input|
  {
    hide Xor;
    hide CrcOf;
    i := 0;
    if input != [] {
      var n := |input| - 1;
      assert input == input[..n] + [input[n]];
      if input[n] == MAGIC {
        i := n + 1;
      } else {
        i := StretchOf(input[..n]);
        if MAGIC in input[..n] {
          assert input[i..] == input[..n][i..] + [input[n]];
        } else {
          ReceiveConcat(START, input[..n], [input[n]]);
          assert ReceiveAll(START, [input[n]]) == ReceiveAll(Receive(START, input[n]), []) == START;
        }
      }
    }
  }

  lemma {:induction false} FitsPrefixes(input: seq<byte>)
    ensures Fits(START, input) <==> forall j :: 0 <= j <= |input| ==>
      |ReceiveAll(START, input[..j]).buffer| <= READ_BUFFER_SIZE
    decreases |input|
  {
    hide Receive;
    if input == [] {
      assert input[..0] == [];
    } else {
      var n := |input| - 1;
      FitsPrefixes(input[..n]);
      assert input == input[..n] + [input[n]];
      ReceiveConcat(START, input[..n], [input[n]]);
      var r := ReceiveAll(START, input[..n]);
      assert ReceiveAll(r, [input[n]]) == ReceiveAll(Receive(r, input[n]), []) == Receive(r, input[n]);
      assert Fits(r, [input[n]]) <==> |r.buffer| <= READ_BUFFER_SIZE && Fits(Receive(r, input[n]), []);
      assert forall j :: 0 <= j <= n ==> input[..n][..j] == input[..j];
      assert input[..n + 1] == input;
    }
  }

  /**
   The read buffer holds exactly if no stretch of the input between delimiters
   stores more than 256 bytes. Nothing in the loop sees to that.
   */
  lemma FitsExactly(input: seq<byte>)
    ensures Fits(START, input) <==> forall i, j :: Stretch(input, i, j) ==> Stored(input[i..j]) <= READ_BUFFER_SIZE
  {
    hide Receive;
    hide ReceiveAll;
    hide Fits;
    hide Stored;
    FitsPrefixes(input);
    if Fits(START, input) {
      forall i, j | Stretch(input, i, j)
        ensures Stored(input[i..j]) <= READ_BUFFER_SIZE
      {
        assert input[..j][i..] == input[i..j];
        BufferHolds(input[..j], i);
      }
    }
    if forall i, j :: Stretch(input, i, j) ==> Stored(input[i..j]) <= READ_BUFFER_SIZE {
      forall j | 0 <= j <= |input|
        ensures |ReceiveAll(START, input[..j]).buffer| <= READ_BUFFER_SIZE
      {
        var i := StretchOf(input[..j]);
        if MAGIC in input[..j] {
          assert input[..j][i..] == input[i..j];
          assert Stretch(input, i, j);
          BufferHolds(input[..j], i);
        }
      }
    }
  }

  lemma {:induction false} StoredPlain(n: nat)
    ensures Stored(seq(n, _ => 0)) == n
  {
    if n > 0 {
      assert seq(n, _ => 0)[..n - 1] == seq(n - 1, _ => 0);
      StoredPlain(n - 1);
    }
  }

  /** 257 plain bytes behind a delimiter run over the end of the read buffer. */
  lemma LongStretchOverruns()
    ensures !Fits(START, [MAGIC] + seq(257, _ => 0))
  {
    var input: seq<byte> := [MAGIC] + seq(257, _ => 0);
    FitsExactly(input);
    StoredPlain(257);
    assert input[1..258] == seq(257, _ => 0);
    assert Stretch(input, 1, 258);
  }

  // ---------------------------------------------------- frames are understood

  /** Escaped bytes are never delimiters or escapes themselves. */
  lemma EscapedValues()
    ensures Xor(MAGIC, 0x20) == 0xDE && Xor(ESCAPE, 0x20) == 0xDD
  {
    assert MAGIC as bv8 == 0xFE && ESCAPE as bv8 == 0xFD;
  }

  lemma ReceiveEscapedByte(r: Receiver, b: byte)
    requires r.synced && !r.escapeHot
    ensures ReceiveAll(r, EscapeByte(b)) == r.(buffer := r.buffer + [b])
    ensures |r.buffer| < READ_BUFFER_SIZE ==> Fits(r, EscapeByte(b))
  {
    hide Xor;
    hide CrcOf;
    EscapedValues();
    XorInvolutive(b, 0x20);
    if NeedsEscape(b) {
      var hot := Receive(r, ESCAPE);
      assert [ESCAPE, Xor(b, 0x20)][1..] == [Xor(b, 0x20)];
      assert ReceiveAll(hot, [Xor(b, 0x20)]) == Receive(hot, Xor(b, 0x20));
      assert |r.buffer| < READ_BUFFER_SIZE ==> Fits(Receive(hot, Xor(b, 0x20)), []) && Fits(hot, [Xor(b, 0x20)]);
    } else {
      assert ReceiveAll(r, [b]) == Receive(r, b);
    }
  }

  lemma {:induction false} ReceiveEscaped(r: Receiver, s: seq<byte>)
    requires r.synced && !r.escapeHot
    ensures ReceiveAll(r, Escape(s)) == r.(buffer := r.buffer + s)
    ensures |r.buffer| + |s| <= READ_BUFFER_SIZE ==> Fits(r, Escape(s))
  {
    hide Receive;
    hide EscapeByte;
    if s == [] {
      assert r.buffer + s == r.buffer;
    } else {
      var n := |s| - 1;
      var mid := r.(buffer := r.buffer + s[..n]);
      ReceiveEscaped(r, s[..n]);
      ReceiveConcat(r, Escape(s[..n]), EscapeByte(s[n]));
      ReceiveEscapedByte(mid, s[n]);
      assert mid.buffer + [s[n]] == r.buffer + s;
    }
  }

  /** A delimiter behind a non-empty packet accepts or drops it; either way the loop starts afresh. */
  lemma ReceiveDelimiter(r: Receiver)
    requires r.synced
    ensures ReceiveAll(r, [MAGIC]) == if r.buffer == [] then r
      else Receiver(true, [], false, r.packets + Accepted(r.buffer))
    ensures |r.buffer| <= READ_BUFFER_SIZE ==> Fits(r, [MAGIC])
  {
    hide CrcOf;
    assert ReceiveAll(r, [MAGIC]) == Receive(r, MAGIC);
    assert Fits(Receive(r, MAGIC), [MAGIC][1..]) <==> |Receive(r, MAGIC).buffer| <= READ_BUFFER_SIZE;
  }

  /** Unescaped content with its checksum, up to the closing delimiter, is delivered as it was. */
  lemma ReceiveBody(r: Receiver, content: seq<byte>)
    requires r.synced && r.buffer == [] && !r.escapeHot
    ensures ReceiveAll(r, Escape(content + [CrcOf(content)]) + [MAGIC]) == r.(packets := r.packets + [content])
    ensures |content| < READ_BUFFER_SIZE ==> Fits(r, Escape(content + [CrcOf(content)]) + [MAGIC])
  {
    hide CrcOf;
    hide Escape;
    hide Receive;
    hide ReceiveAll;
    hide Fits;
    var packet := content + [CrcOf(content)];
    assert r.buffer + packet == packet;
    ReceiveEscaped(r, packet);
    ReceiveConcat(r, Escape(packet), [MAGIC]);
    ReceiveDelimiter(r.(buffer := packet));
    CheckByteUnique(content, CrcOf(content));
    assert Accepted(packet) == [content];
  }

  /** Between two packets: no byte of a packet read and no escape pending, or still waiting for the first delimiter. */
  ghost predicate Idle(r: Receiver) {
    r.buffer == [] && !r.escapeHot
  }

  // -------------------------------------------------------- resynchronisation

  /**
   The one state in which a following frame is damaged: an escape is pending in
   front of an empty packet, so the opening delimiter is skipped with the escape
   still pending, and the first byte of the frame is not escaped itself.
   */
  predicate Spoils(r: Receiver, content: seq<byte>) {
    r.synced && r.buffer == [] && r.escapeHot && !NeedsEscape((content + [CrcOf(content)])[0])
  }

  lemma {:induction false} EscapeConcat(a: seq<byte>, b: seq<byte>)
    ensures Escape(a + b) == Escape(a) + Escape(b)
  {
    hide Escape;
    hide EscapeByte;
    if b == [] {
      EncodeNothing();
      assert a + b == a && Escape(a) + [] == Escape(a);
    } else {
      var n := |b| - 1;
      EscapeConcat(a, b[..n]);
      EscapeAppend(a + b[..n], b[n]);
      EscapeAppend(b[..n], b[n]);
      assert a + b == (a + b[..n]) + [b[n]] && b == b[..n] + [b[n]];
    }
  }

  /** Flipping bit 5 of the first byte of a packet that checks to zero is noticed. */
  lemma FlippedHeadRejected(f: byte, tail: seq<byte>)
    requires CrcOf([f] + tail) == 0
    ensures Accepted([Xor(f, 0x20)] + tail) == []
  {
    hide Xor;
    hide CrcOf;
    var e: seq<byte> := [0x20] + seq(|tail|, _ => 0);
    var flipped := XorSeq([f] + tail, e);
    var w: bv8 := 0x20;
    assert w << 0 == w && w >> 8 == 0 && Bits(0x20) == w && Bits(0) == 0;
    BurstsAreDetected([f] + tail, e, 0, 0, w);
    forall k | 0 <= k < |flipped|
      ensures flipped[k] == ([Xor(f, 0x20)] + tail)[k]
    {
      XorWithZero(([f] + tail)[k]);
    }
    assert flipped == [Xor(f, 0x20)] + tail;
  }

  /** A packet whose first byte was read with bit 5 flipped is dropped at its closing delimiter. */
  lemma ReceiveFlipped(hit: Receiver, f: byte, tail: seq<byte>)
    requires hit.synced && !hit.escapeHot && hit.buffer == [Xor(f, 0x20)] && CrcOf([f] + tail) == 0
    ensures ReceiveAll(hit, Escape(tail) + [MAGIC]) == Receiver(true, [], false, hit.packets)
    ensures |tail| < READ_BUFFER_SIZE ==> Fits(hit, Escape(tail) + [MAGIC])
  {
    hide CrcOf;
    hide Escape;
    hide Xor;
    hide Receive;
    hide ReceiveAll;
    hide Fits;
    ReceiveConcat(hit, Escape(tail), [MAGIC]);
    ReceiveEscaped(hit, tail);
    ReceiveDelimiter(hit.(buffer := hit.buffer + tail));
    FlippedHeadRejected(f, tail);
    assert hit.packets + [] == hit.packets;
  }

  lemma EscapeHead(p: seq<byte>)
    requires p != []
    ensures Escape(p) == EscapeByte(p[0]) + Escape(p[1..])
  {
    assert [p[0]][..0] == [] && p == [p[0]] + p[1..];
    EscapeConcat([p[0]], p[1..]);
  }

  /** The body of a frame read with an escape pending. */
  lemma ReceiveBodyHot(r: Receiver, content: seq<byte>)
    requires r.synced && r.buffer == [] && r.escapeHot
    ensures ReceiveAll(r, Escape(content + [CrcOf(content)]) + [MAGIC])
         == Receiver(true, [], false, r.packets + if Spoils(r, content) then [] else [content])
    ensures |content| < READ_BUFFER_SIZE ==> Fits(r, Escape(content + [CrcOf(content)]) + [MAGIC])
  {
    hide CrcOf;
    hide Escape;
    hide Xor;
    var packet := content + [CrcOf(content)];
    var f, tail := packet[0], packet[1..];
    var body := Escape(packet) + [MAGIC];
    EscapeHead(packet);
    if NeedsEscape(f) {
      assert body[0] == ESCAPE && Receive(r, ESCAPE) == Receive(r.(escapeHot := false), ESCAPE);
      ReceiveBody(r.(escapeHot := false), content);
    } else {
      assert body[0] == f && body[1..] == Escape(tail) + [MAGIC];
      assert packet == [f] + tail && r.packets + [] == r.packets;
      CheckByteUnique(content, CrcOf(content));
      ReceiveFlipped(Receive(r, f), f, tail);
    }
  }

  /**
   After any input a following frame is delivered intact unless a pending
   escape spoils it; what was under way before is closed by the opening
   delimiter; and the receiver ends idle. A spoilt frame is dropped, never
   delivered with a wrong byte.
   */
  lemma Resynchronises(r: Receiver, content: seq<byte>)
    requires !r.synced ==> r.buffer == [] && !r.escapeHot
    ensures ReceiveAll(r, Frame(content))
         == Receiver(true, [], false, r.packets + Accepted(r.buffer) + if Spoils(r, content) then [] else [content])
    ensures |r.buffer| <= READ_BUFFER_SIZE && |content| < READ_BUFFER_SIZE ==> Fits(r, Frame(content))
  {
    hide CrcOf;
    hide Escape;
    var body := Escape(content + [CrcOf(content)]) + [MAGIC];
    assert Frame(content) == [MAGIC] + body;
    assert Frame(content)[1..] == body;
    var next := Receive(r, MAGIC);
    assert r.packets + [] == r.packets;
    if next.escapeHot {
      ReceiveBodyHot(next, content);
    } else {
      ReceiveBody(next, content);
    }
  }

  /** An idle receiver takes a frame whole and is idle again. */
  lemma ReceiveFrame(r: Receiver, content: seq<byte>)
    requires Idle(r)
    ensures ReceiveAll(r, Frame(content)) == Receiver(true, [], false, r.packets + [content])
    ensures |content| < READ_BUFFER_SIZE ==> Fits(r, Frame(content))
  {
    hide CrcOf;
    Resynchronises(r, content);
  }

  lemma {:induction false} UntilSynced(r: Receiver, input: seq<byte>)
    requires !r.synced ==> r.buffer == [] && !r.escapeHot
    ensures var e := ReceiveAll(r, input);
      && (!e.synced ==> e.buffer == [] && !e.escapeHot)
      && (Fits(r, input) ==> |e.buffer| <= READ_BUFFER_SIZE)
    decreases |input|
  {
    hide Xor;
    hide CrcOf;
    if input != [] {
      UntilSynced(Receive(r, input[0]), input[1..]);
    }
  }

  /**
   Resynchronisation after any garbage from the start of reception: the frame is
   delivered behind whatever the garbage amounts to, unless the garbage spoils it,
   and the read buffer holds if the garbage did not overrun it.
   */
  lemma AfterGarbage(garbage: seq<byte>, content: seq<byte>)
    ensures var r := ReceiveAll(START, garbage);
      && ReceiveAll(START, garbage + Frame(content))
         == Receiver(true, [], false, r.packets + Accepted(r.buffer) + if Spoils(r, content) then [] else [content])
      && (Fits(START, garbage) && |content| < READ_BUFFER_SIZE ==> Fits(START, garbage + Frame(content)))
  {
    hide Receive;
    hide Accepted;
    hide Spoils;
    hide Frame;
    UntilSynced(START, garbage);
    Resynchronises(ReceiveAll(START, garbage), content);
    ReceiveConcat(START, garbage, Frame(content));
  }

  /** From i on the input has only delimiters and escapes, and it has a delimiter at i. */
  ghost predicate MarksFrom(input: seq<byte>, i: int) {
    0 <= i < |input| && input[i] == MAGIC && forall k :: i <= k < |input| ==> input[k] == MAGIC || input[k] == ESCAPE
  }

  /** A delimiter, somewhere behind it an escape, and nothing but delimiters and escapes from the delimiter on. */
  ghost predicate EndsHot(input: seq<byte>) {
    exists i, j :: MarksFrom(input, i) && i < j < |input| && input[j] == ESCAPE
  }

  ghost predicate EndsEmpty(input: seq<byte>) {
    exists i :: MarksFrom(input, i)
  }

  lemma OneByteOn(input: seq<byte>)
    requires input != []
    ensures var n := |input| - 1; ReceiveAll(START, input) == Receive(ReceiveAll(START, input[..n]), input[n])
  {
    hide Receive;
    var n := |input| - 1;
    assert input == input[..n] + [input[n]];
    ReceiveConcat(START, input[..n], [input[n]]);
    var r := ReceiveAll(START, input[..n]);
    assert ReceiveAll(r, [input[n]]) == ReceiveAll(Receive(r, input[n]), []);
  }

  /** One byte more keeps such an ending if it is a mark, starts one if it is a delimiter, and destroys it otherwise. */
  lemma EndingsGrow(input: seq<byte>)
    requires input != []
    ensures var n := |input| - 1;
      && (EndsEmpty(input) <==> input[n] == MAGIC || (input[n] == ESCAPE && EndsEmpty(input[..n])))
      && (EndsHot(input) <==>
          (input[n] == MAGIC && EndsHot(input[..n])) || (input[n] == ESCAPE && EndsEmpty(input[..n])))
  {
    var n := |input| - 1;
    var front := input[..n];
    forall i | 0 <= i < n
      ensures MarksFrom(input, i) <==> MarksFrom(front, i) && (input[n] == MAGIC || input[n] == ESCAPE)
    {
      assert forall k :: 0 <= k < n ==> front[k] == input[k];
    }
    if input[n] == MAGIC {
      assert MarksFrom(input, n);
    }
    if i, j :| MarksFrom(front, i) && i < j < n && front[j] == ESCAPE {
      assert input[n] == MAGIC ==> MarksFrom(input, i) && input[j] == ESCAPE;
    }
    if i :| MarksFrom(front, i) {
      assert input[n] == ESCAPE ==> MarksFrom(input, i) && input[n] == ESCAPE;
    }
    if i, j :| MarksFrom(input, i) && i < j < |input| && input[j] == ESCAPE {
      assert MarksFrom(front, i) && (j < n ==> front[j] == ESCAPE);
    }
    if i :| MarksFrom(input, i) {
      assert input[n] == ESCAPE ==> i < n && MarksFrom(front, i);
    }
  }

  /** The input alone tells whether the receiver stands at an empty packet, and whether an escape is pending there. */
  lemma {:induction false} EndingMeans(input: seq<byte>)
    ensures var r := ReceiveAll(START, input);
      && (r.synced && r.buffer == [] <==> EndsEmpty(input))
      && (r.synced && r.buffer == [] && r.escapeHot <==> EndsHot(input))
    decreases |input|
  {
    hide Xor;
    hide Accepted;
    hide EndsEmpty;
    hide EndsHot;
    if input == [] {
      NothingEnds();
    } else {
      var n := |input| - 1;
      EndingMeans(input[..n]);
      EndingsGrow(input);
      OneByteOn(input);
      UntilSynced(START, input[..n]);
    }
  }

  lemma NothingEnds()
    ensures !EndsEmpty([]) && !EndsHot([])
  {}

  /**
   Exactly which garbage loses a frame behind it: one that has a delimiter with an escape
   somewhere behind it and nothing but delimiters and escapes from there on, if the frame's
   first byte needs no escape.
   */
  lemma SpoiltExactly(garbage: seq<byte>, content: seq<byte>)
    ensures var r := ReceiveAll(START, garbage);
      ReceiveAll(START, garbage + Frame(content)).packets ==
      if EndsHot(garbage) && !NeedsEscape((content + [CrcOf(content)])[0]) then r.packets + Accepted(r.buffer)
      else r.packets + Accepted(r.buffer) + [content]
  {
    hide CrcOf;
    hide Accepted;
    hide Frame;
    hide EndsHot;
    hide EndsEmpty;
    AfterGarbage(garbage, content);
    EndingMeans(garbage);
    var r := ReceiveAll(START, garbage);
    assert r.packets + Accepted(r.buffer) + [] == r.packets + Accepted(r.buffer);
  }

  /** Two bytes are enough to lose a frame: a delimiter and an escape in front of it. */
  lemma SpoiltFrame(content: seq<byte>)
    requires !NeedsEscape((content + [CrcOf(content)])[0])
    ensures ReceiveAll(START, [MAGIC, ESCAPE] + Frame(content)).packets == []
  {
    hide CrcOf;
    hide Frame;
    var hot := Receiver(true, [], true, []);
    assert [MAGIC, ESCAPE][1..] == [ESCAPE];
    assert ReceiveAll(Receive(START, MAGIC), [ESCAPE]) == ReceiveAll(Receive(Receive(START, MAGIC), ESCAPE), []) == hot;
    AfterGarbage([MAGIC, ESCAPE], content);
  }

  /** Such frames exist: any message starts with its length, here 3, which needs no escape. */
  lemma SomeFrameIsSpoilt()
    ensures Framed([3, 0, 0, 1]) && ReceiveAll(START, [MAGIC, ESCAPE] + Frame([3, 0, 0, 1])).packets == []
  {
    hide CrcOf;
    SpoiltFrame([3, 0, 0, 1]);
  }
}
