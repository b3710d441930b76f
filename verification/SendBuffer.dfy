/**
 The send buffer (src/transmission/bidib_transmission_send.c): messages are
 collected into packets, and a packet goes out as delimiter, escaped content,
 escaped checksum, delimiter, through an auxiliary buffer written in chunks.
 */
module SendBuffers {
  import opened Bytes
  import opened Crc
  import opened Messages

  const MAGIC: byte := 0xFE
  const ESCAPE: byte := 0xFD
  const BUFFER_SIZE := 256
  const AUX_SIZE := 312

  // --------------------------------------------------------- the pure encoder

  predicate NeedsEscape(b: byte) {
    b == MAGIC || b == ESCAPE
  }

  function EscapeByte(b: byte): seq<byte> {
    if NeedsEscape(b) then [ESCAPE, Xor(b, 0x20)] else [b]
  }

  function Escape(s: seq<byte>): seq<byte> {
    if s == [] then [] else Escape(s[..|s| - 1]) + EscapeByte(s[|s| - 1])
  }

  /** A packet on the wire. */
  function Frame(content: seq<byte>): seq<byte> {
    [MAGIC] + Escape(content + [CrcOf(content)]) + [MAGIC]
  }

  lemma EscapeAppend(s: seq<byte>, b: byte)
    ensures Escape(s + [b]) == Escape(s) + EscapeByte(b)
  {
    assert (s + [b])[..|s|] == s;
  }

  lemma EncodeNothing()
    ensures Escape([]) == [] && CrcOf([]) == 0
  {}

  /** One more byte in the encoder's loop. */
  lemma EncodeNext(s: seq<byte>, i: nat)
    requires i < |s|
    ensures Escape(s[..i + 1]) == Escape(s[..i]) + EscapeByte(s[i])
    ensures CrcOf(s[..i + 1]) == Step(CrcOf(s[..i]), s[i])
  {
    hide Step;
    hide EscapeByte;
    assert s[..i + 1] == s[..i] + [s[i]];
    CrcAppend(s[..i], s[i]);
    EscapeAppend(s[..i], s[i]);
  }

  // ------------------------------------------------------------ the buffer

  /** The buffer as a value: what is waiting, the packet capacity, and all bytes written so far. */
  datatype SendState = SendState(pending: seq<byte>, cap: nat, written: seq<byte>)

  function Flushed(s: SendState): SendState {
    if s.pending == [] then s else s.(pending := [], written := s.written + Frame(s.pending))
  }

  /** Adding a message: flush before if it does not fit, flush after if no further message would fit. */
  function Added(s: SendState, m: seq<byte>): SendState {
    var room := if |m| + |s.pending| > s.cap then Flushed(s) else s;
    var filled := room.(pending := room.pending + m);
    if |filled.pending| > s.cap - 4 then Flushed(filled) else filled
  }

  /** A capacity report below 64 counts as 64. */
  function WithCapacity(s: SendState, capacity: byte): SendState {
    s.(cap := if capacity <= 64 then 64 else capacity)
  }

  class SendBuffer {
    const buffer: array<byte>
    const aux: array<byte>
    var index: nat
    var cap: nat
    var written: seq<byte>

    ghost predicate Valid()
      reads this
    {
      && buffer != aux && buffer.Length == BUFFER_SIZE && aux.Length == AUX_SIZE
      && index <= BUFFER_SIZE && 64 <= cap <= 255
    }

    ghost function State(): SendState
      reads this, buffer
      requires Valid()
    {
      SendState(buffer[..index], cap, written)
    }

    constructor ()
      ensures Valid() && fresh(buffer) && fresh(aux)
      ensures State() == SendState([], 64, [])
    {
      buffer := new byte[BUFFER_SIZE];
      aux := new byte[AUX_SIZE];
      index := 0;
      cap := 64;
      written := [];
    }

    /** Everything written or waiting in the first n bytes of the auxiliary buffer. */
    ghost function Out(n: nat): seq<byte>
      reads this, aux
      requires n <= aux.Length
    {
      written + aux[..n]
    }

    /** Hands the first n bytes of the auxiliary buffer to the serial port. */
    method WriteBytes(n: nat)
      requires n <= aux.Length
      modifies this`written
      ensures written == old(written) + aux[..n]
    {
      written := written + aux[..n];
    }

    method Put(auxIndex: nat, b: byte) returns (next: nat)
      requires Valid() && auxIndex + 2 <= AUX_SIZE
      modifies aux
      ensures next <= auxIndex + 2
      ensures next <= AUX_SIZE && Out(next) == old(Out(auxIndex)) + EscapeByte(b)
    {
      hide Xor;
      next := auxIndex;
      if NeedsEscape(b) {
        aux[next] := ESCAPE;
        next := next + 1;
        aux[next] := Xor(b, 0x20);
        next := next + 1;
      } else {
        aux[next] := b;
        next := next + 1;
      }
    }

    /** Writes the auxiliary buffer out and starts over when fewer than `need` bytes would be left. */
    method MakeRoom(auxIndex: nat, need: nat) returns (next: nat)
      requires Valid() && auxIndex <= AUX_SIZE && need < AUX_SIZE
      modifies this`written
      ensures next + need < AUX_SIZE
      ensures Out(next) == old(Out(auxIndex))
    {
      next := auxIndex;
      if auxIndex + need >= AUX_SIZE {
        WriteBytes(auxIndex);
        next := 0;
      }
    }

    /** The opening delimiter and the escaped content, with the checksum computed along the way. */
    method EncodeContent() returns (auxIndex: nat, crc: byte)
      requires Valid()
      modifies this`written, aux
      ensures Valid() && auxIndex + 2 <= AUX_SIZE
      ensures crc == CrcOf(buffer[..index])
      ensures Out(auxIndex) == old(written) + ([MAGIC] + Escape(buffer[..index]))
    {
      hide Xor;
      hide Step;
      hide Escape;
      hide EscapeByte;
      hide CrcOf;
      ghost var pending := buffer[..index];
      crc := 0;
      aux[0] := MAGIC;
      auxIndex := 1;
      EncodeNothing();
      for i := 0 to index
        invariant auxIndex + 2 <= AUX_SIZE
        invariant crc == CrcOf(pending[..i])
        invariant Out(auxIndex) == old(written) + ([MAGIC] + Escape(pending[..i]))
      {
        EncodeNext(pending, i);
        auxIndex := MakeRoom(auxIndex, 3);
        crc := Step(crc, buffer[i]);
        auxIndex := Put(auxIndex, buffer[i]);
      }
      assert pending[..index] == pending;
    }

    method Flush()
      requires Valid()
      modifies this`index, this`written, aux
      ensures Valid() && State() == Flushed(old(State()))
    {
      hide Xor;
      hide Step;
      hide Escape;
      hide EscapeByte;
      hide CrcOf;
      if index > 0 {
        ghost var start, pending := written, buffer[..index];
        var auxIndex, crc := EncodeContent();
        EscapeAppend(pending, crc);
        auxIndex := MakeRoom(auxIndex, 4);
        auxIndex := Put(auxIndex, crc);
        ghost var body := Out(auxIndex);
        assert body == start + ([MAGIC] + Escape(pending + [crc]));
        aux[auxIndex] := MAGIC;
        auxIndex := auxIndex + 1;
        assert Out(auxIndex) == body + [MAGIC] == start + Frame(pending);
        WriteBytes(auxIndex);
        index := 0;
      }
    }

    method StatePacketCapacity(maxCapacity: byte)
      requires Valid()
      modifies this`cap
      ensures Valid() && State() == WithCapacity(old(State()), maxCapacity)
    {
      if maxCapacity <= 64 {
        cap := 64;
      } else {
        cap := maxCapacity;
      }
    }

    method AddToBuffer(message: seq<byte>)
      requires Valid() && Framed(message)
      modifies this`index, this`written, buffer, aux
      ensures Valid() && State() == Added(old(State()), message)
    {
      hide Frame;
      if message[0] + 1 + index > cap {
        Flush();
      }
      ghost var room := State();
      forall i | 0 <= i < |message| {
        buffer[index + i] := message[i];
      }
      index := index + |message|;
      assert buffer[..index] == room.pending + message;
      if index > cap - 4 {
        Flush();
      }
    }
  }
}
