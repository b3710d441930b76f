/**
 Messages of the serial link: how the library builds them
 (src/transmission/bidib_transmission_send.c), takes them apart
 (src/transmission/bidib_transmission_util.c), and cuts a received packet into
 messages (src/transmission/bidib_transmission_receive.c).

 A message is its length byte, the address bytes up to and including a zero,
 the sequence number, the type, and the data bytes.
 */
module Messages {
  import opened Bytes

  // ---------------------------------------------------------------- addresses

  /** The four bytes callers pass as an address; index 3 is the terminator at the latest. */
  ghost predicate IsStack(stack: seq<byte>) {
    |stack| == 4 && stack[3] == 0
  }

  /** A node key: the non-zero bytes in front of the first zero. */
  ghost predicate IsKey(key: seq<byte>) {
    |key| <= 3 && 0 !in key
  }

  /** Number of address bytes that go into a message, the terminating zero included. */
  function AddressSize(stack: seq<byte>): (k: int)
    requires IsStack(stack)
    ensures 1 <= k <= 4 && stack[k - 1] == 0 && forall i :: 0 <= i < k - 1 ==> stack[i] != 0
  {
    if stack[0] == 0 then 1 else if stack[1] == 0 then 2 else if stack[2] == 0 then 3 else 4
  }

  /** The key a C-string hash of the address stack sees. */
  function KeyOf(stack: seq<byte>): (key: seq<byte>)
    requires IsStack(stack)
    ensures IsKey(key)
  {
    stack[..AddressSize(stack) - 1]
  }

  function StackOf(key: seq<byte>): (stack: seq<byte>)
    requires IsKey(key)
    ensures IsStack(stack)
  {
    key + seq(4 - |key|, _ => 0)
  }

  /** No zero byte stands before a non-zero one. */
  ghost predicate Canonical(stack: seq<byte>) {
    forall i, j :: 0 <= i < j < |stack| && stack[i] == 0 ==> stack[j] == 0
  }

  lemma KeyOfStackOf(key: seq<byte>)
    requires IsKey(key)
    ensures KeyOf(StackOf(key)) == key && Canonical(StackOf(key))
  {
    var stack := StackOf(key);
    assert stack[|key|] == 0;
    assert forall i :: 0 <= i < |key| ==> stack[i] == key[i] && key[i] in key;
    assert AddressSize(stack) == |key| + 1;
  }

  lemma StackOfKeyOf(stack: seq<byte>)
    requires IsStack(stack)
    ensures StackOf(KeyOf(stack)) == stack <==> Canonical(stack)
  {
    var k := AddressSize(stack);
    var back := StackOf(KeyOf(stack));
    KeyOfStackOf(KeyOf(stack));
    if Canonical(stack) {
      assert forall i :: k - 1 <= i < 4 ==> stack[i] == 0;
      assert forall i :: 0 <= i < 4 ==> back[i] == stack[i];
    }
  }

  // ----------------------------------------------------------------- building

  /** The message for an address, a sequence number, a type and data. */
  function Build(stack: seq<byte>, seqnum: byte, msgType: byte, data: seq<byte>): (m: seq<byte>)
    requires IsStack(stack) && AddressSize(stack) + 3 + |data| <= 255
    ensures |m| == AddressSize(stack) + 3 + |data|
  {
    [AddressSize(stack) + 2 + |data|] + stack[..AddressSize(stack)] + [seqnum, msgType] + data
  }

  /** Fills a fresh message buffer the way the library does, field by field. */
  method BuildMessage(stack: seq<byte>, seqnum: byte, msgType: byte, data: seq<byte>) returns (message: array<byte>)
    requires IsStack(stack) && AddressSize(stack) + 3 + |data| <= 255
    ensures fresh(message) && message[..] == Build(stack, seqnum, msgType, data)
  {
    var addressSize := AddressSize(stack);
    var length := addressSize + 3 + |data|;
    message := new byte[length];
    message[0] := length - 1;
    for i := 1 to addressSize + 1
      invariant message[0] == length - 1
      invariant forall j :: 1 <= j < i ==> message[j] == stack[j - 1]
    {
      message[i] := stack[i - 1];
    }
    message[addressSize + 1] := seqnum;
    message[addressSize + 2] := msgType;
    for i := 0 to |data|
      invariant message[0] == length - 1
      invariant forall j :: 1 <= j <= addressSize ==> message[j] == stack[j - 1]
      invariant message[addressSize + 1] == seqnum && message[addressSize + 2] == msgType
      invariant forall j :: 0 <= j < i ==> message[addressSize + 3 + j] == data[j]
    {
      message[addressSize + 3 + i] := data[i];
    }
  }

  // --------------------------------------------------------------- dissecting

  /** The length byte counts the bytes behind it. */
  predicate Framed(m: seq<byte>) {
    |m| > 0 && |m| - 1 == m[0]
  }

  /** Index of the first zero at or behind i; the length if there is none. */
  function FirstZero(m: seq<byte>, i: nat): (k: nat)
    requires i <= |m|
    ensures i <= k <= |m| && (k < |m| ==> m[k] == 0)
    ensures forall j :: i <= j < k ==> m[j] != 0
    decreases |m| - i
  {
    if i == |m| || m[i] == 0 then i else FirstZero(m, i + 1)
  }

  lemma FirstZeroAt(m: seq<byte>, i: nat, k: nat)
    requires i <= k < |m| && m[k] == 0 && forall j :: i <= j < k ==> m[j] != 0
    ensures FirstZero(m, i) == k
  {}

  /** A message whose address ends within four bytes and is followed by a sequence number and a type. */
  predicate WellFormed(m: seq<byte>) {
    Framed(m) && FirstZero(m, 1) <= 4 && FirstZero(m, 1) + 2 < |m|
  }

  /** The four fields of a message, as positions behind the address terminator. */
  function AddressField(m: seq<byte>): (stack: seq<byte>)
    requires WellFormed(m)
  {
    m[1..FirstZero(m, 1)] + seq(5 - FirstZero(m, 1), _ => 0)
  }

  function SeqField(m: seq<byte>): byte
    requires WellFormed(m)
  {
    m[FirstZero(m, 1) + 1]
  }

  function TypeField(m: seq<byte>): byte
    requires WellFormed(m)
  {
    m[FirstZero(m, 1) + 2]
  }

  function DataField(m: seq<byte>): seq<byte>
    requires WellFormed(m)
  {
    m[FirstZero(m, 1) + 3..]
  }

  method ExtractMsgType(message: seq<byte>) returns (msgType: byte)
    requires WellFormed(message)
    ensures msgType == TypeField(message)
  {
    var i := 1;
    while message[i] != 0
      invariant 1 <= i <= FirstZero(message, 1)
      decreases |message| - i
    {
      i := i + 1;
    }
    msgType := message[i + 2];
  }

  method ExtractAddress(message: seq<byte>, dest: array<byte>)
    requires WellFormed(message) && dest.Length == 4
    modifies dest
    ensures dest[..] == AddressField(message)
  {
    ghost var k := FirstZero(message, 1);
    dest[0] := message[1];
    var i := 1;
    while message[i] != 0
      invariant 1 <= i <= k
      invariant forall j :: 0 <= j < i ==> dest[j] == message[j + 1]
      decreases k - i
    {
      dest[i] := message[i + 1];
      i := i + 1;
    }
    assert i == k;
    while i < 4
      invariant k <= i <= 4
      invariant forall j :: 0 <= j < k ==> dest[j] == message[j + 1]
      invariant forall j :: k <= j < i ==> dest[j] == 0
    {
      dest[i] := 0;
      i := i + 1;
    }
    assert message[k] == 0;
  }

  method ExtractSeqNum(message: seq<byte>) returns (seqnum: byte)
    requires WellFormed(message)
    ensures seqnum == SeqField(message)
  {
    var i := 1;
    while message[i] != 0
      invariant 1 <= i <= FirstZero(message, 1)
      decreases |message| - i
    {
      i := i + 1;
    }
    i := i + 1;
    seqnum := message[i];
  }

  /** The index of the first data byte, or -1 exactly when the message carries no data. */
  method FirstDataByteIndex(message: seq<byte>) returns (index: int)
    requires WellFormed(message)
    ensures DataField(message) == [] <==> index == -1
    ensures DataField(message) != [] ==> 0 <= index < |message| && message[index..] == DataField(message)
  {
    var limit := message[0] - 3;
    for i := 1 to limit + 1
      invariant FirstZero(message, 1) >= i
    {
      if message[i] == 0 {
        return i + 3;
      }
    }
    index := -1;
  }

  /**
   Taking a built message apart gives back what went in; the address comes back whole exactly
   when it is canonical.
   */
  lemma DissectBuilt(stack: seq<byte>, seqnum: byte, msgType: byte, data: seq<byte>)
    requires IsStack(stack) && AddressSize(stack) + 3 + |data| <= 255
    ensures var m := Build(stack, seqnum, msgType, data);
      && WellFormed(m)
      && SeqField(m) == seqnum && TypeField(m) == msgType && DataField(m) == data
      && AddressField(m) == StackOf(KeyOf(stack))
      && (AddressField(m) == stack <==> Canonical(stack))
  {
    var m := Build(stack, seqnum, msgType, data);
    var k := AddressSize(stack);
    assert forall j :: 1 <= j <= k ==> m[j] == stack[j - 1];
    FirstZeroAt(m, 1, k);
    assert m[1..k] == stack[..k - 1];
    assert m[k + 3..] == data;
    StackOfKeyOf(stack);
  }

  /** Every well-formed message of at most 255 bytes is the one built from its own fields. */
  lemma RebuildDissected(m: seq<byte>)
    requires WellFormed(m) && |m| <= 255
    ensures IsStack(AddressField(m)) && Canonical(AddressField(m))
    ensures AddressSize(AddressField(m)) + 3 + |DataField(m)| == |m|
    ensures Build(AddressField(m), SeqField(m), TypeField(m), DataField(m)) == m
  {
    var k := FirstZero(m, 1);
    var stack := AddressField(m);
    assert forall j :: 0 <= j < k - 1 ==> stack[j] == m[j + 1];
    assert stack[k - 1] == 0;
    assert AddressSize(stack) == k;
  }

  // ---------------------------------------------------------------- splitting

  function Concat(ms: seq<seq<byte>>): seq<byte> {
    if ms == [] then [] else ms[0] + Concat(ms[1..])
  }

  /** Bytes the next message takes: as its length byte says, but no more than there are. */
  function SliceLength(b: seq<byte>): (n: nat)
    requires b != []
    ensures 1 <= n <= |b|
  {
    if b[0] + 1 <= |b| then b[0] + 1 else |b|
  }

  /** A packet cut into messages along the length bytes. */
  function SplitOf(b: seq<byte>): (ms: seq<seq<byte>>)
    decreases |b|
  {
    if b == [] then [] else [b[..SliceLength(b)]] + SplitOf(b[SliceLength(b)..])
  }

  /** The slices partition the packet: nothing is lost, nothing is read twice. */
  lemma {:induction false} SplitPartitions(b: seq<byte>)
    ensures Concat(SplitOf(b)) == b
    decreases |b|
  {
    if b != [] {
      var rest := b[SliceLength(b)..];
      SplitPartitions(rest);
      assert SplitOf(b)[1..] == SplitOf(rest);
    }
  }

  /** Splitting undoes concatenation. */
  lemma {:induction false} SplitConcat(ms: seq<seq<byte>>)
    requires forall m :: m in ms ==> Framed(m)
    ensures SplitOf(Concat(ms)) == ms
  {
    if ms != [] {
      var b := Concat(ms);
      SplitConcat(ms[1..]);
      assert ms[0] in ms && Framed(ms[0]) && b[0] == ms[0][0];
      assert b[..|ms[0]|] == ms[0] && b[|ms[0]|..] == Concat(ms[1..]);
    }
  }

  lemma {:induction false} ConcatAppend(ms: seq<seq<byte>>, m: seq<byte>)
    ensures Concat(ms + [m]) == Concat(ms) + m
  {
    if ms == [] {
      assert Concat([m]) == m + Concat([]);
    } else {
      ConcatAppend(ms[1..], m);
      assert (ms + [m])[1..] == ms[1..] + [m];
    }
  }

  lemma {:induction false} SplitAppend(done: seq<seq<byte>>, slice: seq<byte>, rest: seq<byte>)
    requires rest != [] && slice == rest[..SliceLength(rest)]
    ensures done + SplitOf(rest) == (done + [slice]) + SplitOf(rest[|slice|..])
  {}

  /** The split loop over the receive buffer, copying each message byte by byte. */
  method SplitPacket(buffer: array<byte>, bufferSize: nat) returns (messages: seq<seq<byte>>)
    requires bufferSize <= buffer.Length
    ensures messages == SplitOf(buffer[..bufferSize])
  {
    messages := [];
    var i, j := 0, 0;
    while i < bufferSize
      invariant 0 <= i <= bufferSize
      invariant messages + SplitOf(buffer[i..bufferSize]) == SplitOf(buffer[..bufferSize])
    {
      var message := new byte[buffer[i] + 1];
      ghost var rest := buffer[i..bufferSize];
      j := 0;
      while j <= buffer[i] && j + i < bufferSize
        invariant 0 <= j <= SliceLength(rest)
        invariant message[..j] == rest[..j]
      {
        message[j] := buffer[i + j];
        j := j + 1;
      }
      SplitAppend(messages, message[..j], rest);
      assert rest[j..] == buffer[i + j..bufferSize];
      messages := messages + [message[..j]];
      i := i + j;
    }
  }
}
