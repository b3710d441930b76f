/**
 Places in the node tree (src/state/bidib_state_setter.c): node addresses of up to
 three bytes and the paths they stand for, the subnode test, where a node that
 arrives is put, and what is lost with an interface.
 */
module NodeTree {
  import opened Bytes
  import opened Messages
  import opened NodeStates
  import opened FlowControl
  import opened Tracks

  // ------------------------------------------------------------------ addresses

  function StackAt(a: NodeAddress): (stack: seq<byte>)
    ensures IsStack(stack)
  {
    [a.top, a.sub, a.subsub, 0]
  }

  /** The path an address stands for: its bytes in front of the first zero. */
  function PathOf(a: NodeAddress): (p: Key)
    ensures IsKey(p)
  {
    KeyOf(StackAt(a))
  }

  function AddressOf(p: Key): (a: NodeAddress)
    requires IsKey(p)
    ensures PathOf(a) == p
  {
    var a := NodeAddress(if |p| > 0 then p[0] else 0, if |p| > 1 then p[1] else 0, if |p| > 2 then p[2] else 0);
    assert forall i :: 0 <= i < |p| ==> StackAt(a)[i] == p[i] && p[i] in p;
    a
  }

  /** No zero byte in front of a non-zero one. */
  predicate Tidy(a: NodeAddress) {
    (a.top == 0 ==> a.sub == 0) && (a.sub == 0 ==> a.subsub == 0)
  }

  lemma AddressOfPath(a: NodeAddress)
    ensures AddressOf(PathOf(a)) == a <==> Tidy(a)
  {}

  const ROOT := NodeAddress(0, 0, 0)

  // ------------------------------------------------------------------- subnodes

  /** The first byte in which the addresses differ is zero in the first one. */
  predicate Subnode(a: NodeAddress, b: NodeAddress) {
    if a.top != b.top then a.top == 0
    else if a.sub != b.sub then a.sub == 0
    else a.subsub != b.subsub && a.subsub == 0
  }

  method IsSubnode(nodeAddress: NodeAddress, subnodeAddress: NodeAddress) returns (result: bool)
    ensures result <==> Subnode(nodeAddress, subnodeAddress)
  {
    var node := [nodeAddress.top, nodeAddress.sub, nodeAddress.subsub];
    var subnode := [subnodeAddress.top, subnodeAddress.sub, subnodeAddress.subsub];
    var i := 0;
    while i < 3
      invariant 0 <= i <= 3 && forall j :: 0 <= j < i ==> node[j] == subnode[j]
    {
      if node[i] != subnode[i] {
        break;
      }
      i := i + 1;
    }
    assert (i > 0 ==> node[0] == subnode[0]) && (i > 1 ==> node[1] == subnode[1]) && (i > 2 ==> node[2] == subnode[2]);
    result := i < 3 && node[i] == 0;
  }

  /** The first-difference test is the strict prefix order of paths, but for addresses with one path. */
  lemma SubnodeByPath(a: NodeAddress, b: NodeAddress)
    ensures PathOf(a) < PathOf(b) ==> Subnode(a, b)
    ensures Subnode(a, b) ==> PathOf(a) <= PathOf(b)
    ensures Tidy(b) && PathOf(a) == PathOf(b) ==> !Subnode(a, b)
  {
    var p, q := PathOf(a), PathOf(b);
    assert |p| <= |q| && p == q[..|p|] ==> forall i :: 0 <= i < |p| ==> p[i] == q[i];
    if Subnode(a, b) {
      assert |p| <= |q| && forall i :: 0 <= i < |p| ==> p[i] == q[i];
    }
  }

  /**
   Exactly when the first-difference test is the strict prefix order of paths: the lower
   address has no zero in front of a non-zero byte.
   */
  lemma SubnodeIsStrictPrefix(b: NodeAddress)
    ensures (forall a :: Subnode(a, b) <==> PathOf(a) < PathOf(b)) <==> Tidy(b)
  {
    hide PathOf;
    hide Subnode;
    hide Tidy;
    forall a
      ensures Tidy(b) ==> (Subnode(a, b) <==> PathOf(a) < PathOf(b))
    {
      SubnodeByPath(a, b);
    }
    if !Tidy(b) {
      TidiedIsAbove(b);
      assert PathOf(AddressOf(PathOf(b))) == PathOf(b);
    }
  }

  /** An address with an inner zero counts as below the one its path stands for. */
  lemma TidiedIsAbove(b: NodeAddress)
    requires !Tidy(b)
    ensures Subnode(AddressOf(PathOf(b)), b)
  {}

  /** For example 1.0.5 counts as below 1.0.0, though both have the same path. */
  lemma UntidySubnode()
    ensures var a, b := NodeAddress(1, 0, 0), NodeAddress(1, 0, 5);
      Subnode(a, b) && PathOf(a) == PathOf(b)
  {}

  /**
   The nodes flow control consults for a node are itself and those above it, the
   root apart: the byte-zeroing walk and the subnode test agree.
   */
  lemma WalkVisitsSubnodeOrder(n: NodeAddress, a: NodeAddress)
    requires Tidy(n) && Tidy(a)
    ensures (exists i :: 1 <= i <= |PathOf(n)| && PathOf(a) == PathOf(n)[..i]) <==>
            (a != ROOT && (a == n || Subnode(a, n)))
  {
    hide Subnode;
    hide PathOf;
    SubnodeByPath(a, n);
    var p, q := PathOf(a), PathOf(n);
    AddressOfPath(a);
    AddressOfPath(n);
    assert PathOf(ROOT) == [] by { RootPath(); }
    AddressOfPath(ROOT);
    if a != ROOT && (a == n || Subnode(a, n)) {
      assert q[..|p|] == p;
    }
    if i :| 1 <= i <= |q| && p == q[..i] {
      assert i == |q| ==> p == q;
    }
  }

  lemma RootPath()
    ensures PathOf(ROOT) == []
  {}

  /** A node may send exactly when neither it nor any node above it, the root apart, is stalled. */
  lemma ReadyMeansNoneAboveStalled(t: Table, n: NodeAddress)
    requires Tidy(n)
    ensures Blocker(t, PathOf(n)) == [] <==>
      forall a :: Tidy(a) && a != ROOT && (a == n || Subnode(a, n)) ==> !Stalled(t, PathOf(a))
  {
    hide Subnode;
    hide PathOf;
    hide Tidy;
    var q := PathOf(n);
    BlockerMeaning(t, q);
    forall a | Tidy(a) && a != ROOT && (a == n || Subnode(a, n)) && Unstalled(t, q)
      ensures !Stalled(t, PathOf(a))
    {
      WalkVisitsSubnodeOrder(n, a);
    }
    if !Unstalled(t, q) {
      var i :| 1 <= i <= |q| && Stalled(t, q[..i]);
      var a := AddressOf(q[..i]);
      AddressOfIsTidy(q[..i]);
      WalkVisitsSubnodeOrder(n, a);
    }
  }

  /** The address a message carries has no inner zero. */
  lemma MessageAddressIsTidy(m: seq<byte>)
    requires WellFormed(m)
    ensures var f := AddressField(m); |f| == 4 && Tidy(NodeAddress(f[0], f[1], f[2]))
  {
    var k := FirstZero(m, 1);
    var f := AddressField(m);
    assert forall j :: 0 <= j < k - 1 ==> f[j] == m[j + 1] != 0;
  }

  lemma AddressOfIsTidy(p: Key)
    requires IsKey(p)
    ensures Tidy(AddressOf(p))
  {}

  // --------------------------------------------------------- nodes come and go

  predicate IsInterface(uid: UniqueId): (r: bool)
    ensures r <==> uid.classId >= 128
  {
    assert PowerOfTwo(7) == 128 by { assert PowerOfTwo(4) == 16; }
    BitSet(uid.classId, 7)
  }

  /** A node table entry goes to the first zero byte, or to the last byte. */
  function ChildAddress(a: NodeAddress, local: byte): NodeAddress {
    if a.top == 0 then a.(top := local) else if a.sub == 0 then a.(sub := local) else a.(subsub := local)
  }

  function Connected(boards: seq<Board>, uid: UniqueId, a: NodeAddress): seq<Board> {
    var b := BoardWith(boards, uid);
    if b == |boards| then boards else boards[b := boards[b].(connected := true, nodeAddr := a)]
  }

  /** What is left after a node is lost: with an interface, everything the subnode test puts below it is gone. */
  function Lost(boards: seq<Board>, uid: UniqueId): (r: seq<Board>)
    ensures |r| == |boards|
  {
    var b := BoardWith(boards, uid);
    if b == |boards| then boards
    else
      seq(|boards|, i requires 0 <= i < |boards| =>
        if i == b || (IsInterface(boards[b].uniqueId) && Subnode(boards[b].nodeAddr, boards[i].nodeAddr))
        then boards[i].(connected := false) else boards[i])
  }

  /** Every connected board has a tidy address. */
  ghost predicate TidyBoards(boards: seq<Board>) {
    forall i :: 0 <= i < |boards| && boards[i].connected ==> Tidy(boards[i].nodeAddr)
  }

  class BoardList {
    var boards: seq<Board>

    constructor (boards: seq<Board>)
      ensures this.boards == boards
    {
      this.boards := boards;
    }

    method NodeNew(addr: NodeAddress, localAddr: byte, uid: UniqueId)
      modifies this
      ensures boards == Connected(old(boards), uid, ChildAddress(addr, localAddr))
    {
      var b := Search(boards, (b: Board) => b.uniqueId == uid);
      if b < |boards| {
        var a := addr;
        if a.top == 0 {
          a := a.(top := localAddr);
        } else if a.sub == 0 {
          a := a.(sub := localAddr);
        } else {
          a := a.(subsub := localAddr);
        }
        boards := boards[b := boards[b].(connected := true, nodeAddr := a)];
      }
    }

    method NodeLost(uid: UniqueId)
      modifies this
      ensures boards == Lost(old(boards), uid)
    {
      hide BitSet;
      hide Subnode;
      ghost var before := boards;
      var b := Search(boards, (b: Board) => b.uniqueId == uid);
      if b < |boards| {
        boards := boards[b := boards[b].(connected := false)];
        ghost var alone := boards;
        if BitSet(boards[b].uniqueId.classId, 7) {
          for i := 0 to |boards|
            invariant |boards| == |before|
            invariant forall j :: 0 <= j < i ==> boards[j] == Lost(before, uid)[j]
            invariant forall j :: i <= j < |boards| ==> boards[j] == alone[j]
            invariant boards[b].nodeAddr == before[b].nodeAddr && !boards[b].connected
          {
            var below := IsSubnode(boards[b].nodeAddr, boards[i].nodeAddr);
            if below {
              boards := boards[i := boards[i].(connected := false)];
            }
          }
        }
        assert boards == Lost(before, uid);
      }
    }
  }

  /**
   Losing a node disconnects exactly its board and, if it is an interface, the
   boards whose paths strictly extend its own; no address changes.
   */
  lemma LostExactly(boards: seq<Board>, uid: UniqueId, i: nat)
    requires TidyBoards(boards) && i < |boards|
    ensures var b, r := BoardWith(boards, uid), Lost(boards, uid);
      && r[i] == boards[i].(connected := r[i].connected)
      && (r[i].connected <==> (boards[i].connected && i != b
                               && !(b < |boards| && IsInterface(uid)
                                 && PathOf(boards[b].nodeAddr) < PathOf(boards[i].nodeAddr))))
  {
    hide Subnode;
    hide PathOf;
    hide BitSet;
    var b := BoardWith(boards, uid);
    if b < |boards| && boards[i].connected {
      SubnodeByPath(boards[b].nodeAddr, boards[i].nodeAddr);
    }
  }

  /**
   Where a node table entry is put: at the parent's path extended by the local address,
   unless three bytes are in use already.
   */
  lemma ChildPath(p: Key, local: byte)
    requires IsKey(p)
    ensures local == 0 && |p| < 3 ==> ChildAddress(AddressOf(p), local) == AddressOf(p)
    ensures local != 0 && |p| < 3 ==> IsKey(p + [local]) && ChildAddress(AddressOf(p), local) == AddressOf(p + [local])
    ensures local == 0 && |p| == 3 ==> ChildAddress(AddressOf(p), local) == AddressOf(p[..2]) != AddressOf(p)
    ensures local != 0 && |p| == 3 ==> ChildAddress(AddressOf(p), local) == AddressOf(p[..2] + [local])
  {
    hide PathOf;
    assert forall i :: 0 <= i < |p| ==> p[i] in p;
  }

  lemma NewKeepsTidy(boards: seq<Board>, uid: UniqueId, a: NodeAddress, local: byte)
    requires TidyBoards(boards) && Tidy(a)
    ensures TidyBoards(Connected(boards, uid, ChildAddress(a, local)))
  {}

  lemma LostKeepsTidy(boards: seq<Board>, uid: UniqueId)
    requires TidyBoards(boards)
    ensures TidyBoards(Lost(boards, uid))
  {
    hide Subnode;
  }
}
