/**
 Node tables (src/state/bidib_state.c): the tree of nodes as it is wired, the table
 each node answers with, and what reading one does to the boards.
 */
module NodeTables {
  import opened Bytes
  import opened Messages
  import opened NodeStates
  import opened Tracks
  import opened NodeTree

  /** Nodes as they are wired: each with the number its parent knows it by. */
  datatype Tree = Tree(uid: UniqueId, local: byte, children: seq<Tree>)

  /** A row of a node table. */
  datatype Row = Row(local: byte, uid: UniqueId)

  // ---------------------------------------------------------------------- paths

  function ChildWith(t: Tree, local: byte): (i: nat)
    ensures i <= |t.children|
  {
    First(t.children, (c: Tree) => c.local == local)
  }

  predicate Has(t: Tree, p: Key)
    decreases |p|
  {
    p == [] || (var i := ChildWith(t, p[0]); i < |t.children| && Has(t.children[i], p[1..]))
  }

  function At(t: Tree, p: Key): (s: Tree)
    requires Has(t, p)
    decreases |p|
  {
    if p == [] then t else At(t.children[ChildWith(t, p[0])], p[1..])
  }

  /** Whether the node has a node table of its own: the root, and every interface. */
  predicate IsHub(t: Tree, p: Key)
    requires Has(t, p)
  {
    p == [] || IsInterface(At(t, p).uid)
  }

  /** What the bus guarantees: only interfaces have nodes below them, and local numbers are unique and not 0. */
  ghost predicate Wired(t: Tree) {
    && (forall p :: Has(t, p) && At(t, p).children != [] ==> IsHub(t, p))
    && (forall p, i :: Has(t, p) && 0 <= i < |At(t, p).children| ==> At(t, p).children[i].local != 0)
    && (forall p, i, j :: Has(t, p) && 0 <= i < j < |At(t, p).children| ==>
      At(t, p).children[i].local != At(t, p).children[j].local)
  }

  /** No two nodes have the same unique id. */
  ghost predicate UniqueIds(t: Tree) {
    forall p, q :: Has(t, p) && Has(t, q) && At(t, p).uid == At(t, q).uid ==> p == q
  }

  /** Nodes the library misplaces: an interface three levels below the root, and what is further down. */
  predicate Deep(t: Tree, p: Key)
    requires Has(t, p)
  {
    |p| > 3 || (|p| == 3 && IsHub(t, p))
  }

  lemma {:induction false} HasParent(t: Tree, p: Key)
    requires p != [] && Has(t, p)
    ensures var up := p[..|p| - 1];
      && Has(t, up) && ChildWith(At(t, up), p[|p| - 1]) < |At(t, up).children|
      && At(t, p) == At(t, up).children[ChildWith(At(t, up), p[|p| - 1])]
    decreases |p|
  {
    if |p| > 1 {
      var c := t.children[ChildWith(t, p[0])];
      HasParent(c, p[1..]);
      assert p[..|p| - 1][1..] == p[1..][..|p[1..]| - 1];
    } else {
      assert p[1..] == [] && p[..0] == [];
    }
  }

  lemma {:induction false} HasChild(t: Tree, p: Key, local: byte)
    requires Has(t, p) && ChildWith(At(t, p), local) < |At(t, p).children|
    ensures Has(t, p + [local]) && At(t, p + [local]) == At(t, p).children[ChildWith(At(t, p), local)]
    decreases |p|
  {
    if p == [] {
      assert [local][1..] == [];
      assert p + [local] == [local];
    } else {
      assert (p + [local])[1..] == p[1..] + [local];
      HasChild(t.children[ChildWith(t, p[0])], p[1..], local);
    }
  }

  /** A child by position is the child by its local number. */
  lemma ChildByLocal(t: Tree, p: Key, i: nat)
    requires Wired(t) && Has(t, p) && i < |At(t, p).children|
    ensures var local := At(t, p).children[i].local;
      local != 0 && ChildWith(At(t, p), local) == i && Has(t, p + [local]) && At(t, p + [local]) == At(t, p).children[i]
  {
    var s := At(t, p);
    assert ChildWith(s, s.children[i].local) == i;
    HasChild(t, p, s.children[i].local);
  }

  /** Every path of at most three steps fits an address. */
  lemma {:induction false} PathsFit(t: Tree, p: Key)
    requires Wired(t) && Has(t, p) && |p| <= 3
    ensures IsKey(p)
    decreases |p|
  {
    hide At;
    if p != [] {
      var up := p[..|p| - 1];
      HasParent(t, p);
      PathsFit(t, up);
      var i := ChildWith(At(t, up), p[|p| - 1]);
      assert At(t, up).children[i].local == p[|p| - 1] != 0;
      assert p == up + [p[|p| - 1]];
    }
  }

  lemma {:induction false} AncestorsExist(t: Tree, q: Key, n: nat)
    requires Has(t, q) && n <= |q|
    ensures Has(t, q[..n])
    decreases |q|
  {
    if n < |q| {
      HasParent(t, q);
      AncestorsExist(t, q[..|q| - 1], n);
      assert q[..|q| - 1][..n] == q[..n];
    } else {
      assert q[..n] == q;
    }
  }

  lemma ParentIsHub(t: Tree, p: Key)
    requires Wired(t) && Has(t, p) && At(t, p).children != []
    ensures IsHub(t, p)
  {}

  // -------------------------------------------------------------- the tables

  /** The node table of a node: first itself, then its children. */
  function TableOf(t: Tree): (rows: seq<Row>)
    ensures |rows| == |t.children| + 1
  {
    [Row(0, t.uid)] + seq(|t.children|, i requires 0 <= i < |t.children| => Row(t.children[i].local, t.children[i].uid))
  }

  /** The boards after the first n rows of the table of the node at an address. */
  function AfterRows(boards: seq<Board>, a: NodeAddress, rows: seq<Row>, n: nat): seq<Board>
    requires n <= |rows|
  {
    if n == 0 then boards
    else Connected(AfterRows(boards, a, rows, n - 1), rows[n - 1].uid, ChildAddress(a, rows[n - 1].local))
  }

  /** Addresses put into the queue for the first n rows: the interfaces, the first row apart. */
  function Pushed(a: NodeAddress, rows: seq<Row>, n: nat): seq<NodeAddress>
    requires n <= |rows|
  {
    if n <= 1 then []
    else Pushed(a, rows, n - 1) + if IsInterface(rows[n - 1].uid) then [ChildAddress(a, rows[n - 1].local)] else []
  }

  // ------------------------------------------------------------ what is settled

  /** The board of a node, if one is configured, is connected at the node's path. */
  ghost predicate Settled(boards: seq<Board>, t: Tree, p: Key)
    requires Has(t, p)
  {
    var b := BoardWith(boards, At(t, p).uid);
    b < |boards| ==> IsKey(p) && boards[b].connected && boards[b].nodeAddr == AddressOf(p)
  }

  /** Connecting the node at q at its path settles it and unsettles no other. */
  lemma ConnectSettles(boards: seq<Board>, t: Tree, q: Key, p: Key)
    requires UniqueIds(t) && Has(t, q) && Has(t, p) && IsKey(q)
    ensures var r := Connected(boards, At(t, q).uid, AddressOf(q));
      Settled(r, t, q) && (Settled(boards, t, p) ==> Settled(r, t, p))
  {
    hide Has;
    hide At;
    hide AddressOf;
    var r := Connected(boards, At(t, q).uid, AddressOf(q));
    SameSearch(boards, At(t, q).uid, AddressOf(q), At(t, q).uid);
    SameSearch(boards, At(t, q).uid, AddressOf(q), At(t, p).uid);
  }

  /** Connecting a board changes no unique id, so every search finds the same board. */
  lemma SameSearch(boards: seq<Board>, uid: UniqueId, a: NodeAddress, other: UniqueId)
    ensures var r := Connected(boards, uid, a);
      |r| == |boards| && BoardWith(r, other) == BoardWith(boards, other)
  {
    var r := Connected(boards, uid, a);
    assert forall i :: 0 <= i < |boards| ==> r[i].uniqueId == boards[i].uniqueId;
  }

  /** Connecting a board elsewhere leaves a node of another unique id as it was. */
  lemma ConnectKeeps(boards: seq<Board>, t: Tree, uid: UniqueId, a: NodeAddress, q: Key)
    requires Has(t, q) && At(t, q).uid != uid
    ensures var r, b := Connected(boards, uid, a), BoardWith(boards, At(t, q).uid);
      |r| == |boards| && BoardWith(r, At(t, q).uid) == b && (b < |boards| ==> r[b] == boards[b])
  {
    hide Has;
    hide At;
    SameSearch(boards, uid, a, At(t, q).uid);
  }

  /**
   The path whose address stands for an interface found below the node at p: its own, or,
   if that would take a fourth byte, the one with the third byte overwritten.
   */
  function Sought(p: Key, local: byte): Key
    requires |p| <= 3
  {
    if |p| < 3 then p + [local] else p[..2] + [local]
  }

  /** What the rows of a table say about the node they come from and its children. */
  lemma RowMeans(t: Tree, p: Key, n: nat)
    requires Wired(t) && Has(t, p) && IsKey(p) && n < |TableOf(At(t, p))|
    ensures var row := TableOf(At(t, p))[n];
      if n == 0 then row.uid == At(t, p).uid && (|p| < 3 ==> ChildAddress(AddressOf(p), row.local) == AddressOf(p))
      else
        var q := p + [row.local];
        && row.local == At(t, p).children[n - 1].local && Has(t, q)
        && row.uid == At(t, q).uid && At(t, q) == At(t, p).children[n - 1]
        && IsKey(Sought(p, row.local)) && ChildAddress(AddressOf(p), row.local) == AddressOf(Sought(p, row.local))
  {
    hide At;
    hide Has;
    hide AddressOf;
    hide ChildAddress;
    var s := At(t, p);
    if n == 0 {
      ChildPath(p, 0);
    } else {
      ChildByLocal(t, p, n - 1);
      ChildPath(p, s.children[n - 1].local);
      assert forall i :: 0 <= i < |p| ==> p[i] in p;
    }
  }

  /** Reading the table of a node that is not deep settles it and its children, and unsettles nobody. */
  lemma {:induction false} RowsSettle(boards: seq<Board>, t: Tree, p: Key, n: nat)
    requires Wired(t) && UniqueIds(t) && Has(t, p) && IsHub(t, p) && IsKey(p) && |p| < 3 && n <= |TableOf(At(t, p))|
    ensures var r := AfterRows(boards, AddressOf(p), TableOf(At(t, p)), n);
      && (forall q :: Has(t, q) && Settled(boards, t, q) ==> Settled(r, t, q))
      && (n > 0 ==> Settled(r, t, p))
      && forall q, local :: Has(t, q) && q == p + [local] && ChildWith(At(t, p), local) < n - 1 ==> Settled(r, t, q)
  {
    hide At;
    hide Has;
    hide AddressOf;
    hide ChildAddress;
    hide Wired;
    hide UniqueIds;
    hide Settled;
    hide TableOf;
    hide Connected;
    hide ChildWith;
    var rows := TableOf(At(t, p));
    if n > 0 {
      RowsSettle(boards, t, p, n - 1);
      RowMeans(t, p, n - 1);
      var before := AfterRows(boards, AddressOf(p), rows, n - 1);
      var settled := if n == 1 then p else p + [rows[n - 1].local];
      forall q | Has(t, q)
        ensures Settled(before, t, q) ==> Settled(AfterRows(boards, AddressOf(p), rows, n), t, q)
        ensures q == settled ==> Settled(AfterRows(boards, AddressOf(p), rows, n), t, q)
      {
        ConnectSettles(before, t, settled, q);
      }
      forall q, local | Has(t, q) && q == p + [local] && ChildWith(At(t, p), local) < n - 1
        ensures Settled(AfterRows(boards, AddressOf(p), rows, n), t, q)
      {
        if ChildWith(At(t, p), local) == n - 2 {
          ChildLocal(t, p, local);
          assert q == settled;
        }
      }
    }
  }

  /** A table says nothing about nodes other than the one it comes from and its children. */
  lemma {:induction false} RowsMiss(boards: seq<Board>, t: Tree, p: Key, n: nat, q: Key)
    requires Wired(t) && UniqueIds(t) && Has(t, p) && IsHub(t, p) && IsKey(p) && n <= |TableOf(At(t, p))|
    requires Has(t, q) && q != p && (q != [] ==> q[..|q| - 1] != p)
    ensures var r, b := AfterRows(boards, AddressOf(p), TableOf(At(t, p)), n), BoardWith(boards, At(t, q).uid);
      |r| == |boards| && BoardWith(r, At(t, q).uid) == b && (b < |boards| ==> r[b] == boards[b])
  {
    hide At;
    hide Has;
    hide AddressOf;
    hide ChildAddress;
    hide Wired;
    hide TableOf;
    hide Connected;
    hide BoardWith;
    if n > 0 {
      RowsMiss(boards, t, p, n - 1, q);
      RowMeans(t, p, n - 1);
      var row := TableOf(At(t, p))[n - 1];
      var named := if n == 1 then p else p + [row.local];
      assert named != q;
      ConnectKeeps(AfterRows(boards, AddressOf(p), TableOf(At(t, p)), n - 1), t, row.uid,
                   ChildAddress(AddressOf(p), row.local), q);
    }
  }

  /** The board of a deep interface, if one is configured, is at the address of the node above it. */
  ghost predicate Misplaced(boards: seq<Board>, t: Tree, p: Key)
    requires Has(t, p) && IsKey(p) && |p| == 3
  {
    var b := BoardWith(boards, At(t, p).uid);
    b < |boards| ==> boards[b].nodeAddr == AddressOf(p[..2]) != AddressOf(p)
  }

  lemma ChildLocal(t: Tree, p: Key, local: byte)
    requires Has(t, p) && ChildWith(At(t, p), local) < |At(t, p).children|
    ensures At(t, p).children[ChildWith(At(t, p), local)].local == local
    ensures |TableOf(At(t, p))| == |At(t, p).children| + 1
      && TableOf(At(t, p))[ChildWith(At(t, p), local) + 1].local == local
  {}

  ghost predicate Known(t: Tree, uid: UniqueId) {
    exists p :: Has(t, p) && At(t, p).uid == uid
  }

  /** Only boards of nodes in the tree were touched, and of those only connection and address. */
  ghost predicate OnlyNodesOf(t: Tree, before: seq<Board>, after: seq<Board>) {
    && |after| == |before|
    && forall b :: 0 <= b < |after| ==>
      && after[b] == before[b].(connected := after[b].connected, nodeAddr := after[b].nodeAddr)
      && (after[b] == before[b] || Known(t, before[b].uniqueId))
  }

  lemma ConnectTouches(t: Tree, boards: seq<Board>, uid: UniqueId, a: NodeAddress)
    requires Known(t, uid)
    ensures OnlyNodesOf(t, boards, Connected(boards, uid, a))
  {
    hide Known;
  }

  lemma {:induction false} RowsTouch(boards: seq<Board>, t: Tree, p: Key, n: nat)
    requires Wired(t) && Has(t, p) && IsKey(p) && n <= |TableOf(At(t, p))|
    ensures OnlyNodesOf(t, boards, AfterRows(boards, AddressOf(p), TableOf(At(t, p)), n))
  {
    hide At;
    hide Has;
    hide AddressOf;
    hide ChildAddress;
    hide Wired;
    hide TableOf;
    hide Connected;
    hide OnlyNodesOf;
    hide Known;
    if n == 0 {
      NothingTouched(t, boards);
    } else {
      RowsTouch(boards, t, p, n - 1);
      RowMeans(t, p, n - 1);
      var row := TableOf(At(t, p))[n - 1];
      var before := AfterRows(boards, AddressOf(p), TableOf(At(t, p)), n - 1);
      RowKnown(t, if n == 1 then p else p + [row.local]);
      ConnectTouches(t, before, row.uid, ChildAddress(AddressOf(p), row.local));
      TouchedTwice(t, boards, before, AfterRows(boards, AddressOf(p), TableOf(At(t, p)), n));
    }
  }

  lemma NothingTouched(t: Tree, boards: seq<Board>)
    ensures OnlyNodesOf(t, boards, boards)
  {
    hide Known;
  }

  lemma TouchedTwice(t: Tree, a: seq<Board>, b: seq<Board>, c: seq<Board>)
    requires OnlyNodesOf(t, a, b) && OnlyNodesOf(t, b, c)
    ensures OnlyNodesOf(t, a, c)
  {
    hide Known;
  }

  lemma RowKnown(t: Tree, p: Key)
    requires Has(t, p)
    ensures Known(t, At(t, p).uid)
  {}

  /**
   Why deep interfaces are misplaced: reading the node table of a node whose
   address uses all three bytes puts its own board at its parent's address.
   */
  lemma {:induction false} DeepInterfaceMisplaced(boards: seq<Board>, p: Key, t: Tree, n: nat)
    requires IsKey(p) && |p| == 3 && BoardWith(boards, t.uid) < |boards| && 1 <= n <= |TableOf(t)|
    requires forall i :: 0 <= i < |t.children| ==> t.children[i].uid != t.uid
    ensures var r, b := AfterRows(boards, AddressOf(p), TableOf(t), n), BoardWith(boards, t.uid);
      |r| == |boards| && BoardWith(r, t.uid) == b && r[b].nodeAddr == AddressOf(p[..2]) != AddressOf(p)
  {
    hide AddressOf;
    hide ChildAddress;
    ChildPath(p, 0);
    var row := TableOf(t)[n - 1];
    if n > 1 {
      DeepInterfaceMisplaced(boards, p, t, n - 1);
      var before := AfterRows(boards, AddressOf(p), TableOf(t), n - 1);
      SameSearch(before, row.uid, ChildAddress(AddressOf(p), row.local), t.uid);
    } else {
      assert AfterRows(boards, AddressOf(p), TableOf(t), 0) == boards;
      SameSearch(boards, row.uid, ChildAddress(AddressOf(p), row.local), t.uid);
    }
  }

  lemma ChildrenHaveOtherIds(t: Tree, p: Key)
    requires Wired(t) && UniqueIds(t) && Has(t, p)
    ensures forall i :: 0 <= i < |At(t, p).children| ==> At(t, p).children[i].uid != At(t, p).uid
  {
    hide At;
    hide Has;
    forall i | 0 <= i < |At(t, p).children|
      ensures At(t, p).children[i].uid != At(t, p).uid
    {
      ChildByLocal(t, p, i);
      assert p + [At(t, p).children[i].local] != p;
    }
  }

  lemma {:induction false} SearchesSurvive(boards: seq<Board>, a: NodeAddress, rows: seq<Row>, n: nat, uid: UniqueId)
    requires n <= |rows|
    ensures var r := AfterRows(boards, a, rows, n); |r| == |boards| && BoardWith(r, uid) == BoardWith(boards, uid)
  {
    hide Connected;
    hide BoardWith;
    if n > 0 {
      SearchesSurvive(boards, a, rows, n - 1, uid);
      SameSearch(AfterRows(boards, a, rows, n - 1), rows[n - 1].uid, ChildAddress(a, rows[n - 1].local), uid);
    }
  }

  lemma TableLength(t: Tree)
    ensures |TableOf(t)| == |t.children| + 1
  {}

  lemma TableUnsettlesNobody(boards: seq<Board>, t: Tree, p: Key, q: Key)
    requires Wired(t) && UniqueIds(t) && Has(t, p) && IsHub(t, p) && IsKey(p)
    requires Has(t, q) && !Deep(t, q) && Settled(boards, t, q)
    ensures Settled(AfterRows(boards, AddressOf(p), TableOf(At(t, p)), |TableOf(At(t, p))|), t, q)
  {
    hide At;
    hide Has;
    hide AddressOf;
    hide Wired;
    hide TableOf;
    if |p| < 3 {
      RowsSettle(boards, t, p, |TableOf(At(t, p))|);
    } else {
      RowsMiss(boards, t, p, |TableOf(At(t, p))|, q);
    }
  }

  /**
   What reading the table of any hub with an address does: no node that is not deep is
   unsettled, and the hub and its children end settled exactly if it is less than three
   levels down, or there is no board for them.
   */
  lemma ReadingSettlesExactly(boards: seq<Board>, t: Tree, p: Key, i: int)
    requires Wired(t) && UniqueIds(t) && Has(t, p) && IsHub(t, p) && IsKey(p) && 0 <= i < |At(t, p).children|
    ensures var s, rows := At(t, p), TableOf(At(t, p));
      var r, q := AfterRows(boards, AddressOf(p), rows, |rows|), p + [s.children[i].local];
      && Has(t, q)
      && (forall o :: Has(t, o) && !Deep(t, o) && Settled(boards, t, o) ==> Settled(r, t, o))
      && (Settled(r, t, p) <==> |p| < 3 || BoardWith(boards, s.uid) == |boards|)
      && (Settled(r, t, q) <==> |p| < 3 || BoardWith(boards, s.children[i].uid) == |boards|)
  {
    hide At;
    hide Has;
    hide AddressOf;
    hide TableOf;
    hide AfterRows;
    hide ChildWith;
    var s, rows := At(t, p), TableOf(At(t, p));
    var q := p + [s.children[i].local];
    TableLength(s);
    ChildByLocal(t, p, i);
    forall o | Has(t, o) && !Deep(t, o) && Settled(boards, t, o)
      ensures Settled(AfterRows(boards, AddressOf(p), rows, |rows|), t, o)
    {
      TableUnsettlesNobody(boards, t, p, o);
    }
    SearchesSurvive(boards, AddressOf(p), rows, |rows|, s.uid);
    SearchesSurvive(boards, AddressOf(p), rows, |rows|, s.children[i].uid);
    if |p| < 3 {
      RowsSettle(boards, t, p, |rows|);
    } else if BoardWith(boards, s.uid) < |boards| {
      ChildrenHaveOtherIds(t, p);
      DeepInterfaceMisplaced(boards, p, s, |rows|);
    }
  }
}
