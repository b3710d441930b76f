/**
 Discovery (src/state/bidib_state.c): the interface's node table is read row by
 row, then breadth-first those of all interfaces below it; when a table changes
 while it is read, everything starts over.
 */
module Discovery {
  import opened Bytes
  import opened Messages
  import opened NodeStates
  import opened Tracks
  import opened NodeTree
  import opened NodeTables
  import opened DiscoveryQueue

  /** A tree in which discovery asks hubs only, and ends (`DiscoveryQueue.EndsExactly`). */
  ghost predicate Readable(t: Tree) {
    Wired(t) && UniqueIds(t) && LeadsToHubs(t) && NoLoop(t)
  }

  lemma ReadableParts(t: Tree)
    requires Readable(t)
    ensures Wired(t) && UniqueIds(t) && LeadsToHubs(t) && NoLoop(t)
  {}

  function Parent(a: NodeAddress): NodeAddress
    requires PathOf(a) != []
  {
    var q := PathOf(a);
    assert IsKey(q[..|q| - 1]);
    AddressOf(q[..|q| - 1])
  }

  // ------------------------------------------------------------------- progress

  /** Some address in the queue leads to the node at p. */
  ghost predicate Ahead(queue: seq<NodeAddress>, p: Key) {
    exists a :: a in queue && PathOf(a) <= p
  }

  /**
   Those asked and those in the queue are hubs, each but the root comes from a parent asked
   before, and none comes twice, unless it lies three levels down and is led to.
   */
  ghost predicate QueueOk(t: Tree, asked: seq<NodeAddress>, queue: seq<NodeAddress>) {
    && OnceOrDeep(asked + queue) && (Shallow(t) ==> NoDuplicates(asked + queue))
    && forall a :: a in asked || a in queue ==> HubAddress(t, a) && (PathOf(a) != [] ==> Parent(a) in asked)
  }

  /** Only addresses of three bytes come more than once. */
  ghost predicate OnceOrDeep(s: seq<NodeAddress>) {
    forall i, j :: 0 <= i < j < |s| && s[i] == s[j] ==> |PathOf(s[i])| == 3
  }

  /** Every node that is not deep is settled, and every hub asked, or the queue leads there. */
  ghost predicate NothingForgotten(t: Tree, boards: seq<Board>, asked: seq<NodeAddress>, queue: seq<NodeAddress>) {
    && (forall p :: Has(t, p) && !Deep(t, p) ==> Settled(boards, t, p) || Ahead(queue, p))
    && (forall p :: Has(t, p) && IsHub(t, p) && IsKey(p) ==> AddressOf(p) in asked || Ahead(queue, p))
  }

  /** Every deep interface asked is misplaced. */
  ghost predicate DeepMisplaced(t: Tree, boards: seq<Board>, asked: seq<NodeAddress>) {
    forall p :: Has(t, p) && IsHub(t, p) && IsKey(p) && |p| == 3 && AddressOf(p) in asked ==> Misplaced(boards, t, p)
  }

  ghost predicate Progress(t: Tree, boards: seq<Board>, asked: seq<NodeAddress>, queue: seq<NodeAddress>) {
    QueueOk(t, asked, queue) && NothingForgotten(t, boards, asked, queue) && DeepMisplaced(t, boards, asked)
  }

  lemma StartsWithRoot(t: Tree, boards: seq<Board>)
    ensures Progress(t, boards, [], [ROOT])
  {
    hide At;
    hide PathOf;
    RootPath();
    assert Has(t, []);
    AddressOfPath(ROOT);
    assert ROOT in [ROOT];
  }

  lemma FrontIsNew(asked: seq<NodeAddress>, a: NodeAddress, rest: seq<NodeAddress>)
    requires OnceOrDeep(asked + ([a] + rest)) && a in asked
    ensures |PathOf(a)| == 3
  {
    hide PathOf;
    var all := asked + ([a] + rest);
    var i :| 0 <= i < |asked| && asked[i] == a;
    assert all[|asked|] == a && all[i] == a;
  }

  lemma NoDuplicatesConcat(s: seq<NodeAddress>, r: seq<NodeAddress>)
    requires NoDuplicates(r) && forall x :: x in r ==> x !in s
    ensures NoDuplicates(s) ==> NoDuplicates(s + r)
    ensures OnceOrDeep(s) ==> OnceOrDeep(s + r)
  {
    hide PathOf;
    forall i, j | 0 <= i < j < |s + r|
      ensures (s + r)[i] == (s + r)[j] ==> i < j < |s|
    {
      if i < |s| <= j {
        assert r[j - |s|] in r && s[i] in s;
      }
    }
  }

  lemma DeepConcat(s: seq<NodeAddress>, r: seq<NodeAddress>)
    requires OnceOrDeep(s) && forall x :: x in r ==> |PathOf(x)| == 3
    ensures OnceOrDeep(s + r)
  {
    hide PathOf;
  }

  /** Reading a table less than three levels down pushes addresses not met before, of children of its node. */
  lemma NewOnes(t: Tree, asked: seq<NodeAddress>, a: NodeAddress, rest: seq<NodeAddress>, x: NodeAddress)
    requires Readable(t) && QueueOk(t, asked, [a] + rest)
    requires HubAddress(t, a) && HubAddress(t, x) && |PathOf(a)| < 3
    requires |PathOf(x)| == |PathOf(a)| + 1 && PathOf(x)[..|PathOf(a)|] == PathOf(a)
    ensures PathOf(x) != [] && Parent(x) == a && x !in asked && x !in [a] + rest
  {
    hide Has;
    hide IsHub;
    hide AddressOf;
    hide PathOf;
    hide Readable;
    if a in asked {
      FrontIsNew(asked, a, rest);
    }
  }

  /** Every address a deep hub pushes has the parent of that hub as its own. */
  lemma SameParent(t: Tree, a: NodeAddress, x: NodeAddress)
    requires |PathOf(a)| == 3 == |PathOf(x)| && PathOf(x)[..2] == PathOf(a)[..2]
    ensures Parent(x) == Parent(a)
  {
    hide PathOf;
    hide AddressOf;
  }

  /** Reading the front of the queue keeps it in order. */
  lemma QueueStep(t: Tree, asked: seq<NodeAddress>, a: NodeAddress, rest: seq<NodeAddress>)
    requires Readable(t) && QueueOk(t, asked, [a] + rest)
    ensures HubAddress(t, a)
    ensures var rows := TableOf(At(t, PathOf(a)));
      QueueOk(t, asked + [a], rest + Pushed(a, rows, |rows|))
  {
    hide At;
    hide Has;
    hide AddressOf;
    hide PathOf;
    hide TableOf;
    hide Wired;
    hide LeadsToHubs;
    hide NoLoop;
    hide UniqueIds;
    hide IsHub;
    hide HubBelow;
    hide LeadsTo;
    hide Parent;
    hide Shallow;
    hide NoDuplicates;
    hide OnceOrDeep;
    assert a in [a] + rest && HubAddress(t, a);
    var p, rows := PathOf(a), TableOf(At(t, PathOf(a)));
    var pushed := Pushed(a, rows, |rows|);
    PushedExactly(t, p, |rows|);
    forall x | x in pushed
      ensures HubAddress(t, x) && PathOf(x) != [] && Parent(x) in asked + [a]
      ensures |p| < 3 ==> x !in asked && x !in [a] + rest
      ensures |p| == 3 ==> |PathOf(x)| == 3 && LeadsTo(t, p, PathOf(x))
    {
      HubBelowMeans(t, p, |rows| - 1, x);
      if |p| < 3 {
        NewOnes(t, asked, a, rest, x);
      } else {
        SameParent(t, a, x);
      }
    }
    assert asked + ([a] + rest) == (asked + [a]) + rest;
    assert (asked + [a]) + (rest + pushed) == (asked + ([a] + rest)) + pushed;
    if |p| < 3 {
      NoDuplicatesConcat(asked + ([a] + rest), pushed);
    } else {
      DeepConcat(asked + ([a] + rest), pushed);
      if Shallow(t) {
        ShallowPushesNothing(t, p, pushed);
        assert (asked + ([a] + rest)) + [] == asked + ([a] + rest);
      }
    }
  }

  lemma ShallowPushesNothing(t: Tree, p: Key, pushed: seq<NodeAddress>)
    requires Wired(t) && Shallow(t) && forall x :: x in pushed ==> LeadsTo(t, p, PathOf(x))
    ensures pushed == []
  {
    hide At;
    hide Has;
    hide PathOf;
    hide BitSet;
    if pushed != [] {
      assert pushed[0] in pushed;
      var i :| HubChild(t, p, i);
      ChildIsHub(t, p, i);
    }
  }

  /** After reading a, what lay below it is settled or lies below a hub just pushed. */
  lemma ReadOn(t: Tree, boards: seq<Board>, a: NodeAddress, q: Key)
    requires Readable(t) && HubAddress(t, a) && Has(t, q) && PathOf(a) <= q && |q| <= 3
    ensures var rows := TableOf(At(t, PathOf(a)));
      && (!Deep(t, q) ==> Settled(AfterRows(boards, a, rows, |rows|), t, q) || Ahead(Pushed(a, rows, |rows|), q))
      && (IsHub(t, q) && IsKey(q) && AddressOf(q) != a ==> Ahead(Pushed(a, rows, |rows|), q))
  {
    hide At;
    hide Has;
    hide AddressOf;
    hide PathOf;
    hide TableOf;
    hide Wired;
    hide UniqueIds;
    hide LeadsToHubs;
    hide NoLoop;
    hide IsHub;
    hide ChildWith;
    hide Settled;
    var p := PathOf(a);
    var rows := TableOf(At(t, p));
    assert |rows| == |At(t, p).children| + 1 by { TableLength(At(t, p)); }
    if |p| < 3 {
      RowsSettle(boards, t, p, |rows|);
    }
    if p != q {
      HubAbove(t, p, q);
      var up := q[..|p| + 1];
      NextOnWay(p, q);
      if up != q {
        HubAbove(t, up, q);
      }
      if IsHub(t, up) {
        WayDown(t, p, up);
        assert up[..|p| + 1] == up;
        assert AddressOf(up) in Pushed(a, rows, |rows|) && PathOf(AddressOf(up)) <= q;
      }
    }
  }

  /** Reading a table misplaces the deep interface it comes from, and moves no other that was asked before. */
  lemma ReadKeepsMisplaced(t: Tree, boards: seq<Board>, asked: seq<NodeAddress>, a: NodeAddress, rest: seq<NodeAddress>)
    requires Readable(t) && QueueOk(t, asked, [a] + rest) && HubAddress(t, a)
    requires DeepMisplaced(t, boards, asked)
    ensures var rows := TableOf(At(t, PathOf(a)));
      DeepMisplaced(t, AfterRows(boards, a, rows, |rows|), asked + [a])
  {
    hide At;
    hide Has;
    hide AddressOf;
    hide PathOf;
    hide TableOf;
    hide LeadsToHubs;
    hide NoLoop;
    hide Wired;
    hide IsHub;
    hide QueueOk;
    hide Parent;
    var rows := TableOf(At(t, PathOf(a)));
    var after := AfterRows(boards, a, rows, |rows|);
    forall p | Has(t, p) && IsHub(t, p) && IsKey(p) && |p| == 3 && AddressOf(p) in asked + [a]
      ensures Misplaced(after, t, p)
    {
      if PathOf(a) != p {
        AskedBefore(t, asked, a, rest, p);
        RowsMiss(boards, t, PathOf(a), |rows|, p);
        assert Misplaced(boards, t, p);
      } else {
        SearchesSurvive(boards, a, rows, |rows|, At(t, p).uid);
        if BoardWith(boards, At(t, p).uid) < |boards| {
          TableLength(At(t, p));
          ChildrenHaveOtherIds(t, p);
          DeepInterfaceMisplaced(boards, p, At(t, p), |rows|);
        }
      }
    }
  }

  /** The front of the queue is not the hub above one asked before. */
  lemma AskedBefore(t: Tree, asked: seq<NodeAddress>, a: NodeAddress, rest: seq<NodeAddress>, p: Key)
    requires QueueOk(t, asked, [a] + rest) && HubAddress(t, a)
    requires IsKey(p) && |p| == 3 && AddressOf(p) in asked + [a] && PathOf(a) != p
    ensures AddressOf(p) in asked && PathOf(a) != p[..2]
  {
    hide Has;
    hide IsHub;
    hide AddressOf;
    hide PathOf;
    assert PathOf(AddressOf(p)) == p != [];
    assert Parent(AddressOf(p)) in asked;
    assert p[..|p| - 1] == p[..2];
    if PathOf(a) == p[..2] {
      FrontIsNew(asked, a, rest);
    }
  }

  /** Reading the node table at the front of the queue keeps the invariant. */
  lemma ReadKeepsProgress(t: Tree, boards: seq<Board>, asked: seq<NodeAddress>, a: NodeAddress, rest: seq<NodeAddress>)
    requires Readable(t) && Progress(t, boards, asked, [a] + rest)
    ensures HubAddress(t, a)
    ensures var rows := TableOf(At(t, PathOf(a)));
      Progress(t, AfterRows(boards, a, rows, |rows|), asked + [a], rest + Pushed(a, rows, |rows|))
  {
    hide At;
    hide Has;
    hide AddressOf;
    hide PathOf;
    hide TableOf;
    hide Readable;
    hide IsHub;
    hide Settled;
    hide QueueOk;
    hide DeepMisplaced;
    QueueStep(t, asked, a, rest);
    ReadKeepsMisplaced(t, boards, asked, a, rest);
    var rows := TableOf(At(t, PathOf(a)));
    var pushed := Pushed(a, rows, |rows|);
    var after := AfterRows(boards, a, rows, |rows|);
    forall p | Has(t, p)
      ensures !Deep(t, p) ==> Settled(after, t, p) || Ahead(rest + pushed, p)
      ensures IsHub(t, p) && IsKey(p) ==> AddressOf(p) in asked + [a] || Ahead(rest + pushed, p)
    {
      if PathOf(a) <= p && |p| <= 3 {
        ReadOn(t, boards, a, p);
      }
      AheadOf(rest, pushed, p);
      if Ahead([a] + rest, p) && !(PathOf(a) <= p) {
        assert Ahead(rest, p);
      }
      if !Deep(t, p) && Settled(boards, t, p) {
        ReadableParts(t);
        TableUnsettlesNobody(boards, t, PathOf(a), p);
      }
    }
  }

  lemma AheadOf(rest: seq<NodeAddress>, pushed: seq<NodeAddress>, p: Key)
    ensures Ahead(rest + pushed, p) <==> Ahead(rest, p) || Ahead(pushed, p)
  {
    hide PathOf;
    if Ahead(rest, p) {
      var a :| a in rest && PathOf(a) <= p;
      assert a in rest + pushed;
    }
    if Ahead(pushed, p) {
      var a :| a in pushed && PathOf(a) <= p;
      assert a in rest + pushed;
    }
  }

  // ------------------------------------------------------------- the search itself

  /**
   The table is complete after the given number of further rows, or, if a change
   comes first, reading stops there; a negative number says no change comes.
   */
  predicate Interrupts(change: int, rows: seq<Row>) {
    0 <= change < |rows|
  }

  /** What one table does to an attempt under way, wherever a change stops it. */
  lemma Reading(t: Tree, first: seq<Board>, boards: seq<Board>, asked: seq<NodeAddress>, a: NodeAddress,
    rest: seq<NodeAddress>, change: int)
    requires Readable(t) && Progress(t, boards, asked, [a] + rest) && OnlyNodesOf(t, first, boards)
    ensures Has(t, PathOf(a))
    ensures var rows := TableOf(At(t, PathOf(a)));
      && (!Interrupts(change, rows) ==> OnlyNodesOf(t, first, AfterRows(boards, a, rows, |rows|)))
      && (Interrupts(change, rows) ==> OnlyNodesOf(t, first, AfterRows(boards, a, rows, change)))
      && Progress(t, AfterRows(boards, a, rows, |rows|), asked + [a], rest + Pushed(a, rows, |rows|))
      && Weight(t, rest + Pushed(a, rows, |rows|)) < Weight(t, [a] + rest)
  {
    hide Progress;
    hide AfterRows;
    hide Pushed;
    hide Weight;
    hide PathOf;
    hide AddressOf;
    hide TableOf;
    hide Wired;
    hide UniqueIds;
    hide LeadsToHubs;
    hide NoLoop;
    hide Has;
    hide At;
    hide IsHub;
    hide OnlyNodesOf;
    ReadKeepsProgress(t, boards, asked, a, rest);
    ReadingEndsSooner(t, a, rest);
    var rows := TableOf(At(t, PathOf(a)));
    var n := if Interrupts(change, rows) then change else |rows|;
    RowsTouch(boards, t, PathOf(a), n);
    TouchedTwice(t, first, boards, AfterRows(boards, a, rows, n));
  }

  class Discoverer {
    var boards: seq<Board>
    var asked: seq<NodeAddress>
    var queue: seq<NodeAddress>
    /** How often a number towards the root was skipped. */
    var skipped: nat

    constructor (boards: seq<Board>)
      ensures this.boards == boards && asked == [] && queue == [] && skipped == 0
    {
      this.boards := boards;
      asked := [];
      queue := [];
      skipped := 0;
    }

    /** Asks a node for its table and takes the rows as they come, until a change is announced. */
    method QueryNodetab(nodeAddress: NodeAddress, nodeSeqIncr: bool, rows: seq<Row>, change: int) returns (reset: bool)
      modifies this
      ensures reset <==> Interrupts(change, rows)
      ensures skipped == old(skipped) + if nodeSeqIncr then 1 else 0
      ensures var n := if reset then change else |rows|;
        && boards == AfterRows(old(boards), nodeAddress, rows, n)
        && queue == old(queue) + Pushed(nodeAddress, rows, n) && asked == old(asked) + [nodeAddress]
    {
      hide BitSet;
      hide AfterRows;
      hide Pushed;
      if nodeSeqIncr {
        skipped := skipped + 1;
      }
      asked := asked + [nodeAddress];
      NoRows(boards, nodeAddress, rows);
      var i := 0;
      while i < |rows|
        invariant 0 <= i <= |rows| && (change < 0 || i <= change || |rows| <= change)
        invariant asked == old(asked) + [nodeAddress] && skipped == old(skipped) + if nodeSeqIncr then 1 else 0
        invariant boards == AfterRows(old(boards), nodeAddress, rows, i)
        invariant queue == old(queue) + Pushed(nodeAddress, rows, i)
      {
        if i == change {
          return true;
        }
        NextRow(old(boards), nodeAddress, rows, i);
        var row := rows[i];
        var a := nodeAddress;
        if a.top == 0 {
          a := a.(top := row.local);
        } else if a.sub == 0 {
          a := a.(sub := row.local);
        } else {
          a := a.(subsub := row.local);
        }
        var uid := row.uid;
        var b := Search(boards, (b: Board) => b.uniqueId == uid);
        if b < |boards| {
          boards := boards[b := boards[b].(connected := true, nodeAddr := a)];
        }
        if i > 0 && BitSet(uid.classId, 7) {
          queue := queue + [a];
        }
        i := i + 1;
      }
      return false;
    }

    /** One attempt: the root first, then the interfaces in the order they were found. */
    method Attempt(t: Tree, change: int) returns (reset: bool)
      requires Readable(t) && queue == []
      modifies this
      ensures (change < 0 ==> !reset) && skipped == old(skipped) + 1
      ensures |old(asked)| <= |asked| && OnlyNodesOf(t, old(boards), boards)
      ensures !reset ==> queue == [] && Progress(t, boards, asked[|old(asked)|..], [])
    {
      hide Readable;
      hide Progress;
      hide AfterRows;
      hide Pushed;
      hide Weight;
      hide PathOf;
      hide TableOf;
      hide At;
      hide OnlyNodesOf;
      ghost var start := |asked|;
      var left := change;
      RootTable(t);
      StartsWithRoot(t, boards);
      NothingTouched(t, boards);
      assert [ROOT] + [] == [ROOT];
      Reading(t, boards, boards, [], ROOT, [], left);
      var rows := TableOf(t);
      reset := QueryNodetab(ROOT, true, rows, left);
      left := if left < 0 then left else if reset then 0 else left - |rows|;
      assert asked[start..] == [] + [ROOT];
      while !reset && queue != []
        invariant |asked| >= start && skipped == old(skipped) + 1 && (change < 0 ==> left < 0 && !reset)
          && (change >= 0 ==> left >= 0)
        invariant OnlyNodesOf(t, old(boards), boards)
        invariant !reset ==> Progress(t, boards, asked[start..], queue)
        decreases !reset, Weight(t, queue)
      {
        var a := queue[0];
        ghost var told := asked[start..];
        assert queue == [a] + queue[1..];
        Reading(t, old(boards), boards, told, a, queue[1..], left);
        queue := queue[1..];
        rows := TableOf(At(t, PathOf(a)));
        reset := QueryNodetab(a, false, rows, left);
        left := if left < 0 then left else if reset then 0 else left - |rows|;
        assert asked[start..] == told + [a];
      }
    }

    /**
     Attempts until one is not interrupted, each skipping a number towards the root.
     However often the tree changes, the last attempt asks every hub of the tree it
     found that has an address, and nobody else, and none twice but hubs three levels
     down that are led to. It leaves every configured board of that tree that is not
     deep connected at its node's path. All nodes are settled if and only if no deep
     one is configured.
     */
    method InitAllocationTable(episodes: seq<Episode>, last: Tree) returns (final: Tree, start: nat, attempts: nat)
      requires queue == [] && Readable(last) && forall e :: e in episodes ==> Readable(e.tree)
      modifies this
      ensures 1 <= attempts <= |episodes| + 1 && skipped == old(skipped) + attempts
      ensures final == if attempts <= |episodes| then episodes[attempts - 1].tree else last
      ensures queue == [] && start <= |asked|
      ensures |boards| == |old(boards)|
      ensures forall b :: 0 <= b < |boards| ==> boards[b].uniqueId == old(boards)[b].uniqueId
      ensures forall b :: 0 <= b < |boards| && boards[b] != old(boards)[b] ==>
        Known(last, boards[b].uniqueId) || exists e :: e in episodes && Known(e.tree, boards[b].uniqueId)
      ensures forall p :: Has(final, p) && !Deep(final, p) ==> Settled(boards, final, p)
      ensures AllSettled(boards, final) <==> NothingDeepConfigured(old(boards), final)
      ensures forall p :: Has(final, p) && IsHub(final, p) && |p| <= 3 ==> IsKey(p) && AddressOf(p) in asked[start..]
      ensures forall a :: a in asked[start..] ==> HubAddress(final, a)
      ensures OnceOrDeep(asked[start..]) && (Shallow(final) ==> NoDuplicates(asked[start..]))
    {
      hide Readable;
      hide Progress;
      hide Known;
      hide AllSettled;
      hide NothingDeepConfigured;
      attempts := 0;
      while true
        invariant 0 <= attempts <= |episodes| && queue == [] && skipped == old(skipped) + attempts
        invariant |boards| == |old(boards)|
        invariant forall b :: 0 <= b < |boards| ==> boards[b].uniqueId == old(boards)[b].uniqueId
        invariant forall b :: 0 <= b < |boards| && boards[b] != old(boards)[b] ==>
          exists e :: e in episodes && Known(e.tree, boards[b].uniqueId)
        decreases |episodes| - attempts
      {
        start := |asked|;
        final := if attempts < |episodes| then episodes[attempts].tree else last;
        var reset := Attempt(final, if attempts < |episodes| then episodes[attempts].change else -1);
        attempts := attempts + 1;
        if !reset {
          break;
        }
        ghost var reached, skips := boards, skipped;
        while queue != []
          invariant boards == reached && skipped == skips
          decreases |queue|
        {
          queue := queue[1..];
        }
      }
      ProgressDone(final, boards, asked[start..]);
      SameIdsSameDeep(old(boards), boards, final);
    }
  }

  lemma NoRows(boards: seq<Board>, a: NodeAddress, rows: seq<Row>)
    ensures AfterRows(boards, a, rows, 0) == boards && Pushed(a, rows, 0) == []
  {}

  /** One more row. */
  lemma NextRow(boards: seq<Board>, a: NodeAddress, rows: seq<Row>, i: nat)
    requires i < |rows|
    ensures AfterRows(boards, a, rows, i + 1) ==
      Connected(AfterRows(boards, a, rows, i), rows[i].uid, ChildAddress(a, rows[i].local))
    ensures Pushed(a, rows, i + 1) ==
      if i > 0 && IsInterface(rows[i].uid) then Pushed(a, rows, i) + [ChildAddress(a, rows[i].local)]
      else Pushed(a, rows, i)
  {
    hide Connected;
    hide ChildAddress;
    hide BitSet;
  }

  /** A network as one attempt finds it, and the number of rows until it changes. */
  datatype Episode = Episode(tree: Tree, change: nat)

  lemma RootTable(t: Tree)
    ensures Has(t, PathOf(ROOT)) && At(t, PathOf(ROOT)) == t
  {
    RootPath();
  }

  /** Every configured board of the tree is connected at its node's path. */
  ghost predicate AllSettled(boards: seq<Board>, t: Tree) {
    forall p :: Has(t, p) ==> Settled(boards, t, p)
  }

  /** No interface three levels below the root is configured, and no node below one. */
  ghost predicate NothingDeepConfigured(boards: seq<Board>, t: Tree) {
    forall p :: Has(t, p) && Deep(t, p) ==> BoardWith(boards, At(t, p).uid) == |boards|
  }

  lemma SameIdsSameDeep(a: seq<Board>, b: seq<Board>, t: Tree)
    requires |a| == |b| && forall i :: 0 <= i < |a| ==> a[i].uniqueId == b[i].uniqueId
    ensures NothingDeepConfigured(a, t) <==> NothingDeepConfigured(b, t)
  {
    hide Has;
    hide At;
    forall uid: UniqueId
      ensures BoardWith(a, uid) == BoardWith(b, uid)
    {
      var i, j := BoardWith(a, uid), BoardWith(b, uid);
      assert (i < |a| ==> b[i].uniqueId == uid) && (j < |b| ==> a[j].uniqueId == uid);
    }
  }

  /**
   With an empty queue all is done that can be: what is not deep is settled, and a deep node
   only if it is not configured.
   */
  lemma ProgressDone(t: Tree, boards: seq<Board>, asked: seq<NodeAddress>)
    requires Readable(t) && Progress(t, boards, asked, [])
    ensures forall p :: Has(t, p) && !Deep(t, p) ==> Settled(boards, t, p)
    ensures AllSettled(boards, t) <==> NothingDeepConfigured(boards, t)
    ensures forall p :: Has(t, p) && IsHub(t, p) && |p| <= 3 ==> IsKey(p) && AddressOf(p) in asked
    ensures forall a :: a in asked ==> HubAddress(t, a)
    ensures OnceOrDeep(asked) && (Shallow(t) ==> NoDuplicates(asked))
  {
    hide PathOf;
    hide AddressOf;
    hide HubAddress;
    hide Has;
    hide At;
    hide Readable;
    assert asked + [] == asked;
    assert forall p :: !Ahead([], p);
    hide Shallow;
    assert Wired(t) by { ReadableParts(t); }
    forall p | Has(t, p) && IsHub(t, p) && |p| <= 3
      ensures IsKey(p) && AddressOf(p) in asked
    {
      PathsFit(t, p);
    }
    forall p | Has(t, p) && Deep(t, p)
      ensures Settled(boards, t, p) <==> BoardWith(boards, At(t, p).uid) == |boards|
    {
      if |p| == 3 {
        assert Misplaced(boards, t, p);
      }
    }
  }
}
