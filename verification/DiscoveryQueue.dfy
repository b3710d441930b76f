/**
 The queue of discovery (src/state/bidib_state.c): what reading a table puts into it,
 when it leads back to an interface asked before, and exactly when it runs empty.
 */
module DiscoveryQueue {
  import opened Bytes
  import opened Messages
  import opened NodeStates
  import opened Tracks
  import opened NodeTree
  import opened NodeTables

  ghost predicate NoDuplicates(s: seq<NodeAddress>) {
    forall i, j :: 0 <= i < j < |s| ==> s[i] != s[j]
  }

  /** The i-th child of the node at p is an interface. */
  ghost predicate HubChild(t: Tree, p: Key, i: int) {
    Has(t, p) && 0 <= i < |At(t, p).children| && IsInterface(At(t, p).children[i].uid)
  }

  /** The address put into the queue for an interface among the first m children of the node at p. */
  ghost predicate HubBelow(t: Tree, p: Key, m: int, a: NodeAddress)
    requires Has(t, p) && IsKey(p)
  {
    exists i :: i < m && HubChild(t, p, i) && a == ChildAddress(AddressOf(p), At(t, p).children[i].local)
  }

  /** Reading the first n rows pushes exactly the addresses of the interfaces among the children read, each once. */
  lemma {:induction false} PushedExactly(t: Tree, p: Key, n: nat)
    requires Wired(t) && Has(t, p) && IsKey(p) && n <= |TableOf(At(t, p))|
    ensures var pushed := Pushed(AddressOf(p), TableOf(At(t, p)), n);
      && NoDuplicates(pushed)
      && forall a :: a in pushed <==> HubBelow(t, p, n - 1, a)
  {
    hide At;
    hide Has;
    hide AddressOf;
    hide BitSet;
    hide TableOf;
    var s, rows := At(t, p), TableOf(At(t, p));
    TableLength(s);
    if n > 1 {
      PushedExactly(t, p, n - 1);
      RowMeans(t, p, n - 1);
      var pushed, before := Pushed(AddressOf(p), rows, n), Pushed(AddressOf(p), rows, n - 1);
      var a := ChildAddress(AddressOf(p), s.children[n - 2].local);
      assert pushed == before + if IsInterface(s.children[n - 2].uid) then [a] else [];
      assert a !in before by { OtherNumbers(t, p, n - 2); }
      var m, k := n - 2, n - 1;
      forall x
        ensures HubBelow(t, p, k, x) <==> HubBelow(t, p, m, x) || (x == a && IsInterface(s.children[m].uid))
      {
        OneMoreChild(t, p, m, x);
      }
    }
  }

  lemma OtherNumbers(t: Tree, p: Key, m: nat)
    requires Wired(t) && Has(t, p) && IsKey(p) && m < |At(t, p).children|
    ensures !HubBelow(t, p, m, ChildAddress(AddressOf(p), At(t, p).children[m].local))
  {
    hide At;
    hide Has;
    hide AddressOf;
    hide BitSet;
  }

  lemma OneMoreChild(t: Tree, p: Key, m: nat, x: NodeAddress)
    requires Has(t, p) && IsKey(p) && m < |At(t, p).children|
    ensures HubBelow(t, p, m + 1, x) <==>
      HubBelow(t, p, m, x)
      || (x == ChildAddress(AddressOf(p), At(t, p).children[m].local) && IsInterface(At(t, p).children[m].uid))
  {
    hide At;
    hide Has;
    hide AddressOf;
    hide ChildAddress;
    hide BitSet;
    if x == ChildAddress(AddressOf(p), At(t, p).children[m].local) && IsInterface(At(t, p).children[m].uid) {
      assert HubChild(t, p, m);
    }
  }

  // ------------------------------------------------------- who leads to whom

  /** The address of a hub of the tree. */
  ghost predicate HubAddress(t: Tree, a: NodeAddress) {
    Has(t, PathOf(a)) && IsHub(t, PathOf(a)) && a == AddressOf(PathOf(a))
  }

  /**
   Reading the table of the hub at p, three levels down, puts the address of the hub at q
   into the queue: an interface below p has the number of q.
   */
  ghost predicate LeadsTo(t: Tree, p: Key, q: Key) {
    && |p| == 3 == |q| && Has(t, p) && IsHub(t, p) && Has(t, q) && IsHub(t, q) && q[..2] == p[..2]
    && exists i :: HubChild(t, p, i) && At(t, p).children[i].local == q[2]
  }

  /** Every address a hub three levels down leads to is that of a hub. */
  ghost predicate LeadsToHubs(t: Tree) {
    forall p, i :: Has(t, p) && IsHub(t, p) && |p| == 3 && HubChild(t, p, i) ==>
      var q := p[..2] + [At(t, p).children[i].local];
      Has(t, q) && IsHub(t, q)
  }

  ghost predicate Chain(t: Tree, c: seq<Key>) {
    forall i :: 0 <= i < |c| - 1 ==> LeadsTo(t, c[i], c[i + 1])
  }

  /** No hub leads back to itself. */
  ghost predicate NoLoop(t: Tree) {
    forall c :: Chain(t, c) && |c| >= 2 ==> c[0] != c[|c| - 1]
  }

  /** Interfaces lie at most three levels below the root, so that all of them have an address. */
  ghost predicate Shallow(t: Tree) {
    forall p :: Has(t, p) && IsHub(t, p) ==> |p| <= 3
  }

  lemma ChildIsHub(t: Tree, p: Key, i: int)
    requires Wired(t) && HubChild(t, p, i)
    ensures var q := p + [At(t, p).children[i].local]; Has(t, q) && IsHub(t, q)
  {
    hide At;
    hide Has;
    hide BitSet;
    ChildByLocal(t, p, i);
  }

  /** Then none leads anywhere else. */
  lemma ShallowLeadsNowhere(t: Tree)
    requires Wired(t) && Shallow(t)
    ensures LeadsToHubs(t) && NoLoop(t)
  {
    hide At;
    hide Has;
    hide BitSet;
    forall p, i | Has(t, p) && |p| == 3
      ensures !HubChild(t, p, i)
    {
      if HubChild(t, p, i) {
        ChildIsHub(t, p, i);
      }
    }
    forall c: seq<Key> | |c| >= 2
      ensures !Chain(t, c)
    {
      NobodyLeads(t, c[0], c[0 + 1]);
    }
  }

  lemma NobodyLeads(t: Tree, p: Key, q: Key)
    requires Has(t, p) && |p| == 3 ==> forall i :: !HubChild(t, p, i)
    ensures !LeadsTo(t, p, q)
  {
    hide Has;
    hide At;
  }

  /** What a pushed address is: that of a hub child, or, three levels down, of the hub led to. */
  lemma HubBelowMeans(t: Tree, p: Key, m: int, x: NodeAddress)
    requires Wired(t) && Has(t, p) && IsHub(t, p) && IsKey(p) && HubBelow(t, p, m, x)
    ensures x == AddressOf(PathOf(x)) && PathOf(x) != []
    ensures |p| < 3 ==> HubAddress(t, x) && |PathOf(x)| == |p| + 1 && PathOf(x)[..|p|] == p
    ensures |p| == 3 ==> |PathOf(x)| == 3 && PathOf(x)[..2] == p[..2]
    ensures |p| == 3 && LeadsToHubs(t) ==> HubAddress(t, x) && LeadsTo(t, p, PathOf(x))
  {
    hide At;
    hide Has;
    hide AddressOf;
    hide PathOf;
    hide ChildAddress;
    hide BitSet;
    var i :| i < m && HubChild(t, p, i) && x == ChildAddress(AddressOf(p), At(t, p).children[i].local);
    TableLength(At(t, p));
    RowMeans(t, p, i + 1);
    var q := Sought(p, At(t, p).children[i].local);
    assert PathOf(x) == q;
    if |p| < 3 {
      assert IsHub(t, q);
    }
  }

  // ---------------------------------------------------------------- termination

  const NUMBERS := set b: int | 0 <= b < 256

  /**
   How many tables are read on account of the node at p, if the hubs three levels down
   with the numbers seen so far are not read again.
   */
  ghost function Cost(t: Tree, p: Key, seen: set<int>): nat
    requires Has(t, p) && |p| <= 3
    decreases 3 - |p|, NUMBERS - seen, |At(t, p).children| + 1
  {
    1 + CostBelow(t, p, seen, |At(t, p).children|)
  }

  ghost function CostBelow(t: Tree, p: Key, seen: set<int>, n: nat): nat
    requires Has(t, p) && |p| <= 3 && n <= |At(t, p).children|
    decreases 3 - |p|, NUMBERS - seen, n
  {
    if n == 0 then 0
    else
      var q := Sought(p, At(t, p).children[n - 1].local);
      CostBelow(t, p, seen, n - 1) +
      if !HubChild(t, p, n - 1) || !Has(t, q) then 0
      else if |p| < 3 then Cost(t, q, {})
      else if p[2] in seen then 0
      else
        assert p[2] in NUMBERS - seen && p[2] !in NUMBERS - (seen + {p[2]});
        Cost(t, q, seen + {p[2]})
  }

  /** No chain from p ends at a hub with one of the numbers. */
  ghost predicate Apart(t: Tree, p: Key, seen: set<int>) {
    forall c :: Chain(t, c) && c != [] && c[0] == p && |c[|c| - 1]| == 3 ==> c[|c| - 1][2] !in seen
  }

  lemma ChainLonger(t: Tree, p: Key, c: seq<Key>)
    requires c != [] && Chain(t, c) && LeadsTo(t, p, c[0])
    ensures Chain(t, [p] + c)
  {
    hide LeadsTo;
    var d := [p] + c;
    assert forall i :: 1 <= i < |d| ==> d[i] == c[i - 1];
  }

  lemma {:induction false} ChainStays(t: Tree, c: seq<Key>)
    requires c != [] && Chain(t, c) && |c[0]| == 3
    ensures |c[|c| - 1]| == 3 && c[|c| - 1][..2] == c[0][..2]
    decreases |c|
  {
    hide Has;
    hide At;
    if |c| > 1 {
      ChainStays(t, c[..|c| - 1]);
      assert LeadsTo(t, c[|c| - 2], c[|c| - 2 + 1]);
    }
  }

  /** Without loops, what p leads to stays apart from p as well. */
  lemma ApartNext(t: Tree, p: Key, q: Key, seen: set<int>)
    requires NoLoop(t) && LeadsTo(t, p, q) && Apart(t, p, seen)
    ensures p[2] !in seen && Apart(t, q, seen + {p[2]})
  {
    hide Has;
    hide At;
    assert Chain(t, [p]) && [p][|[p]| - 1] == p;
    forall c | Chain(t, c) && c != [] && c[0] == q && |c[|c| - 1]| == 3
      ensures c[|c| - 1][2] !in seen + {p[2]}
    {
      ChainLonger(t, p, c);
      ChainStays(t, c);
      var last := c[|c| - 1];
      assert ([p] + c)[|[p] + c| - 1] == last;
      assert last == last[..2] + [last[2]] && p == p[..2] + [p[2]];
    }
  }

  lemma HubChildLeads(t: Tree, p: Key, i: int)
    requires LeadsToHubs(t) && Has(t, p) && IsHub(t, p) && |p| == 3 && HubChild(t, p, i)
    ensures LeadsTo(t, p, Sought(p, At(t, p).children[i].local))
  {
    hide Has;
    hide At;
    hide BitSet;
  }

  /** Which numbers were seen makes no difference as long as none of them is led to. */
  lemma {:induction false} CostStable(t: Tree, p: Key, a: set<int>, b: set<int>)
    requires LeadsToHubs(t) && NoLoop(t) && Has(t, p) && IsHub(t, p) && |p| == 3 && Apart(t, p, a) && Apart(t, p, b)
    ensures Cost(t, p, a) == Cost(t, p, b)
    decreases NUMBERS - a * b, |At(t, p).children| + 1
  {
    hide LeadsToHubs;
    hide NoLoop;
    hide Apart;
    hide Has;
    hide At;
    CostBelowStable(t, p, a, b, |At(t, p).children|);
  }

  lemma {:induction false} CostBelowStable(t: Tree, p: Key, a: set<int>, b: set<int>, n: nat)
    requires LeadsToHubs(t) && NoLoop(t) && Has(t, p) && IsHub(t, p) && |p| == 3 && Apart(t, p, a) && Apart(t, p, b)
    requires n <= |At(t, p).children|
    ensures CostBelow(t, p, a, n) == CostBelow(t, p, b, n)
    decreases NUMBERS - a * b, n
  {
    hide LeadsToHubs;
    hide NoLoop;
    hide Apart;
    hide Has;
    hide At;
    if n > 0 {
      CostBelowStable(t, p, a, b, n - 1);
      if HubChild(t, p, n - 1) {
        var q := Sought(p, At(t, p).children[n - 1].local);
        HubChildLeads(t, p, n - 1);
        ApartNext(t, p, q, a);
        ApartNext(t, p, q, b);
        assert p[2] in NUMBERS - a * b && p[2] !in NUMBERS - (a + {p[2]}) * (b + {p[2]});
        CostStable(t, q, a + {p[2]}, b + {p[2]});
      }
    }
  }

  /** How many tables are read on account of the addresses in the queue. */
  ghost function Weight(t: Tree, queue: seq<NodeAddress>): nat {
    if queue == [] then 0
    else
      var last := queue[|queue| - 1];
      Weight(t, queue[..|queue| - 1]) + if Has(t, PathOf(last)) then Cost(t, PathOf(last), {}) else 0
  }

  lemma {:induction false} WeightConcat(t: Tree, q: seq<NodeAddress>, r: seq<NodeAddress>)
    ensures Weight(t, q + r) == Weight(t, q) + Weight(t, r)
  {
    hide PathOf;
    hide Has;
    hide Cost;
    if r == [] {
      assert q + r == q;
    } else {
      assert (q + r)[..|q + r| - 1] == q + r[..|r| - 1];
      WeightConcat(t, q, r[..|r| - 1]);
    }
  }

  lemma WeightOne(t: Tree, a: NodeAddress)
    requires Has(t, PathOf(a))
    ensures Weight(t, [a]) == Cost(t, PathOf(a), {})
  {
    hide PathOf;
    hide Has;
    hide Cost;
    assert [a][..0] == [];
  }

  lemma {:induction false} PushedWeight(t: Tree, p: Key, n: nat)
    requires Wired(t) && LeadsToHubs(t) && NoLoop(t) && Has(t, p) && IsHub(t, p) && IsKey(p)
    requires 1 <= n <= |TableOf(At(t, p))|
    ensures n - 1 <= |At(t, p).children|
    ensures Weight(t, Pushed(AddressOf(p), TableOf(At(t, p)), n)) == CostBelow(t, p, {}, n - 1)
  {
    hide At;
    hide Has;
    hide AddressOf;
    hide ChildAddress;
    hide PathOf;
    hide Wired;
    hide LeadsToHubs;
    hide NoLoop;
    hide Cost;
    hide TableOf;
    hide BitSet;
    TableLength(At(t, p));
    if n > 1 {
      var rows := TableOf(At(t, p));
      PushedWeight(t, p, n - 1);
      RowMeans(t, p, n - 1);
      var before := Pushed(AddressOf(p), rows, n - 1);
      if HubChild(t, p, n - 2) {
        var q := Sought(p, At(t, p).children[n - 2].local);
        CostOfChild(t, p, n - 2);
        assert Pushed(AddressOf(p), rows, n) == before + [AddressOf(q)];
        WeightConcat(t, before, [AddressOf(q)]);
        WeightOne(t, AddressOf(q));
      } else {
        assert before + [] == before;
      }
    }
  }

  /** The i-th child, if it is an interface, adds the cost of the node its address is that of. */
  lemma CostOfChild(t: Tree, p: Key, i: nat)
    requires Wired(t) && LeadsToHubs(t) && NoLoop(t) && Has(t, p) && IsHub(t, p) && IsKey(p) && HubChild(t, p, i)
    ensures var q := Sought(p, At(t, p).children[i].local);
      && Has(t, q) && IsHub(t, q) && |q| <= 3
      && CostBelow(t, p, {}, i + 1) == CostBelow(t, p, {}, i) + Cost(t, q, {})
  {
    hide At;
    hide Has;
    hide LeadsToHubs;
    hide NoLoop;
    hide Cost;
    hide BitSet;
    var q := Sought(p, At(t, p).children[i].local);
    ChildByLocal(t, p, i);
    if |p| == 3 {
      HubChildLeads(t, p, i);
      assert Apart(t, p, {});
      ApartNext(t, p, q, {});
      assert Apart(t, q, {});
      CostStable(t, q, {} + {p[2]}, {});
      assert {} + {p[2]} == {p[2]};
    }
  }

  /** Reading a table takes its own node off the weight of the queue. */
  lemma ReadingEndsSooner(t: Tree, a: NodeAddress, rest: seq<NodeAddress>)
    requires Wired(t) && LeadsToHubs(t) && NoLoop(t) && HubAddress(t, a)
    ensures var rows := TableOf(At(t, PathOf(a)));
      Weight(t, rest + Pushed(a, rows, |rows|)) == Weight(t, [a] + rest) - 1
  {
    hide At;
    hide Has;
    hide AddressOf;
    hide PathOf;
    hide TableOf;
    hide Wired;
    hide LeadsToHubs;
    hide NoLoop;
    hide IsHub;
    hide Weight;
    hide CostBelow;
    var rows := TableOf(At(t, PathOf(a)));
    TableLength(At(t, PathOf(a)));
    PushedWeight(t, PathOf(a), |rows|);
    WeightConcat(t, rest, Pushed(a, rows, |rows|));
    WeightConcat(t, [a], rest);
    WeightOne(t, a);
  }

  // ------------------------------------------------------------- runs of the queue

  /** The queue after the tables read one after the other, from the root's address on. */
  function QueueAfter(tables: seq<seq<Row>>): seq<NodeAddress> {
    if tables == [] then [ROOT] else NextQueue(QueueAfter(tables[..|tables| - 1]), tables[|tables| - 1])
  }

  function NextQueue(queue: seq<NodeAddress>, rows: seq<Row>): seq<NodeAddress> {
    if queue == [] then [] else queue[1..] + Pushed(queue[0], rows, |rows|)
  }

  /** Whenever the address of a hub is asked, the table read is that hub's; what else answers is left open. */
  ghost predicate Honest(t: Tree, tables: seq<seq<Row>>) {
    tables == [] ||
    (&& Honest(t, tables[..|tables| - 1])
     && var queue := QueueAfter(tables[..|tables| - 1]);
     queue != [] && HubAddress(t, queue[0]) ==> tables[|tables| - 1] == TableOf(At(t, PathOf(queue[0]))))
  }

  /** Some address in the queue is on the way to a member of the chain. */
  ghost predicate OnTheWay(queue: seq<NodeAddress>, c: seq<Key>) {
    exists a, i :: a in queue && 0 <= i < |c| && PathOf(a) <= c[i] && a == AddressOf(PathOf(a))
  }

  lemma {:induction false} PushedMember(a: NodeAddress, rows: seq<Row>, n: nat, i: nat)
    requires 1 <= i < n <= |rows| && IsInterface(rows[i].uid)
    ensures ChildAddress(a, rows[i].local) in Pushed(a, rows, n)
  {
    hide ChildAddress;
    hide BitSet;
    if i < n - 1 {
      PushedMember(a, rows, n - 1, i);
    }
  }

  /** Reading the table of a hub pushes the address sought for each of its hub children. */
  lemma HubChildPushed(t: Tree, p: Key, i: int)
    requires Wired(t) && IsKey(p) && HubChild(t, p, i)
    ensures var q, rows := Sought(p, At(t, p).children[i].local), TableOf(At(t, p));
      IsKey(q) && AddressOf(q) in Pushed(AddressOf(p), rows, |rows|)
  {
    hide At;
    hide Has;
    hide AddressOf;
    hide ChildAddress;
    hide BitSet;
    TableLength(At(t, p));
    RowMeans(t, p, i + 1);
    assert TableOf(At(t, p))[i + 1].uid == At(t, p).children[i].uid by { RowUid(At(t, p), i); }
    PushedMember(AddressOf(p), TableOf(At(t, p)), |TableOf(At(t, p))|, i + 1);
  }

  lemma RowUid(t: Tree, i: nat)
    requires i < |t.children|
    ensures |TableOf(t)| == |t.children| + 1 && TableOf(t)[i + 1].uid == t.children[i].uid
  {}

  /** Every node above another is a hub, and the next on the way down is its child. */
  lemma HubAbove(t: Tree, p: Key, q: Key)
    requires Wired(t) && Has(t, q) && p < q
    ensures Has(t, p) && IsHub(t, p) && ChildWith(At(t, p), q[|p|]) < |At(t, p).children|
    ensures Has(t, q[..|p| + 1]) && At(t, q[..|p| + 1]) == At(t, p).children[ChildWith(At(t, p), q[|p|])]
  {
    hide At;
    hide Has;
    hide IsHub;
    hide ChildWith;
    var next := q[..|p| + 1];
    AncestorsExist(t, q, |p| + 1);
    HasParent(t, next);
    assert next[..|next| - 1] == p;
    ParentIsHub(t, p);
  }

  /** A hub on the way to q, above it, pushes the next one on the way. */
  lemma WayDown(t: Tree, p: Key, q: Key)
    requires Wired(t) && Has(t, q) && IsHub(t, q) && p < q && |q| <= 3
    ensures Has(t, p) && IsHub(t, p) && IsKey(p)
    ensures var rows, next := TableOf(At(t, p)), q[..|p| + 1];
      IsKey(next) && next <= q && AddressOf(next) in Pushed(AddressOf(p), rows, |rows|)
  {
    hide At;
    hide Has;
    hide AddressOf;
    hide TableOf;
    hide BitSet;
    hide ChildWith;
    hide Wired;
    var next := q[..|p| + 1];
    NextOnWay(p, q);
    HubAbove(t, p, q);
    if next != q {
      HubAbove(t, next, q);
    }
    PathsFit(t, next);
    PathsFit(t, p);
    var i := ChildWith(At(t, p), q[|p|]);
    FoundNumber(At(t, p), q[|p|]);
    assert IsHub(t, next) && HubChild(t, p, i);
    HubChildPushed(t, p, i);
  }

  lemma NextOnWay(p: Key, q: Key)
    requires p < q
    ensures q[..|p| + 1] == p + [q[|p|]]
  {}

  lemma FoundNumber(t: Tree, local: byte)
    requires ChildWith(t, local) < |t.children|
    ensures t.children[ChildWith(t, local)].local == local
  {}

  /** One table more leaves an address on the way to the loop in the queue. */
  lemma StaysOnTheWay(t: Tree, c: seq<Key>, queue: seq<NodeAddress>, rows: seq<Row>)
    requires Wired(t) && Chain(t, c) && |c| >= 2 && c[0] == c[|c| - 1] && OnTheWay(queue, c)
    requires HubAddress(t, queue[0]) ==> rows == TableOf(At(t, PathOf(queue[0])))
    ensures OnTheWay(NextQueue(queue, rows), c)
  {
    hide At;
    hide Has;
    hide AddressOf;
    hide PathOf;
    hide TableOf;
    hide Wired;
    hide LeadsTo;
    var a, i :| a in queue && 0 <= i < |c| && PathOf(a) <= c[i] && a == AddressOf(PathOf(a));
    var next := NextQueue(queue, rows);
    if a != queue[0] {
      assert a in queue[1..];
      assert a in next && PathOf(a) <= c[i];
    } else {
      var p := PathOf(a);
      var j := if i == |c| - 1 then 0 else i;
      assert p <= c[j] && LeadsTo(t, c[j], c[j + 1]);
      LeadsFromHub(t, c[j], c[j + 1]);
      if p == c[j] {
        var k := LoopChild(t, c[j], c[j + 1]);
        HubChildPushed(t, p, k);
        assert AddressOf(c[j + 1]) in next && PathOf(AddressOf(c[j + 1])) <= c[j + 1];
      } else {
        WayDown(t, p, c[j]);
        var on := c[j][..|p| + 1];
        assert AddressOf(on) in next && PathOf(AddressOf(on)) <= c[j];
      }
    }
  }

  lemma LeadsFromHub(t: Tree, p: Key, q: Key)
    requires Wired(t) && LeadsTo(t, p, q)
    ensures |p| == 3 && Has(t, p) && IsHub(t, p) && IsKey(p) && IsKey(q)
  {
    PathsFit(t, p);
    PathsFit(t, q);
  }

  lemma LoopChild(t: Tree, p: Key, q: Key) returns (i: int)
    requires LeadsTo(t, p, q)
    ensures HubChild(t, p, i) && Sought(p, At(t, p).children[i].local) == q
  {
    i :| HubChild(t, p, i) && At(t, p).children[i].local == q[2];
    assert q == q[..2] + [q[2]];
  }

  /**
   If some hub three levels down leads back to itself, discovery does not end: from the
   root on, however many tables are read and whatever answers elsewhere, the queue is
   never empty.
   */
  lemma {:induction false} DiscoveryGoesOn(t: Tree, c: seq<Key>, tables: seq<seq<Row>>)
    requires Wired(t) && Chain(t, c) && |c| >= 2 && c[0] == c[|c| - 1] && Honest(t, tables)
    ensures OnTheWay(QueueAfter(tables), c) && QueueAfter(tables) != []
  {
    hide Wired;
    hide Chain;
    hide HubAddress;
    hide NextQueue;
    hide OnTheWay;
    if tables == [] {
      assert OnTheWay([ROOT], c) by { RootOnTheWay(c); }
    } else {
      var front := tables[..|tables| - 1];
      DiscoveryGoesOn(t, c, front);
      StaysOnTheWay(t, c, QueueAfter(front), tables[|tables| - 1]);
    }
    NotEmptyOnTheWay(QueueAfter(tables), c);
  }

  lemma NotEmptyOnTheWay(queue: seq<NodeAddress>, c: seq<Key>)
    requires OnTheWay(queue, c)
    ensures queue != []
  {}

  lemma RootOnTheWay(c: seq<Key>)
    requires c != []
    ensures OnTheWay([ROOT], c)
  {
    RootPath();
    AddressOfPath(ROOT);
    assert ROOT in [ROOT] && PathOf(ROOT) <= c[0];
  }

  /** All addresses in the queue are those of hubs. */
  ghost predicate HubsOnly(t: Tree, queue: seq<NodeAddress>) {
    forall a :: a in queue ==> HubAddress(t, a)
  }

  lemma ReadingKeepsHubs(t: Tree, a: NodeAddress, rest: seq<NodeAddress>)
    requires Wired(t) && LeadsToHubs(t) && HubsOnly(t, [a] + rest)
    ensures HubAddress(t, a)
    ensures var rows := TableOf(At(t, PathOf(a))); HubsOnly(t, rest + Pushed(a, rows, |rows|))
  {
    hide At;
    hide Has;
    hide AddressOf;
    hide PathOf;
    hide TableOf;
    hide IsHub;
    hide Wired;
    hide LeadsToHubs;
    hide HubBelow;
    assert a in [a] + rest;
    var rows := TableOf(At(t, PathOf(a)));
    PushedExactly(t, PathOf(a), |rows|);
    forall x | x in Pushed(a, rows, |rows|)
      ensures HubAddress(t, x)
    {
      HubBelowMeans(t, PathOf(a), |rows| - 1, x);
    }
  }

  /** Without loops the queue runs empty after as many tables as it weighs. */
  lemma {:induction false} QueueDrains(t: Tree, tables: seq<seq<Row>>) returns (more: seq<seq<Row>>)
    requires Wired(t) && LeadsToHubs(t) && NoLoop(t) && Honest(t, tables) && HubsOnly(t, QueueAfter(tables))
    ensures Honest(t, tables + more) && QueueAfter(tables + more) == [] && |more| == Weight(t, QueueAfter(tables))
    decreases Weight(t, QueueAfter(tables))
  {
    hide Wired;
    hide LeadsToHubs;
    hide NoLoop;
    hide HubAddress;
    hide Has;
    hide At;
    hide PathOf;
    hide TableOf;
    hide Pushed;
    hide HubsOnly;
    var queue := QueueAfter(tables);
    if queue == [] {
      more := [];
      assert tables + [] == tables;
    } else {
      var a, rest := queue[0], queue[1..];
      assert queue == [a] + rest;
      ReadingKeepsHubs(t, a, rest);
      assert Has(t, PathOf(a)) by { HubExists(t, a); }
      ReadingEndsSooner(t, a, rest);
      var rows := TableOf(At(t, PathOf(a)));
      assert (tables + [rows])[..|tables|] == tables;
      more := QueueDrains(t, tables + [rows]);
      assert tables + ([rows] + more) == (tables + [rows]) + more;
      more := [rows] + more;
    }
  }

  lemma HubExists(t: Tree, a: NodeAddress)
    requires HubAddress(t, a)
    ensures Has(t, PathOf(a))
  {}

  /**
   Exactly when an uninterrupted attempt ends, in a tree in which it asks hubs only: no hub
   three levels down leads back to itself through the numbers of the interfaces below it.
   */
  lemma EndsExactly(t: Tree)
    requires Wired(t) && LeadsToHubs(t)
    ensures (exists tables :: Honest(t, tables) && QueueAfter(tables) == []) <==> NoLoop(t)
  {
    hide Wired;
    hide LeadsToHubs;
    hide Honest;
    hide QueueAfter;
    if NoLoop(t) {
      RootHubsOnly(t);
      var more := QueueDrains(t, []);
      assert [] + more == more;
    } else {
      var c :| Chain(t, c) && |c| >= 2 && c[0] == c[|c| - 1];
      forall tables | Honest(t, tables)
        ensures QueueAfter(tables) != []
      {
        DiscoveryGoesOn(t, c, tables);
      }
    }
  }

  lemma RootHubsOnly(t: Tree)
    ensures Honest(t, []) && HubsOnly(t, QueueAfter([]))
  {
    RootPath();
    AddressOfPath(ROOT);
  }

  /**
   The smallest loop: an interface three levels down has an interface below it that it
   knows by the same number as its parent knows the upper one.
   */
  lemma DeepInterfaceAskedAgain(t: Tree, p: Key, i: nat)
    requires Wired(t) && IsKey(p) && |p| == 3 && HubChild(t, p, i) && At(t, p).children[i].local == p[2]
    ensures LeadsTo(t, p, p) && !NoLoop(t)
    ensures AddressOf(p) in Pushed(AddressOf(p), TableOf(At(t, p)), |TableOf(At(t, p))|)
  {
    hide At;
    hide Has;
    hide AddressOf;
    hide BitSet;
    HubChildPushed(t, p, i);
    assert p[..2] + [p[2]] == p;
    ParentIsHub(t, p);
    assert LeadsTo(t, p, p);
    assert Chain(t, [p, p]) && [p, p][0] == [p, p][|[p, p]| - 1];
  }

  // ------------------------------------------------------------- concrete trees

  /** n interfaces in a chain below an interface, each known by number 1. */
  function Line(n: byte): Tree {
    Tree(UniqueId(128, 0, 13, [n]), 1, if n == 0 then [] else [Line(n - 1)])
  }

  /** The nodes of a line are those on the paths of at most n ones. */
  lemma {:induction false} LinePaths(n: byte, p: Key)
    ensures Has(Line(n), p) <==> |p| <= n && forall i :: 0 <= i < |p| ==> p[i] == 1
    ensures Has(Line(n), p) ==> At(Line(n), p) == Line(n - |p|)
    decreases |p|
  {
    if p != [] {
      assert forall i :: 1 <= i < |p| ==> p[i] == p[1..][i - 1];
      if n > 0 {
        LinePaths(n - 1, p[1..]);
        assert Line(n).children[0].local == 1;
      }
    }
  }

  lemma LineIsInterfaces(n: byte)
    ensures IsInterface(Line(n).uid)
  {
    assert PowerOfTwo(7) == 128 by {
      assert PowerOfTwo(3) == 8;
      assert PowerOfTwo(5) == 32;
    }
  }

  lemma LineNode(n: byte, p: Key)
    requires Has(Line(n), p)
    ensures |p| <= n && At(Line(n), p) == Line(n - |p|) && IsHub(Line(n), p)
    ensures forall i :: 0 <= i < |p| ==> p[i] == 1
  {
    hide BitSet;
    LinePaths(n, p);
    LineIsInterfaces(n - |p|);
  }

  lemma LineIsWired(n: byte)
    ensures Wired(Line(n)) && UniqueIds(Line(n))
  {
    hide Has;
    hide At;
    hide IsHub;
    hide Line;
    var t := Line(n);
    forall p | Has(t, p)
      ensures |p| <= n && At(t, p) == Line(n - |p|) && IsHub(t, p)
      ensures forall i :: 0 <= i < |p| ==> p[i] == 1
    {
      LineNode(n, p);
    }
    forall p, q | Has(t, p) && Has(t, q) && At(t, p).uid == At(t, q).uid
      ensures p == q
    {
      LineIds(n - |p|, n - |q|);
    }
    forall p, i | Has(t, p) && 0 <= i < |At(t, p).children|
      ensures i == 0 && At(t, p).children[i].local == 1
    {
      OneChild(n - |p|);
    }
  }

  lemma LineIds(i: byte, j: byte)
    requires Line(i).uid == Line(j).uid
    ensures i == j
  {
    assert Line(i).uid.productId[0] == Line(j).uid.productId[0];
  }

  lemma OneChild(n: byte)
    ensures |Line(n).children| <= 1 && forall c :: c in Line(n).children ==> c.local == 1
  {}

  const DEEPEST: Key := [1, 1, 1]

  /** Four interfaces in a chain: discovery ends, though the last of them lies deep. */
  lemma DeepTreeExists()
    ensures var t := Line(3);
      && Wired(t) && UniqueIds(t) && Shallow(t) && LeadsToHubs(t) && NoLoop(t)
      && Has(t, DEEPEST) && Deep(t, DEEPEST) && exists tables :: Honest(t, tables) && QueueAfter(tables) == []
  {
    hide Has;
    hide At;
    hide BitSet;
    hide NoLoop;
    LineIsWired(3);
    forall p | Has(Line(3), p)
      ensures |p| <= 3
    {
      LinePaths(3, p);
    }
    ShallowLeadsNowhere(Line(3));
    LinePaths(3, DEEPEST);
    LineIsInterfaces(0);
    EndsExactly(Line(3));
  }

  /** Five interfaces in a chain: the fourth leads back to itself, and discovery does not end. */
  lemma LoopingTreeExists()
    ensures var t := Line(4);
      && Wired(t) && UniqueIds(t) && LeadsToHubs(t) && LeadsTo(t, DEEPEST, DEEPEST)
      && forall tables :: Honest(t, tables) ==> QueueAfter(tables) != []
  {
    hide Has;
    hide At;
    hide BitSet;
    hide NoLoop;
    hide Honest;
    hide QueueAfter;
    var t := Line(4);
    LineIsWired(4);
    LinePaths(4, DEEPEST);
    LineIsInterfaces(1);
    LineIsInterfaces(0);
    assert At(t, DEEPEST) == Line(1) && Line(1).children == [Line(0)];
    forall p, i | Has(t, p) && IsHub(t, p) && |p| == 3 && HubChild(t, p, i)
      ensures Has(t, p[..2] + [At(t, p).children[i].local]) && IsHub(t, p[..2] + [At(t, p).children[i].local])
    {
      LinePaths(4, p);
      assert p == DEEPEST && p[..2] + [1] == DEEPEST;
    }
    assert HubChild(t, DEEPEST, 0);
    DeepInterfaceAskedAgain(t, DEEPEST, 0);
    EndsExactly(t);
  }
}
