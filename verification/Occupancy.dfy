/**
 Occupancy (src/state/bidib_state_setter.c, src/state/bidib_state.c): reports
 change the segments, and each train's on-track flag and orientation are
 recomputed from the segments by the two-pass position query
 (src/highlevel/bidib_highlevel_getter.c).
 */
module Occupancy {
  import opened Bytes
  import opened Tracks

  datatype Layout = Layout(boards: seq<Board>, segments: seq<Segment>, trains: seq<Train>, states: seq<TrainState>)

  // ------------------------------------------------------ the position query

  /** One address entry that belongs to the train: the segment it is on, and whether it heads left. */
  datatype Hit = Hit(segment: string, left: bool)

  predicate Matches(t: Train, a: DccAddress) {
    t.addrh == a.addrh && t.addrl == a.addrl
  }

  function HitsIn(id: string, addrs: seq<DccAddress>, t: Train): seq<Hit> {
    if addrs == [] then []
    else
      var last := addrs[|addrs| - 1];
      HitsIn(id, addrs[..|addrs| - 1], t) + if Matches(t, last) then [Hit(id, last.kind == 0)] else []
  }

  /** All entries of a train, in segment order. */
  function Hits(segments: seq<Segment>, t: Train): seq<Hit> {
    if segments == [] then []
    else
      var last := segments[|segments| - 1];
      Hits(segments[..|segments| - 1], t) + HitsIn(last.id, last.dccAddresses, t)
  }

  function HitsOf(l: Layout, train: string): seq<Hit> {
    var i := TrainNamed(l.trains, train);
    if i == |l.trains| || StateNamed(l.states, train) == |l.states| then [] else Hits(l.segments, l.trains[i])
  }

  function Names(hits: seq<Hit>): (names: seq<string>)
    ensures |names| == |hits| && forall i :: 0 <= i < |hits| ==> names[i] == hits[i].segment
  {
    seq(|hits|, i requires 0 <= i < |hits| => hits[i].segment)
  }

  function HeadsLeft(hits: seq<Hit>): bool {
    hits == [] || hits[|hits| - 1].left
  }

  // --------------------------------------------------------- steps on values

  /** A train state with its cached facts taken from the entries of the train. */
  function Refreshed(st: TrainState, hits: seq<Hit>): TrainState {
    if hits == [] then st.(onTrack := false)
    else st.(onTrack := true, orientation := if HeadsLeft(hits) then Left else Right)
  }

  function Updated(l: Layout): Layout {
    l.(states := seq(|l.states|, i requires 0 <= i < |l.states| => Refreshed(l.states[i], HitsOf(l, l.states[i].id))))
  }

  function Marked(s: Segment, occ: bool): Segment {
    s.(occupied := occ, dccAddresses := if occ then s.dccAddresses else [])
  }

  function AfterOcc(l: Layout, addr: NodeAddress, number: byte, occ: bool): Layout {
    var i := SegmentAt(l.boards, l.segments, addr, number);
    if i == |l.segments| then l else Updated(l.(segments := l.segments[i := Marked(l.segments[i], occ)]))
  }

  /** The segments after the first n bits of a multiple report. */
  function MarkedUpTo(l: Layout, addr: NodeAddress, number: byte, n: nat, data: seq<byte>): (r: seq<Segment>)
    requires n <= 8 * |data|
    ensures |r| == |l.segments|
    ensures forall i :: 0 <= i < |r| ==> r[i].id == l.segments[i].id
  {
    if n == 0 then l.segments
    else
      var r := MarkedUpTo(l, addr, number, n - 1, data);
      if number + n - 1 >= 255 then r
      else
        var i := SegmentAt(l.boards, r, addr, number + n - 1);
        if i == |r| then r else r[i := Marked(r[i], BitSet(data[(n - 1) / 8], (n - 1) % 8))]
  }

  function AfterMultiple(l: Layout, addr: NodeAddress, number: byte, size: byte, data: seq<byte>): Layout
    requires size <= 8 * |data|
  {
    Updated(l.(segments := MarkedUpTo(l, addr, number, size, data)))
  }

  /** The train addresses among the first n reported; bit 6 of the high byte marks an accessory. */
  function Decoded(addresses: seq<byte>, n: nat): seq<DccAddress>
    requires 2 * n <= |addresses|
  {
    if n == 0 then []
    else
      var l, h := addresses[2 * n - 2], addresses[2 * n - 1];
      Decoded(addresses, n - 1) + if BitSet(h, 6) then [] else [DccAddress(l, h % 64, h / 64)]
  }

  predicate NoAddress(count: byte, addresses: seq<byte>)
    requires 2 * count <= |addresses|
  {
    count == 1 && addresses[0] == 0 && addresses[1] == 0
  }

  function AfterAddress(l: Layout, addr: NodeAddress, number: byte, count: byte, addresses: seq<byte>): Layout
    requires 2 * count <= |addresses|
  {
    var i := SegmentAt(l.boards, l.segments, addr, number);
    if i == |l.segments| then l
    else
      var seen := if NoAddress(count, addresses) then [] else Decoded(addresses, count);
      Updated(l.(segments := l.segments[i := l.segments[i].(dccAddresses := seen)]))
  }

  function Cleared(l: Layout): Layout {
    l.(segments := seq(|l.segments|, i requires 0 <= i < |l.segments| =>
                       l.segments[i].(occupied := false, readings := 0, dccAddresses := [])),
       states := seq(|l.states|, i requires 0 <= i < |l.states| => AtRest(l.states[i])))
  }

  function AtRest(st: TrainState): TrainState {
    TrainState(st.id, false, Left, 0, true, true,
               seq(|st.peripherals|, i requires 0 <= i < |st.peripherals| => st.peripherals[i].(state := 0)))
  }

  // ------------------------------------------------------- the track in place

  class Track {
    var boards: seq<Board>
    var segments: seq<Segment>
    var trains: seq<Train>
    var states: seq<TrainState>

    ghost function Value(): Layout
      reads this
    {
      Layout(boards, segments, trains, states)
    }

    constructor (l: Layout)
      ensures Value() == l
    {
      boards, segments, trains, states := l.boards, l.segments, l.trains, l.states;
    }

    /** A first pass counts the entries, a second fills an array of that size and stops when it is full. */
    method GetTrainPosition(train: string) returns (position: array<string>, left: bool)
      ensures fresh(position) && position[..] == Names(HitsOf(Value(), train))
      ensures left == HeadsLeft(HitsOf(Value(), train))
    {
      left := true;
      position := new string[0];
      var s := Search(states, (st: TrainState) => st.id == train);
      var c := Search(trains, (t: Train) => t.id == train);
      if s < |states| && c < |trains| {
        var t := trains[c];
        var count := CountHits(t);
        if count > 0 {
          position, left := FillHits(t, count);
        }
      }
    }

    method CountHits(t: Train) returns (count: nat)
      ensures count == |Hits(segments, t)|
    {
      count := 0;
      for i := 0 to |segments|
        invariant count == |Hits(segments[..i], t)|
      {
        var addrs := segments[i].dccAddresses;
        assert segments[..i + 1][..i] == segments[..i];
        for j := 0 to |addrs|
          invariant count == |Hits(segments[..i], t)| + |HitsIn(segments[i].id, addrs[..j], t)|
        {
          assert addrs[..j + 1][..j] == addrs[..j];
          if t.addrh == addrs[j].addrh && t.addrl == addrs[j].addrl {
            count := count + 1;
          }
        }
        assert addrs[..|addrs|] == addrs;
      }
      assert segments[..|segments|] == segments;
    }

    method FillHits(t: Train, count: nat) returns (position: array<string>, left: bool)
      requires count == |Hits(segments, t)| > 0
      ensures fresh(position) && position[..] == Names(Hits(segments, t)) && left == HeadsLeft(Hits(segments, t))
    {
      hide Hits;
      hide HitsIn;
      hide Names;
      ghost var all := Hits(segments, t);
      position := new string[count];
      left := true;
      NoHits(t);
      var currentIndex, i := 0, 0;
      ghost var found: seq<Hit> := [];
      while i < |segments| && currentIndex < count
        invariant i <= |segments| && currentIndex == |found| <= count
        invariant found <= all && position[..currentIndex] == Names(found) && left == HeadsLeft(found)
        invariant currentIndex < count ==> found == Hits(segments[..i], t)
      {
        var addrs, j := segments[i].dccAddresses, 0;
        NoHitsIn(segments[i].id, t);
        while j < |addrs| && currentIndex < count
          invariant j <= |addrs| && currentIndex == |found| <= count
          invariant found <= all && position[..currentIndex] == Names(found) && left == HeadsLeft(found)
          invariant currentIndex < count ==> found == Hits(segments[..i], t) + HitsIn(segments[i].id, addrs[..j], t)
        {
          NextEntry(segments, i, j, t);
          if t.addrh == addrs[j].addrh && t.addrl == addrs[j].addrl {
            position[currentIndex] := segments[i].id;
            left := addrs[j].kind == 0;
            NamesAppend(found, Hit(segments[i].id, left));
            found := found + [Hit(segments[i].id, left)];
            currentIndex := currentIndex + 1;
          }
          j := j + 1;
        }
        assert addrs[..|addrs|] == addrs;
        HitsPrefix(segments, i, t);
        i := i + 1;
      }
      assert segments[..|segments|] == segments;
      assert found == all;
    }

    method GetSegmentStateRefByNodeAddr(addr: NodeAddress, number: byte) returns (i: nat)
      ensures i == SegmentAt(boards, segments, addr, number)
    {
      var b := Search(boards, (b: Board) => b.connected && b.nodeAddr == addr);
      if b < |boards| {
        var mappings := boards[b].segments;
        var m := Search(mappings, (m: SegmentMapping) => m.number == number);
        if m < |mappings| {
          var id := mappings[m].id;
          i := Search(segments, (s: Segment) => s.id == id);
          return;
        }
      }
      i := |segments|;
    }

    method UpdateTrainAvailable()
      modifies this`states
      ensures Value() == Updated(old(Value()))
    {
      hide HitsOf;
      hide Names;
      hide HeadsLeft;
      ghost var before := Value();
      for i := 0 to |states|
        invariant |states| == |before.states| && Value() == before.(states := states)
        invariant forall j :: 0 <= j < i ==> states[j] == Updated(before).states[j]
        invariant forall j :: i <= j < |states| ==> states[j] == before.states[j]
        invariant forall j :: 0 <= j < |states| ==> states[j].id == before.states[j].id
      {
        var trainState := states[i];
        var position, left := GetTrainPosition(trainState.id);
        SameIdsSameHits(before, Value(), trainState.id);
        if position.Length > 0 {
          trainState := trainState.(orientation := if left then Left else Right).(onTrack := true);
        } else {
          trainState := trainState.(onTrack := false);
        }
        assert position.Length == |position[..]|;
        states := states[i := trainState];
      }
      assert states == Updated(before).states;
    }

    method BmOcc(addr: NodeAddress, number: byte, occ: bool)
      modifies this`segments, this`states
      ensures Value() == AfterOcc(old(Value()), addr, number, occ)
    {
      var i := GetSegmentStateRefByNodeAddr(addr, number);
      if i < |segments| {
        segments := segments[i := segments[i].(occupied := occ)];
        if !occ && |segments[i].dccAddresses| > 0 {
          segments := segments[i := segments[i].(dccAddresses := [])];
        }
        assert Value().segments == old(segments)[i := Marked(old(segments)[i], occ)];
        UpdateTrainAvailable();
      }
    }

    method BmMultiple(addr: NodeAddress, number: byte, size: byte, data: seq<byte>)
      requires size <= 8 * |data|
      modifies this`segments, this`states
      ensures Value() == AfterMultiple(old(Value()), addr, number, size, data)
    {
      hide SegmentAt;
      hide BitSet;
      hide MarkedUpTo;
      ghost var before := Value();
      NothingMarked(before, addr, number, data);
      for i := 0 to size
        invariant segments == MarkedUpTo(before, addr, number, i, data) && Value() == before.(segments := segments)
      {
        MarkedNext(before, addr, number, i, data);
        if number + i < 255 {
          var k := GetSegmentStateRefByNodeAddr(addr, number + i);
          if k < |segments| {
            if BitSet(data[i / 8], i % 8) {
              segments := segments[k := segments[k].(occupied := true)];
            } else {
              ghost var freed := segments[k := Marked(segments[k], false)];
              segments := segments[k := segments[k].(occupied := false)];
              if |segments[k].dccAddresses| > 0 {
                segments := segments[k := segments[k].(dccAddresses := [])];
              }
              assert segments[k] == freed[k] && segments == freed;
            }
          }
        }
      }
      UpdateTrainAvailable();
    }

    method BmAddress(addr: NodeAddress, number: byte, addressCount: byte, addresses: seq<byte>)
      requires 2 * addressCount <= |addresses|
      modifies this`segments, this`states
      ensures Value() == AfterAddress(old(Value()), addr, number, addressCount, addresses)
    {
      hide BitSet;
      hide Decoded;
      hide SegmentAt;
      NothingDecoded(addresses);
      var k := GetSegmentStateRefByNodeAddr(addr, number);
      if k < |segments| {
        ghost var before := segments;
        segments := segments[k := segments[k].(dccAddresses := [])];
        if !(addressCount == 1 && addresses[0] == 0 && addresses[1] == 0) {
          for i := 0 to addressCount
            invariant Value() == old(Value()).(segments := segments) && k < |segments|
            invariant segments == before[k := before[k].(dccAddresses := Decoded(addresses, i))]
          {
            DecodedNext(addresses, i);
            if !BitSet(addresses[2 * i + 1], 6) {
              var dccAddress := DccAddress(addresses[2 * i], addresses[2 * i + 1] % 64, addresses[2 * i + 1] / 64 % 4);
              segments := segments[k := segments[k].(dccAddresses := segments[k].dccAddresses + [dccAddress])];
            }
            assert segments[k] == before[k].(dccAddresses := Decoded(addresses, i + 1));
          }
        }
        UpdateTrainAvailable();
      }
    }

    method Reset()
      modifies this`segments, this`states
      ensures Value() == Cleared(old(Value()))
    {
      ghost var before := Value();
      for i := 0 to |segments|
        invariant |segments| == |before.segments| && Value() == before.(segments := segments)
        invariant forall j :: 0 <= j < i ==> segments[j] == Cleared(before).segments[j]
        invariant forall j :: i <= j < |segments| ==> segments[j] == before.segments[j]
      {
        segments := segments[i := segments[i].(occupied := false, readings := 0, dccAddresses := [])];
      }
      assert segments == Cleared(before).segments;
      for i := 0 to |states|
        invariant |states| == |before.states| && Value() == before.(segments := segments, states := states)
        invariant segments == Cleared(before).segments
        invariant forall j :: 0 <= j < i ==> states[j] == AtRest(before.states[j])
        invariant forall j :: i <= j < |states| ==> states[j] == before.states[j]
      {
        var peripherals := states[i].peripherals;
        for j := 0 to |peripherals|
          invariant |peripherals| == |before.states[i].peripherals|
          invariant forall k :: 0 <= k < j ==> peripherals[k] == before.states[i].peripherals[k].(state := 0)
          invariant forall k :: j <= k < |peripherals| ==> peripherals[k] == before.states[i].peripherals[k]
        {
          peripherals := peripherals[j := peripherals[j].(state := 0)];
        }
        assert peripherals == AtRest(before.states[i]).peripherals;
        states := states[i := TrainState(states[i].id, false, Left, 0, true, true, peripherals)];
      }
      assert states == Cleared(before).states;
    }
  }

  /** The entries up to a segment and inside it come first among all entries. */
  lemma {:induction false} HitsPrefix(segments: seq<Segment>, i: nat, t: Train)
    requires i < |segments|
    ensures Hits(segments[..i + 1], t) == Hits(segments[..i], t) + HitsIn(segments[i].id, segments[i].dccAddresses, t)
    ensures Hits(segments[..i + 1], t) <= Hits(segments, t)
    decreases |segments|
  {
    assert segments[..i + 1][..i] == segments[..i];
    var front := segments[..|segments| - 1];
    if i + 1 < |segments| {
      HitsPrefix(front, i, t);
      assert front[..i + 1] == segments[..i + 1];
    } else {
      assert segments[..i + 1] == segments;
    }
  }

  lemma {:induction false} HitsInPrefix(id: string, addrs: seq<DccAddress>, j: nat, t: Train)
    requires j < |addrs|
    ensures HitsIn(id, addrs[..j + 1], t) ==
      HitsIn(id, addrs[..j], t) + if Matches(t, addrs[j]) then [Hit(id, addrs[j].kind == 0)] else []
    ensures HitsIn(id, addrs[..j + 1], t) <= HitsIn(id, addrs, t)
    decreases |addrs|
  {
    assert addrs[..j + 1][..j] == addrs[..j];
    var front := addrs[..|addrs| - 1];
    if j + 1 < |addrs| {
      HitsInPrefix(id, front, j, t);
      assert front[..j + 1] == addrs[..j + 1];
    } else {
      assert addrs[..j + 1] == addrs;
    }
  }

  /** The entries before the j-th of segment i, and that one if it matches, come first among all entries. */
  lemma NextEntry(segments: seq<Segment>, i: nat, j: nat, t: Train)
    requires i < |segments| && j < |segments[i].dccAddresses|
    ensures var id, addrs := segments[i].id, segments[i].dccAddresses;
      var before := Hits(segments[..i], t) + HitsIn(id, addrs[..j], t);
      var next := Hits(segments[..i], t) + HitsIn(id, addrs[..j + 1], t);
      && next == (if Matches(t, addrs[j]) then before + [Hit(id, addrs[j].kind == 0)] else before)
      && next <= Hits(segments, t)
  {
    hide Hits;
    hide HitsIn;
    HitsPrefix(segments, i, t);
    HitsInPrefix(segments[i].id, segments[i].dccAddresses, j, t);
  }

  lemma NoHits(t: Train)
    ensures Hits([], t) == [] && Names([]) == []
  {}

  lemma NoHitsIn(id: string, t: Train)
    ensures HitsIn(id, [], t) == []
  {}

  lemma NamesAppend(hits: seq<Hit>, h: Hit)
    ensures Names(hits + [h]) == Names(hits) + [h.segment]
  {}

  /** The entries of a train depend only on the segments, the trains and the ids of the states. */
  lemma SameIdsSameHits(a: Layout, b: Layout, train: string)
    requires a.segments == b.segments && a.trains == b.trains && |a.states| == |b.states|
    requires forall j :: 0 <= j < |a.states| ==> a.states[j].id == b.states[j].id
    ensures HitsOf(a, train) == HitsOf(b, train)
  {
    hide Hits;
    var i, j := StateNamed(a.states, train), StateNamed(b.states, train);
    assert i < |a.states| ==> b.states[i].id == train;
    assert j < |b.states| ==> a.states[j].id == train;
  }

  lemma NothingMarked(l: Layout, addr: NodeAddress, number: byte, data: seq<byte>)
    ensures MarkedUpTo(l, addr, number, 0, data) == l.segments
  {}

  /** One more bit of a multiple report. */
  lemma MarkedNext(l: Layout, addr: NodeAddress, number: byte, i: nat, data: seq<byte>)
    requires i < 8 * |data|
    ensures var r := MarkedUpTo(l, addr, number, i, data);
      MarkedUpTo(l, addr, number, i + 1, data) ==
      if number + i >= 255 || SegmentAt(l.boards, r, addr, number + i) == |r| then r
      else
        var k := SegmentAt(l.boards, r, addr, number + i);
        r[k := Marked(r[k], BitSet(data[i / 8], i % 8))]
  {
    hide SegmentAt;
    hide BitSet;
  }

  lemma NothingDecoded(addresses: seq<byte>)
    ensures Decoded(addresses, 0) == []
  {}

  lemma DecodedNext(addresses: seq<byte>, i: nat)
    requires 2 * i + 1 < |addresses|
    ensures var l, h := addresses[2 * i], addresses[2 * i + 1];
      Decoded(addresses, i + 1) ==
      if BitSet(h, 6) then Decoded(addresses, i)
      else Decoded(addresses, i) + [DccAddress(l, h % 64, h / 64 % 4)]
  {
    hide BitSet;
  }

  // ------------------------------------------------------ what the cache means

  /** The j-th address on segment i is the train's. */
  ghost predicate Listed(segments: seq<Segment>, t: Train, i: int, j: int) {
    0 <= i < |segments| && 0 <= j < |segments[i].dccAddresses| && Matches(t, segments[i].dccAddresses[j])
  }

  /** No address of the train comes behind the j-th on segment i. */
  ghost predicate LastListed(segments: seq<Segment>, t: Train, i: int, j: int) {
    Listed(segments, t, i, j) && forall i', j' :: Listed(segments, t, i', j') ==> i' < i || (i' == i && j' <= j)
  }

  /**
   The cached facts of a train: it is on the track exactly when some segment lists
   its address, and then the last entry in segment order gives its orientation.
   */
  ghost predicate Agrees(l: Layout, st: TrainState) {
    var c := TrainNamed(l.trains, st.id);
    && (st.onTrack <==> c < |l.trains| && exists i, j :: Listed(l.segments, l.trains[c], i, j))
    && (c < |l.trains| ==> forall i, j :: LastListed(l.segments, l.trains[c], i, j) ==>
          st.orientation == if l.segments[i].dccAddresses[j].kind == 0 then Left else Right)
  }

  ghost predicate CacheAgrees(l: Layout) {
    forall st :: st in l.states ==> Agrees(l, st)
  }

  lemma {:induction false} LastHitIn(id: string, addrs: seq<DccAddress>, t: Train) returns (j: nat)
    ensures HitsIn(id, addrs, t) == [] ==> forall k :: 0 <= k < |addrs| ==> !Matches(t, addrs[k])
    ensures HitsIn(id, addrs, t) != [] ==>
      && j < |addrs| && Matches(t, addrs[j]) && HeadsLeft(HitsIn(id, addrs, t)) == (addrs[j].kind == 0)
      && forall k :: j < k < |addrs| ==> !Matches(t, addrs[k])
  {
    j := 0;
    if addrs != [] {
      var n := |addrs| - 1;
      if Matches(t, addrs[n]) {
        j := n;
      } else {
        j := LastHitIn(id, addrs[..n], t);
        assert forall k :: 0 <= k < n ==> addrs[..n][k] == addrs[k];
      }
    }
  }

  lemma {:induction false} LastHit(segments: seq<Segment>, t: Train) returns (i: nat, j: nat)
    ensures Hits(segments, t) == [] ==> forall i', j' :: !Listed(segments, t, i', j')
    ensures Hits(segments, t) != [] ==>
      LastListed(segments, t, i, j) && HeadsLeft(Hits(segments, t)) == (segments[i].dccAddresses[j].kind == 0)
  {
    hide HitsIn;
    i, j := 0, 0;
    if segments != [] {
      var n := |segments| - 1;
      var last, front := segments[n], segments[..n];
      j := LastHitIn(last.id, last.dccAddresses, t);
      if HitsIn(last.id, last.dccAddresses, t) != [] {
        i := n;
      } else {
        i, j := LastHit(front, t);
        assert forall i', j' :: Listed(segments, t, i', j') ==> Listed(front, t, i', j');
        assert forall i', j' :: Listed(front, t, i', j') ==> Listed(segments, t, i', j');
      }
    }
  }

  /** Recomputing makes the cache agree, whatever it held before. */
  lemma UpdateAgrees(l: Layout)
    ensures CacheAgrees(Updated(l))
  {
    hide Hits;
    hide Listed;
    hide LastListed;
    var r := Updated(l);
    forall n | 0 <= n < |r.states|
      ensures Agrees(r, r.states[n])
    {
      UpdatedAgrees(l, n);
    }
  }

  lemma UpdatedAgrees(l: Layout, n: nat)
    requires n < |l.states|
    ensures Agrees(Updated(l), Updated(l).states[n])
  {
    hide Hits;
    hide Listed;
    hide HeadsLeft;
    var st := l.states[n];
    var c := TrainNamed(l.trains, st.id);
    assert StateNamed(l.states, st.id) < |l.states|;
    if c < |l.trains| {
      var t := l.trains[c];
      var i, j := LastHit(l.segments, t);
      if Hits(l.segments, t) != [] {
        assert Listed(l.segments, t, i, j);
        forall i', j' | LastListed(l.segments, t, i', j')
          ensures i' == i && j' == j
        {}
      }
    }
  }

  // ------------------------------------------------------------------ all runs

  datatype Report =
    | Occupied(addr: NodeAddress, number: byte, occ: bool)
    | Multiple(addr: NodeAddress, number: byte, size: byte, data: seq<byte>)
    | Addresses(addr: NodeAddress, number: byte, count: byte, addresses: seq<byte>)
    | BoardsChange(boards: seq<Board>)
    | ResetAll

  predicate ValidReport(r: Report) {
    && (r.Multiple? ==> r.size <= 8 * |r.data|)
    && (r.Addresses? ==> 2 * r.count <= |r.addresses|)
  }

  function Apply(l: Layout, r: Report): Layout
    requires ValidReport(r)
  {
    match r
    case Occupied(addr, number, occ) => AfterOcc(l, addr, number, occ)
    case Multiple(addr, number, size, data) => AfterMultiple(l, addr, number, size, data)
    case Addresses(addr, number, count, addresses) => AfterAddress(l, addr, number, count, addresses)
    case BoardsChange(boards) => l.(boards := boards)
    case ResetAll => Cleared(l)
  }

  function RunFrom(l: Layout, rs: seq<Report>): Layout
    requires forall r :: r in rs ==> ValidReport(r)
  {
    if rs == [] then Cleared(l) else Apply(RunFrom(l, rs[..|rs| - 1]), rs[|rs| - 1])
  }

  lemma ResetAgrees(l: Layout)
    ensures CacheAgrees(Cleared(l))
  {}

  /**
   In every state reachable from a reset, whatever reports and board changes come,
   each train's on-track flag and orientation say what the segments say.
   */
  lemma {:induction false} CacheAlwaysAgrees(l: Layout, rs: seq<Report>)
    requires forall r :: r in rs ==> ValidReport(r)
    ensures CacheAgrees(RunFrom(l, rs))
  {
    hide Updated;
    hide CacheAgrees;
    hide Cleared;
    hide SegmentAt;
    hide MarkedUpTo;
    hide Decoded;
    hide ValidReport;
    if rs == [] {
      ResetAgrees(l);
    } else {
      CacheAlwaysAgrees(l, rs[..|rs| - 1]);
      ApplyAgrees(RunFrom(l, rs[..|rs| - 1]), rs[|rs| - 1]);
    }
  }

  lemma ApplyAgrees(l: Layout, r: Report)
    requires ValidReport(r) && CacheAgrees(l)
    ensures CacheAgrees(Apply(l, r))
  {
    hide Updated;
    hide CacheAgrees;
    hide Cleared;
    hide SegmentAt;
    hide MarkedUpTo;
    hide Decoded;
    match r {
      case Occupied(addr, number, occ) =>
        var i := SegmentAt(l.boards, l.segments, addr, number);
        if i < |l.segments| {
          UpdateAgrees(l.(segments := l.segments[i := Marked(l.segments[i], occ)]));
        }
      case Multiple(addr, number, size, data) =>
        UpdateAgrees(l.(segments := MarkedUpTo(l, addr, number, size, data)));
      case Addresses(addr, number, count, addresses) =>
        var i := SegmentAt(l.boards, l.segments, addr, number);
        if i < |l.segments| {
          var seen := if NoAddress(count, addresses) then [] else Decoded(addresses, count);
          UpdateAgrees(l.(segments := l.segments[i := l.segments[i].(dccAddresses := seen)]));
        }
      case BoardsChange(boards) => BoardsAgree(l, boards);
      case ResetAll => ResetAgrees(l);
    }
  }

  lemma BoardsAgree(l: Layout, boards: seq<Board>)
    requires CacheAgrees(l)
    ensures CacheAgrees(l.(boards := boards))
  {
    forall st | st in l.states
      ensures Agrees(l.(boards := boards), st)
    {
      assert Agrees(l, st);
    }
  }

  // --------------------------------------------------- what the reports change

  /** No board maps two numbers to one segment. */
  ghost predicate MappingsOk(boards: seq<Board>) {
    forall b, i, j :: 0 <= b < |boards| && 0 <= i < j < |boards[b].segments| ==>
      && boards[b].segments[i].id != boards[b].segments[j].id
      && boards[b].segments[i].number != boards[b].segments[j].number
  }

  /** Different numbers of one node stand for different segments. */
  lemma SegmentAtInjective(boards: seq<Board>, segments: seq<Segment>, addr: NodeAddress, n: byte, m: byte)
    requires MappingsOk(boards)
      && SegmentAt(boards, segments, addr, n) == SegmentAt(boards, segments, addr, m) < |segments|
    ensures n == m
  {
    var ms := boards[BoardAt(boards, addr)].segments;
    var i, j := MappingOf(ms, n), MappingOf(ms, m);
    assert ms[i].id == ms[j].id;
  }

  /** The search for a segment depends only on the boards and the segment ids. */
  lemma SameIdsSameSegment(boards: seq<Board>, a: seq<Segment>, b: seq<Segment>, addr: NodeAddress, n: byte)
    requires |a| == |b| && forall i :: 0 <= i < |a| ==> a[i].id == b[i].id
    ensures SegmentAt(boards, a, addr, n) == SegmentAt(boards, b, addr, n)
  {}

  /** Every segment a board maps is found under its number, provided it has a state. */
  lemma MappedSegmentFound(l: Layout, addr: NodeAddress, m: nat)
    requires MappingsOk(l.boards) && BoardAt(l.boards, addr) < |l.boards|
    requires m < |l.boards[BoardAt(l.boards, addr)].segments|
    ensures var mapping := l.boards[BoardAt(l.boards, addr)].segments[m];
      SegmentAt(l.boards, l.segments, addr, mapping.number) == SegmentNamed(l.segments, mapping.id)
  {
    var ms := l.boards[BoardAt(l.boards, addr)].segments;
    assert MappingOf(ms, ms[m].number) == m;
  }

  /** Bit i of a multiple report is about segment k. */
  predicate ReportsOn(l: Layout, addr: NodeAddress, number: byte, i: int, k: int) {
    0 <= i && number + i < 255 && SegmentAt(l.boards, l.segments, addr, number + i) == k
  }

  lemma OneBitPerSegment(l: Layout, addr: NodeAddress, number: byte, i: int, j: int, k: int)
    requires MappingsOk(l.boards) && k < |l.segments|
    requires ReportsOn(l, addr, number, i, k) && ReportsOn(l, addr, number, j, k)
    ensures i == j
  {
    hide SegmentAt;
    SegmentAtInjective(l.boards, l.segments, addr, number + i, number + j);
  }

  lemma MarkedOne(l: Layout, addr: NodeAddress, number: byte, n: nat, data: seq<byte>, k: nat)
    requires n < 8 * |data| && k < |l.segments|
    ensures MarkedUpTo(l, addr, number, n + 1, data)[k] ==
      if ReportsOn(l, addr, number, n, k) then
        Marked(MarkedUpTo(l, addr, number, n, data)[k], BitSet(data[n / 8], n % 8))
      else MarkedUpTo(l, addr, number, n, data)[k]
  {
    hide SegmentAt;
    hide BitSet;
    hide Marked;
    hide MarkedUpTo;
    MarkedNext(l, addr, number, n, data);
    if number + n < 255 {
      SameIdsSameSegment(l.boards, MarkedUpTo(l, addr, number, n, data), l.segments, addr, number + n);
    }
  }

  lemma {:induction false} MultipleUpTo(l: Layout, addr: NodeAddress, number: byte, n: nat, data: seq<byte>, k: nat)
    requires n <= 8 * |data| && MappingsOk(l.boards) && k < |l.segments|
    ensures forall i :: 0 <= i < n && ReportsOn(l, addr, number, i, k) ==>
      MarkedUpTo(l, addr, number, n, data)[k] == Marked(l.segments[k], BitSet(data[i / 8], i % 8))
    ensures (forall i :: 0 <= i < n ==> !ReportsOn(l, addr, number, i, k)) ==>
      MarkedUpTo(l, addr, number, n, data)[k] == l.segments[k]
  {
    hide ReportsOn;
    hide BitSet;
    hide Marked;
    hide MappingsOk;
    hide MarkedUpTo;
    if n == 0 {
      NothingMarked(l, addr, number, data);
    } else {
      MultipleUpTo(l, addr, number, n - 1, data, k);
      MarkedOne(l, addr, number, n - 1, data, k);
      if ReportsOn(l, addr, number, n - 1, k) {
        forall i | 0 <= i < n - 1
          ensures !ReportsOn(l, addr, number, i, k)
        {
          if ReportsOn(l, addr, number, i, k) {
            OneBitPerSegment(l, addr, number, i, n - 1, k);
          }
        }
      }
    }
  }

  /**
   A multiple report makes the segment behind each number + i below 255 exactly as
   occupied as bit i says, takes the addresses off those it frees, keeps them on
   those it does not, and leaves every other segment as it was.
   */
  lemma MultipleExactly(l: Layout, addr: NodeAddress, number: byte, size: byte, data: seq<byte>, k: nat)
    requires size <= 8 * |data| && MappingsOk(l.boards) && k < |l.segments|
    ensures var before, after := l.segments[k], AfterMultiple(l, addr, number, size, data).segments[k];
      && (forall i :: 0 <= i < size && ReportsOn(l, addr, number, i, k) ==>
            && after.occupied == BitSet(data[i / 8], i % 8)
            && after.dccAddresses == (if after.occupied then before.dccAddresses else [])
            && after == before.(occupied := after.occupied, dccAddresses := after.dccAddresses))
      && ((forall i :: 0 <= i < size ==> !ReportsOn(l, addr, number, i, k)) ==> after == before)
  {
    hide ReportsOn;
    hide BitSet;
    hide MappingsOk;
    hide MarkedUpTo;
    MultipleUpTo(l, addr, number, size, data, k);
  }

  /** How many of the first n reported addresses are locomotives', not accessories'. */
  function Locomotives(addresses: seq<byte>, n: nat): nat
    requires 2 * n <= |addresses|
  {
    if n == 0 then 0 else Locomotives(addresses, n - 1) + if BitSet(addresses[2 * n - 1], 6) then 0 else 1
  }

  /**
   After an address report the segment lists exactly the locomotive addresses reported,
   one entry each, in the order reported, the two flag bits split off.
   */
  lemma {:induction false} DecodedMeans(addresses: seq<byte>, n: nat, k: nat)
    requires 2 * n <= |addresses| && k < n
    ensures var decoded, at := Decoded(addresses, n), Locomotives(addresses, k);
      && |decoded| == Locomotives(addresses, n)
      && (!BitSet(addresses[2 * k + 1], 6) ==>
            && at < |decoded| && decoded[at].kind in {0, 2} && decoded[at].addrh < 64
            && addresses[2 * k] == decoded[at].addrl
            && addresses[2 * k + 1] == decoded[at].addrh + 64 * decoded[at].kind)
  {
    hide BitSet;
    DecodedNext(addresses, n - 1);
    DecodedCount(addresses, n - 1);
    if k < n - 1 {
      DecodedMeans(addresses, n - 1, k);
    } else {
      HighByte(addresses[2 * k + 1]);
    }
  }

  lemma {:induction false} DecodedCount(addresses: seq<byte>, n: nat)
    requires 2 * n <= |addresses|
    ensures |Decoded(addresses, n)| == Locomotives(addresses, n)
  {
    hide BitSet;
    if n > 0 {
      DecodedCount(addresses, n - 1);
    }
  }

  /** In particular an address is listed exactly if it was reported as a locomotive's. */
  lemma {:induction false} DecodedHolds(addresses: seq<byte>, n: nat, d: DccAddress)
    requires 2 * n <= |addresses|
    ensures d in Decoded(addresses, n) <==>
      exists k :: 0 <= k < n && (addresses[2 * k + 1] == d.addrh + 64 * d.kind && addresses[2 * k] == d.addrl)
                  && d.addrh < 64 && d.kind in {0, 2}
  {
    hide BitSet;
    if n > 0 {
      DecodedHolds(addresses, n - 1, d);
      DecodedNext(addresses, n - 1);
      var l, h := addresses[2 * n - 2], addresses[2 * n - 1];
      HighByte(h);
      var k := n - 1;
      assert addresses[2 * k + 1] == h && addresses[2 * k] == l;
    }
  }

  lemma HighByte(h: byte)
    ensures !BitSet(h, 6) <==> h / 64 in {0, 2}
    ensures h == h % 64 + 64 * (h / 64 % 4) && h / 64 % 4 == h / 64
  {
    assert PowerOfTwo(6) == 64 by {
      assert PowerOfTwo(3) == 8;
    }
  }

  /**
   Freeing a segment: a train stays on the track exactly if another segment lists it, and
   keeps its orientation otherwise.
   */
  lemma FreedSegment(l: Layout, addr: NodeAddress, number: byte, n: nat)
    requires n < |l.states| && SegmentAt(l.boards, l.segments, addr, number) < |l.segments|
    ensures var i := SegmentAt(l.boards, l.segments, addr, number);
      var c := TrainNamed(l.trains, l.states[n].id);
      var r := AfterOcc(l, addr, number, false).states[n];
      && (r.onTrack <==> c < |l.trains| && exists i', j' :: i' != i && Listed(l.segments, l.trains[c], i', j'))
      && (!r.onTrack ==> r == l.states[n].(onTrack := false))
  {
    hide SegmentAt;
    hide Hits;
    var i := SegmentAt(l.boards, l.segments, addr, number);
    var freed := l.(segments := l.segments[i := Marked(l.segments[i], false)]);
    UpdatedAgrees(freed, n);
    var c := TrainNamed(l.trains, l.states[n].id);
    if c < |l.trains| {
      var t := l.trains[c];
      assert forall i', j' :: Listed(freed.segments, t, i', j') <==> i' != i && Listed(l.segments, t, i', j');
    }
  }
}
