/**
 What one report changes, segment by segment and train by train, and what the position
 query makes of it.
 */
module Reports {
  import opened Bytes
  import opened Tracks
  import opened Occupancy

  /** The k-th address of a report is d's, and a locomotive's. */
  predicate Reported(addresses: seq<byte>, k: int, d: DccAddress)
    requires 0 <= 2 * k && 2 * k + 1 < |addresses|
  {
    && addresses[2 * k] == d.addrl && addresses[2 * k + 1] == d.addrh + 64 * d.kind
    && d.addrh < 64 && d.kind in {0, 2}
  }

  /** Reports change segments and what the trains cache of them: not who there is, how it moves, or its functions. */
  ghost predicate OnlyCache(l: Layout, r: Layout) {
    && r.boards == l.boards && r.trains == l.trains
    && |r.segments| == |l.segments| && |r.states| == |l.states|
    && (forall i :: 0 <= i < |l.segments| ==> r.segments[i].id == l.segments[i].id)
    && forall n :: 0 <= n < |l.states| ==>
         && r.states[n] == l.states[n].(onTrack := r.states[n].onTrack, orientation := r.states[n].orientation)
         && (!r.states[n].onTrack ==> r.states[n].orientation == l.states[n].orientation)
  }

  lemma UpdateOnlyCache(l: Layout, segments: seq<Segment>)
    requires |segments| == |l.segments| && forall i :: 0 <= i < |segments| ==> segments[i].id == l.segments[i].id
    ensures OnlyCache(l, Updated(l.(segments := segments)))
  {
    hide HitsOf;
  }

  /**
   Whatever is reported, a train keeps its speed, its direction and its functions, and one
   that is not on the track its orientation; no board, train or segment comes or goes.
   */
  lemma ReportsChangeOnlyCache(l: Layout, r: Report)
    requires ValidReport(r) && !r.ResetAll?
    ensures OnlyCache(l, Apply(l, r).(boards := l.boards))
    ensures Apply(l, r).boards == if r.BoardsChange? then r.boards else l.boards
  {
    hide Updated;
    hide SegmentAt;
    hide Decoded;
    match r {
      case Occupied(addr, number, occ) =>
        var i := SegmentAt(l.boards, l.segments, addr, number);
        if i < |l.segments| {
          UpdateOnlyCache(l, l.segments[i := Marked(l.segments[i], occ)]);
          SameBoards(l.(segments := l.segments[i := Marked(l.segments[i], occ)]));
        }
      case Multiple(addr, number, size, data) =>
        UpdateOnlyCache(l, MarkedUpTo(l, addr, number, size, data));
        SameBoards(l.(segments := MarkedUpTo(l, addr, number, size, data)));
      case Addresses(addr, number, count, addresses) =>
        var i := SegmentAt(l.boards, l.segments, addr, number);
        if i < |l.segments| {
          var seen := if NoAddress(count, addresses) then [] else Decoded(addresses, count);
          var segments := l.segments[i := l.segments[i].(dccAddresses := seen)];
          UpdateOnlyCache(l, segments);
          SameBoards(l.(segments := segments));
        }
      case BoardsChange(boards) =>
    }
  }

  lemma SameBoards(l: Layout)
    ensures Updated(l).boards == l.boards && Updated(l).segments == l.segments && Updated(l).trains == l.trains
  {}

  /**
   A single report makes the segment its number stands for exactly as occupied as it says,
   takes its addresses off if it is free and keeps them if not, and touches no other segment.
   */
  lemma OccupiedExactly(l: Layout, addr: NodeAddress, number: byte, occ: bool, k: nat)
    requires k < |l.segments|
    ensures var r := AfterOcc(l, addr, number, occ).segments;
      && |r| == |l.segments|
      && (k != SegmentAt(l.boards, l.segments, addr, number) ==> r[k] == l.segments[k])
      && (k == SegmentAt(l.boards, l.segments, addr, number) ==>
            && r[k].occupied == occ && r[k].dccAddresses == (if occ then l.segments[k].dccAddresses else [])
            && r[k].id == l.segments[k].id && r[k].readings == l.segments[k].readings)
  {
    hide SegmentAt;
    hide HitsOf;
  }

  /**
   An address report makes the segment its number stands for list exactly the locomotive
   addresses reported, none if the report is the single address 0. The rest of the segment
   stays as it was, and so do all other segments.
   */
  lemma AddressesExactly(l: Layout, addr: NodeAddress, number: byte, count: byte, addresses: seq<byte>, k: nat,
                         d: DccAddress)
    requires 2 * count <= |addresses| && k < |l.segments|
    ensures var r := AfterAddress(l, addr, number, count, addresses).segments;
      && |r| == |l.segments|
      && (k != SegmentAt(l.boards, l.segments, addr, number) ==> r[k] == l.segments[k])
      && (k == SegmentAt(l.boards, l.segments, addr, number) ==>
            && r[k] == l.segments[k].(dccAddresses := r[k].dccAddresses)
            && (d in r[k].dccAddresses <==>
                && !(count == 1 && addresses[0] == 0 && addresses[1] == 0)
                && exists n :: 0 <= n < count && Reported(addresses, n, d)))
  {
    hide SegmentAt;
    hide HitsOf;
    hide Decoded;
    DecodedReported(addresses, count, d);
  }

  lemma DecodedReported(addresses: seq<byte>, count: nat, d: DccAddress)
    requires 2 * count <= |addresses|
    ensures d in Decoded(addresses, count) <==> exists n :: 0 <= n < count && Reported(addresses, n, d)
  {
    hide Decoded;
    DecodedHolds(addresses, count, d);
    if d in Decoded(addresses, count) {
      var n :| 0 <= n < count && (addresses[2 * n + 1] == d.addrh + 64 * d.kind && addresses[2 * n] == d.addrl)
        && d.addrh < 64 && d.kind in {0, 2};
      assert Reported(addresses, n, d);
    }
    if n :| 0 <= n < count && Reported(addresses, n, d) {
      assert addresses[2 * n + 1] == d.addrh + 64 * d.kind;
    }
  }

  /** It lists them in the order reported, one entry for each time an address was reported. */
  lemma AddressesInOrder(l: Layout, addr: NodeAddress, number: byte, count: byte, addresses: seq<byte>, n: nat)
    requires 2 * count <= |addresses| && n < count && !(count == 1 && addresses[0] == 0 && addresses[1] == 0)
    requires SegmentAt(l.boards, l.segments, addr, number) < |l.segments|
    ensures var k := SegmentAt(l.boards, l.segments, addr, number);
      var listed := AfterAddress(l, addr, number, count, addresses).segments[k].dccAddresses;
      && |listed| == Locomotives(addresses, count)
      && (!BitSet(addresses[2 * n + 1], 6) ==>
            Locomotives(addresses, n) < |listed| && Reported(addresses, n, listed[Locomotives(addresses, n)]))
  {
    hide SegmentAt;
    hide HitsOf;
    hide BitSet;
    hide Decoded;
    DecodedMeans(addresses, count, n);
  }

  /** A segment that no number of the board stands for: the report changes nothing at all. */
  lemma UnknownIgnored(l: Layout, addr: NodeAddress, number: byte, occ: bool, count: byte, addresses: seq<byte>)
    requires 2 * count <= |addresses| && SegmentAt(l.boards, l.segments, addr, number) == |l.segments|
    ensures AfterOcc(l, addr, number, occ) == l && AfterAddress(l, addr, number, count, addresses) == l
  {
    hide SegmentAt;
    hide HitsOf;
    hide Decoded;
  }

  /** Connected boards have different addresses, and segments different ids. */
  ghost predicate Distinct(boards: seq<Board>, segments: seq<Segment>) {
    && (forall a, b :: 0 <= a < b < |boards| && boards[a].connected && boards[b].connected ==>
          boards[a].nodeAddr != boards[b].nodeAddr)
    && forall i, j :: 0 <= i < j < |segments| ==> segments[i].id != segments[j].id
  }

  /** Board b is connected at the address, and its m-th mapping takes the number to the k-th segment. */
  ghost predicate Maps(boards: seq<Board>, segments: seq<Segment>, addr: NodeAddress, number: byte,
                       b: int, m: int, k: int) {
    && 0 <= b < |boards| && boards[b].connected && boards[b].nodeAddr == addr && 0 <= k < |segments|
    && 0 <= m < |boards[b].segments| && boards[b].segments[m].number == number
    && boards[b].segments[m].id == segments[k].id
  }

  /** A number stands for a segment exactly if a board connected at the address maps the one to the other. */
  lemma SegmentAtExactly(boards: seq<Board>, segments: seq<Segment>, addr: NodeAddress, number: byte, k: nat)
    requires MappingsOk(boards) && Distinct(boards, segments) && k < |segments|
    ensures SegmentAt(boards, segments, addr, number) == k <==>
      exists b, m :: Maps(boards, segments, addr, number, b, m, k)
  {
    var b := BoardAt(boards, addr);
    if b < |boards| {
      var m := MappingOf(boards[b].segments, number);
      if m < |boards[b].segments| && SegmentAt(boards, segments, addr, number) == k {
        assert Maps(boards, segments, addr, number, b, m, k);
      }
    }
    if b', m' :| Maps(boards, segments, addr, number, b', m', k) {
      assert b' == b && MappingOf(boards[b].segments, number) == m';
    }
  }

  // -------------------------------------------------------- the position query

  /** The j-th address on segment i. */
  datatype Place = Place(i: nat, j: nat)

  ghost predicate Before(p: Place, q: Place) {
    p.i < q.i || (p.i == q.i && p.j < q.j)
  }

  ghost predicate InOrder(ps: seq<Place>) {
    forall a, b :: 0 <= a < b < |ps| ==> Before(ps[a], ps[b])
  }

  /** The hit tells what stands at the place. */
  ghost predicate Tells(segments: seq<Segment>, p: Place, h: Hit) {
    && p.i < |segments| && p.j < |segments[p.i].dccAddresses|
    && h.segment == segments[p.i].id && (h.left <==> segments[p.i].dccAddresses[p.j].kind == 0)
  }

  /** The places are those in segment i of addresses that match, in order, and the hits tell them. */
  ghost predicate PlacedIn(id: string, addrs: seq<DccAddress>, t: Train, i: nat, hits: seq<Hit>, ps: seq<Place>) {
    && |ps| == |hits| && InOrder(ps)
    && (forall p :: p in ps <==> p.i == i && p.j < |addrs| && Matches(t, addrs[p.j]))
    && forall n :: 0 <= n < |ps| ==>
         ps[n].j < |addrs| && hits[n].segment == id && (hits[n].left <==> addrs[ps[n].j].kind == 0)
  }

  lemma {:induction false} HitsInPlaced(id: string, addrs: seq<DccAddress>, t: Train, i: nat) returns (ps: seq<Place>)
    ensures PlacedIn(id, addrs, t, i, HitsIn(id, addrs, t), ps)
  {
    ps := [];
    if addrs != [] {
      var n := |addrs| - 1;
      ps := HitsInPlaced(id, addrs[..n], t, i);
      if Matches(t, addrs[n]) {
        ghost var front := ps;
        ps := front + [Place(i, n)];
        assert forall p :: p in front ==> p.j < n;
      }
    }
  }

  /** The places are those that list the train, in order, and the hits tell them. */
  ghost predicate Placed(segments: seq<Segment>, t: Train, hits: seq<Hit>, ps: seq<Place>) {
    && |ps| == |hits| && InOrder(ps)
    && (forall p :: p in ps <==> Listed(segments, t, p.i, p.j))
    && forall n :: 0 <= n < |ps| ==> Tells(segments, ps[n], hits[n])
  }

  lemma PlacedMore(segments: seq<Segment>, t: Train, hits: seq<Hit>, ps: seq<Place>, more: seq<Hit>, qs: seq<Place>)
    requires segments != []
    requires var n := |segments| - 1;
      Placed(segments[..n], t, hits, ps) && PlacedIn(segments[n].id, segments[n].dccAddresses, t, n, more, qs)
    ensures Placed(segments, t, hits + more, ps + qs)
  {
    var n := |segments| - 1;
    var front, all, hs := segments[..n], ps + qs, hits + more;
    forall a, b | 0 <= a < b < |all|
      ensures Before(all[a], all[b])
    {
      if a < |ps| <= b {
        assert ps[a] in ps && qs[b - |ps|] in qs;
        assert Listed(front, t, ps[a].i, ps[a].j);
      }
    }
    forall p: Place
      ensures p in all <==> Listed(segments, t, p.i, p.j)
    {
      assert p in all <==> p in ps || p in qs;
      assert p.i < n ==> (Listed(segments, t, p.i, p.j) <==> Listed(front, t, p.i, p.j));
    }
    forall k | 0 <= k < |all|
      ensures Tells(segments, all[k], hs[k])
    {
      if k < |ps| {
        assert Tells(front, ps[k], hits[k]);
      } else {
        assert qs[k - |ps|] in qs;
      }
    }
  }

  /** The entries of a train are told off the segments place by place, in order, none left out and none twice. */
  lemma {:induction false} HitsPlaced(segments: seq<Segment>, t: Train) returns (ps: seq<Place>)
    ensures Placed(segments, t, Hits(segments, t), ps)
  {
    hide HitsIn;
    ps := [];
    if segments != [] {
      var n := |segments| - 1;
      ps := HitsPlaced(segments[..n], t);
      var qs := HitsInPlaced(segments[n].id, segments[n].dccAddresses, t, n);
      hide Placed;
      hide PlacedIn;
      PlacedMore(segments, t, Hits(segments[..n], t), ps, HitsIn(segments[n].id, segments[n].dccAddresses, t), qs);
      ps := ps + qs;
    } else {
      assert Placed([], t, [], []);
    }
  }

  /**
   The position of a train that is configured and has a state: for each place that lists it,
   in order, the name of the segment, and the direction of the last; left if there is none.
   */
  lemma PositionExactly(l: Layout, train: string) returns (ps: seq<Place>)
    requires TrainNamed(l.trains, train) < |l.trains| && StateNamed(l.states, train) < |l.states|
    ensures var t, hits := l.trains[TrainNamed(l.trains, train)], HitsOf(l, train);
      && (forall p :: p in ps <==> Listed(l.segments, t, p.i, p.j)) && InOrder(ps) && |Names(hits)| == |ps|
      && (forall n :: 0 <= n < |ps| ==> ps[n].i < |l.segments| && Names(hits)[n] == l.segments[ps[n].i].id)
      && (HeadsLeft(hits) <==>
          (ps != [] ==> Listed(l.segments, t, ps[|ps| - 1].i, ps[|ps| - 1].j)
                        && l.segments[ps[|ps| - 1].i].dccAddresses[ps[|ps| - 1].j].kind == 0))
  {
    hide Hits;
    var t := l.trains[TrainNamed(l.trains, train)];
    ps := HitsPlaced(l.segments, t);
    assert forall n :: 0 <= n < |ps| ==> Tells(l.segments, ps[n], HitsOf(l, train)[n]);
    if ps != [] {
      assert ps[|ps| - 1] in ps;
    }
  }

  /** A train that is not configured, or has no state, is nowhere. */
  lemma UnknownIsNowhere(l: Layout, train: string)
    ensures TrainNamed(l.trains, train) == |l.trains| || StateNamed(l.states, train) == |l.states| ==>
      Names(HitsOf(l, train)) == [] && HeadsLeft(HitsOf(l, train))
  {}

  // ------------------------------------------------------------------- the reset

  /**
   A reset leaves nothing on the track: every segment is free and lists nobody, no train has a
   position, and every train stands, heads left and forwards, with all its functions off.
   */
  lemma ResetExactly(l: Layout, train: string)
    ensures var r := Cleared(l);
      && r.boards == l.boards && r.trains == l.trains
      && |r.segments| == |l.segments| && |r.states| == |l.states|
      && (forall i :: 0 <= i < |l.segments| ==>
            && r.segments[i].id == l.segments[i].id && !r.segments[i].occupied
            && r.segments[i].dccAddresses == [] && r.segments[i].readings == 0)
      && Names(HitsOf(r, train)) == [] && HeadsLeft(HitsOf(r, train))
      && forall n :: 0 <= n < |l.states| ==>
           && r.states[n].id == l.states[n].id && !r.states[n].onTrack && r.states[n].orientation == Left
           && r.states[n].speedStep == 0 && r.states[n].isForwards && r.states[n].ackPending
           && |r.states[n].peripherals| == |l.states[n].peripherals|
           && forall p :: 0 <= p < |l.states[n].peripherals| ==>
                r.states[n].peripherals[p] == PeripheralState(l.states[n].peripherals[p].id, 0)
  {
    hide Hits;
    var r := Cleared(l);
    var c := TrainNamed(r.trains, train);
    if c < |r.trains| {
      var i, j := LastHit(r.segments, r.trains[c]);
    }
  }
}
