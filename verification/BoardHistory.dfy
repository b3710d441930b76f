/**
 Boards over time: whatever nodes come, go and are read from node tables, connected
 boards have addresses for which the loss of an interface takes exactly its subtree.
 */
module BoardHistory {
  import opened Bytes
  import opened Messages
  import opened NodeStates
  import opened Tracks
  import opened NodeTree
  import opened NodeTables

  /** What changes the boards: a node announced by a message, a node lost, and the rows read of a node table. */
  datatype BoardEvent =
    | Arrived(parent: NodeAddress, local: byte, uid: UniqueId)
    | Gone(uid: UniqueId)
    | TableRead(parent: NodeAddress, rows: seq<Row>, n: nat)

  /** Addresses come out of messages and out of the queue, both without inner zeros. */
  predicate ValidEvent(e: BoardEvent) {
    match e
    case Arrived(parent, _, _) => Tidy(parent)
    case Gone(_) => true
    case TableRead(parent, rows, n) => Tidy(parent) && n <= |rows|
  }

  function AfterEvent(boards: seq<Board>, e: BoardEvent): seq<Board>
    requires ValidEvent(e)
  {
    match e
    case Arrived(parent, local, uid) => Connected(boards, uid, ChildAddress(parent, local))
    case Gone(uid) => Lost(boards, uid)
    case TableRead(parent, rows, n) => AfterRows(boards, parent, rows, n)
  }

  function AfterEvents(boards: seq<Board>, es: seq<BoardEvent>): seq<Board>
    requires forall e :: e in es ==> ValidEvent(e)
  {
    if es == [] then boards else AfterEvent(AfterEvents(boards, es[..|es| - 1]), es[|es| - 1])
  }

  lemma {:induction false} RowsKeepTidy(boards: seq<Board>, a: NodeAddress, rows: seq<Row>, n: nat)
    requires TidyBoards(boards) && Tidy(a) && n <= |rows|
    ensures TidyBoards(AfterRows(boards, a, rows, n))
  {
    hide Tidy;
    hide TidyBoards;
    hide Connected;
    if n > 0 {
      RowsKeepTidy(boards, a, rows, n - 1);
      NewKeepsTidy(AfterRows(boards, a, rows, n - 1), rows[n - 1].uid, a, rows[n - 1].local);
    }
  }

  /** From a start with nothing connected, connected boards never have an address with an inner zero. */
  lemma {:induction false} BoardsStayTidy(boards: seq<Board>, es: seq<BoardEvent>)
    requires (forall b :: b in boards ==> !b.connected) && forall e :: e in es ==> ValidEvent(e)
    ensures TidyBoards(AfterEvents(boards, es))
  {
    hide Tidy;
    hide Connected;
    hide Lost;
    hide AfterRows;
    if es != [] {
      var now := AfterEvents(boards, es[..|es| - 1]);
      BoardsStayTidy(boards, es[..|es| - 1]);
      assert es[|es| - 1] in es && ValidEvent(es[|es| - 1]);
      match es[|es| - 1] {
        case Arrived(parent, local, uid) => NewKeepsTidy(now, uid, parent, local);
        case Gone(uid) => LostKeepsTidy(now, uid);
        case TableRead(parent, rows, n) => RowsKeepTidy(now, parent, rows, n);
      }
    }
  }

  /**
   In every state reachable from nothing connected, losing a node disconnects exactly
   its board and, if it is an interface, those whose paths strictly extend its own.
   */
  lemma LostAlwaysExactly(boards: seq<Board>, es: seq<BoardEvent>, uid: UniqueId, i: nat)
    requires (forall b :: b in boards ==> !b.connected) && forall e :: e in es ==> ValidEvent(e)
    requires i < |AfterEvents(boards, es)|
    ensures var now := AfterEvents(boards, es);
      var b, r := BoardWith(now, uid), Lost(now, uid);
      && r[i] == now[i].(connected := r[i].connected)
      && (r[i].connected <==> (now[i].connected && i != b
                               && !(b < |now| && IsInterface(uid)
                                 && PathOf(now[b].nodeAddr) < PathOf(now[i].nodeAddr))))
  {
    hide AfterEvents;
    hide TidyBoards;
    BoardsStayTidy(boards, es);
    LostExactly(AfterEvents(boards, es), uid, i);
  }
}
