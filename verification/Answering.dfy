/**
 The flow control from the node's side: a node that answers what it was sent gets
 everything that is held for it.
 */
module Answering {
  import opened Bytes
  import opened Messages
  import opened Responses
  import opened NodeStates
  import opened FlowControl
  import opened Wakeups
  import opened Interleaving

  /** The message that answers the front entry of a node. */
  function AnswerTo(t: Table, k: Key, now: int): Region
    requires k in t && t[k].responses != [] && ResponseInfo(t[k].responses[0].msgType).types != []
  {
    Update(k, ResponseInfo(t[k].responses[0].msgType).types[0], now)
  }

  /** What the node still has to be sent and to answer; a message sent may leave one answer due. */
  function Outstanding(n: Node): nat {
    2 * |n.held| + |n.responses|
  }

  lemma {:induction false} DrainSettlesAccounts(t: Table, k: Key, now: int)
    requires k in t
    ensures Outstanding(Drain(t, k, now).0[k]) <= Outstanding(t[k])
    decreases |t[k].held|
  {
    hide Asked;
    hide Blocker;
    hide HasRoom;
    hide SizeOf;
    var n := t[k];
    AskedFrame(t, k);
    if Blocker(t, k) == [] && n.held != [] && HasRoom(n, n.held[0]) {
      DrainSettlesAccounts(t[k := Expecting(n, n.held[0], now).(held := n.held[1..])], k, now);
    }
  }

  lemma ResponsesHaveAnswers(t: Table, k: Key)
    requires TableOk(t) && k in t && t[k].responses != []
    ensures ResponseInfo(t[k].responses[0].msgType).types != []
  {
    hide ResponseInfo;
    assert t[k].responses[0] in t[k].responses;
    SizesAreSmall(t[k].responses[0].msgType);
  }

  /** An answer leaves less outstanding, forgets nobody, and changes no stall. */
  lemma AnswerHelps(t: Table, k: Key, now: int)
    requires TableOk(t) && NoLostWakeup(t) && k in t && IsKey(k) && t[k].responses != []
    ensures ResponseInfo(t[k].responses[0].msgType).types != []
    ensures var r := Enter(t, AnswerTo(t, k, now));
      && TableOk(r) && NoLostWakeup(r) && k in r && Outstanding(r[k]) < Outstanding(t[k])
      && forall p :: Stalled(r, p) <==> Stalled(t, p)
  {
    hide Drain;
    hide ResponseInfo;
    hide WindowOk;
    hide TableOk;
    hide NoLostWakeup;
    hide Lapsed;
    hide AnsweredBehind;
    ResponsesHaveAnswers(t, k);
    EnterOk(t, AnswerTo(t, k, now));
    EnterKeepsWakeups(t, AnswerTo(t, k, now));
    DrainSettlesAccounts(t[k := Popped(t[k])], k, now);
  }

  /** The table after up to n answers of node k, each to the entry then in front. */
  ghost function Answered(t: Table, k: Key, now: int, n: nat): (r: Table)
    requires TableOk(t) && NoLostWakeup(t) && k in t && IsKey(k)
    decreases n
  {
    if n == 0 || t[k].responses == [] then t
    else
      AnswerHelps(t, k, now);
      Answered(Enter(t, AnswerTo(t, k, now)), k, now, n - 1)
  }

  lemma AllSentWhenAllAnswered(t: Table, k: Key)
    requires TableOk(t) && NoLostWakeup(t) && k in t && Unstalled(t, k) && t[k].responses == []
    ensures t[k].held == []
  {
    hide TableOk;
    hide WindowOk;
    hide HasRoom;
    hide WaitsOn;
    hide Unstalled;
    WindowOf(t, k);
    assert Settled(t, k);
    NotReadyImpossible(t, k);
    if t[k].held != [] {
      EmptyWindowAdmits(t[k], t[k].held[0]);
    }
  }

  lemma SameStallsUnstalled(t: Table, r: Table, k: Key)
    requires Unstalled(t, k) && forall p :: Stalled(r, p) <==> Stalled(t, p)
    ensures Unstalled(r, k)
  {}

  /** What an answer sends comes off the front of the held messages. */
  lemma AnswerSendsFront(t: Table, k: Key, now: int)
    requires TableOk(t) && NoLostWakeup(t) && k in t && IsKey(k) && t[k].responses != []
    requires ResponseInfo(t[k].responses[0].msgType).types != []
    ensures var a := AnswerTo(t, k, now);
      k in Enter(t, a) && Passed(t, a) + Enter(t, a)[k].held == t[k].held
  {
    hide Drain;
    hide ResponseInfo;
    hide TableOk;
    hide NoLostWakeup;
    var a := AnswerTo(t, k, now);
    var popped := t[k := Popped(t[k])];
    DrainConserves(popped, k, now, k);
    MessagesInCalls(StateUpdate(t, k, a.responseType, now).1);
  }

  /** The messages that pass flow control while node k answers, in order. */
  ghost function Released(t: Table, k: Key, now: int, n: nat): seq<Msg>
    requires TableOk(t) && NoLostWakeup(t) && k in t && IsKey(k)
    decreases n
  {
    if n == 0 || t[k].responses == [] then []
    else
      AnswerHelps(t, k, now);
      Passed(t, AnswerTo(t, k, now)) + Released(Enter(t, AnswerTo(t, k, now)), k, now, n - 1)
  }

  /**
   A node that keeps answering, while nothing on the way to it is stalled, gets all its
   messages: after as many answers as are outstanding those held have all been sent, in
   order and once each, and no response is due.
   */
  lemma {:induction false} AnsweringNodeGetsAll(t: Table, k: Key, now: int, n: nat)
    requires TableOk(t) && NoLostWakeup(t) && k in t && IsKey(k) && Unstalled(t, k) && n >= Outstanding(t[k])
    ensures Released(t, k, now, n) == t[k].held
    ensures var r := Answered(t, k, now, n);
      TableOk(r) && NoLostWakeup(r) && k in r && r[k].held == [] && r[k].responses == []
    decreases n
  {
    hide TableOk;
    hide NoLostWakeup;
    hide Unstalled;
    hide Stalled;
    hide AnswerTo;
    hide Passed;
    hide Enter;
    if t[k].responses == [] {
      AllSentWhenAllAnswered(t, k);
    } else {
      AnswerHelps(t, k, now);
      AnswerSendsFront(t, k, now);
      var r := Enter(t, AnswerTo(t, k, now));
      SameStallsUnstalled(t, r, k);
      AnsweringNodeGetsAll(r, k, now, n - 1);
    }
  }
}
