/** The nodes of the simulation and the model that lets them exchange messages. */
module MessageNodes {
  import opened Errors
  import opened MessageProtocol
  import opened MessagePushes

  class MessageNode {
    const c: Config
    const nodeId: nat
    var nextMessageId: nat
    var messages: seq<nat>
    var messageMap: map<nat, Message>
    var tempMessages: Option<seq<Message>>
    var trustDistances: array<int>

    ghost function State(): NodeState
      reads `nextMessageId, `messages, `messageMap, `tempMessages
    {
      NodeState(nextMessageId, messages, messageMap, tempMessages)
    }

    /** The table of distances is set up, and every listed message is in the map and comes from a node. */
    ghost predicate Valid()
      reads this, trustDistances
    {
      && trustDistances.Length == c.numNodes && nodeId < c.numNodes
      && (forall j :: 0 <= j < c.numNodes ==> trustDistances[j] == TrustDistance(c, nodeId, j))
      && (forall u :: u in messages ==> u in messageMap)
      && (forall u :: u in messageMap ==> messageMap[u].sender < c.numNodes)
      && (tempMessages.Some? ==> SendersOk(c, tempMessages.value))
    }

    constructor (c: Config, nodeId: nat)
      requires nodeId < c.numNodes && c.numAdversaries <= c.numNodes
      ensures this.c == c && this.nodeId == nodeId && State() == NEW_NODE && Valid() && fresh(trustDistances)
    {
      this.c, this.nodeId := c, nodeId;
      nextMessageId, messages, messageMap, tempMessages := 0, [], map[], None;
      trustDistances := new int[c.numNodes](_ => 0);
      new;
      InitFriendships();
    }

    /** Friends are the nodes of one's own type. */
    method InitFriendships()
      requires trustDistances.Length == c.numNodes && nodeId < c.numNodes && c.numAdversaries <= c.numNodes
      modifies trustDistances
      ensures forall j :: 0 <= j < c.numNodes ==> trustDistances[j] == TrustDistance(c, nodeId, j)
    {
      var own := if TypeOf(c, nodeId) == Adversary then 1 else -1;
      var i := 0;
      while i < c.numAdversaries
        invariant 0 <= i <= c.numAdversaries && forall j :: 0 <= j < i ==> trustDistances[j] == own
      {
        trustDistances[i] := own;
        i := i + 1;
      }
      while i < c.numNodes
        invariant c.numAdversaries <= i <= c.numNodes
        invariant forall j :: 0 <= j < i ==> trustDistances[j] == if j < c.numAdversaries then own else -own
      {
        trustDistances[i] := -own;
        i := i + 1;
      }
      trustDistances[nodeId] := 0;
    }

    method InsertMessage(m: Message)
      modifies this`messages, this`messageMap
      ensures State() == Insert(old(State()), m)
    {
      messages := messages + [m.uuid];
      if m.uuid !in messageMap { messageMap := messageMap[m.uuid := m]; }
    }

    method CreateNewMessage(time: int)
      requires Valid()
      modifies this`nextMessageId, this`messages, this`messageMap
      ensures Valid() && State() == Create(c, nodeId, old(State()), time)
    {
      var uuid := nodeId * c.maxMessages + nextMessageId;
      nextMessageId := nextMessageId + 1;
      InsertMessage(Message(uuid, nodeId, 0, time, true));
    }

    /** Pushes the newest messages: first those of friends, then a collaborator's others. */
    method PushMessagesTo(that: MessageNode)
      requires Valid() && that.Valid() && that != this && that.c == c
      modifies that`tempMessages
      ensures that.Valid() && that.State() == Assign(old(that.State()), Pushed(c, nodeId, State()))
      ensures Listed(State())
      ensures
        var before, pushed := old(that.State()), Limited(c.exchangeNum, Eligible(c, nodeId, Newest(State())));
        that.State() == before.(temp := Some(if before.temp.Some? then before.temp.value + pushed else pushed))
    {
      hide AtMost, Pushed, Newest, Eligible, Limited;
      PushedIs(c, nodeId, State());
      var thatTemp := SelectMessages();
      that.AssignTempMessages(thatTemp);
    }

    method SelectMessages() returns (sent: seq<Message>)
      requires Valid()
      ensures sent == Pushed(c, nodeId, State()) && SendersOk(c, sent)
    {
      var later := TypeOf(c, nodeId) == Collaborator && c.useFriendships;
      sent := Select([], false);
      if later {
        ghost var first := Picked(c, nodeId, State(), false, |messages|);
        ghost var others := Picked(c, nodeId, State(), true, |messages|);
        assert [] + first == first;
        CutTwice(c.exchangeNum, first, others);
        sent := Select(sent, true);
      } else {
        assert [] + Picked(c, nodeId, State(), false, |messages|) == Picked(c, nodeId, State(), false, |messages|);
      }
    }

    /** Goes through the list from its end and adds what may be sent, until the limit is reached. */
    method Select(before: seq<Message>, later: bool) returns (sent: seq<Message>)
      requires Valid() && SendersOk(c, before) && (c.exchangeNum >= 0 ==> |before| <= c.exchangeNum)
      ensures sent == AtMost(c.exchangeNum, before + Picked(c, nodeId, State(), later, |messages|))
      ensures SendersOk(c, sent)
      ensures c.exchangeNum >= 0 ==> |sent| <= c.exchangeNum
    {
      sent := before;
      var i := |messages|;
      ghost var all := before + Picked(c, nodeId, State(), later, |messages|);
      while i > 0
        invariant 0 <= i <= |messages| && SendersOk(c, sent) && (c.exchangeNum >= 0 ==> |sent| <= c.exchangeNum)
        invariant sent + Picked(c, nodeId, State(), later, i) == all
      {
        if |sent| == c.exchangeNum { break; }
        i := i - 1;
        var m := messageMap[messages[i]];
        var trust := trustDistances[m.sender];
        if if later then trust == -1 else trust != -1 || (TypeOf(c, nodeId) == Collaborator && !c.useFriendships) {
          assert sent + ([m] + Picked(c, nodeId, State(), later, i))
            == sent + [m] + Picked(c, nodeId, State(), later, i);
          sent := sent + [m];
        } else {
          assert [] + Picked(c, nodeId, State(), later, i) == Picked(c, nodeId, State(), later, i);
        }
      }
      if i == 0 { assert sent == all; } else { assert all[..|sent|] == sent; }
    }

    method AssignTempMessages(ms: seq<Message>)
      requires Valid() && SendersOk(c, ms)
      modifies this`tempMessages
      ensures Valid() && State() == Assign(old(State()), ms)
    {
      var temp := if tempMessages.Some? then tempMessages.value else [];
      var was := temp;
      var i := 0;
      while i < |ms|
        invariant 0 <= i <= |ms| && temp == was + ms[..i]
      {
        temp := temp + [ms[i]];
        i := i + 1;
      }
      assert ms[..i] == ms && [] + ms == ms;
      tempMessages := Some(temp);
    }

    predicate HasReceivedMessage(uuid: nat)
      reads this
    {
      uuid in messageMap
    }

    /** Takes a message out of the list, looking for it from the end. */
    method EraseMessage(uuid: nat)
      modifies this`messages
      ensures messages == Without(old(messages), uuid)
    {
      ghost var was := messages;
      var i := |messages|;
      assert messages[..i] == messages && messages[i..] == [] && Without(was, uuid) + [] == Without(was, uuid);
      while i > 0 && messages[i - 1] != uuid
        invariant 0 <= i <= |messages| && messages == was
        invariant Without(was, uuid) == Without(was[..i], uuid) + was[i..]
      {
        assert was[..i][..i - 1] == was[..i - 1] && [was[i - 1]] + was[i..] == was[i - 1..];
        i := i - 1;
      }
      if i > 0 {
        assert was[..i][..i - 1] == was[..i - 1];
        messages := messages[..i - 1] + messages[i..];
      } else {
        assert was[0..] == was && [] + was == was;
      }
    }

    /** A message that was received before moves to the end of the list. */
    method ReceiveMessage(m: Message, time: int)
      requires Valid() && m.sender < c.numNodes
      modifies this`messages, this`messageMap
      ensures Valid() && State() == Receive(old(State()), m, time)
    {
      if HasReceivedMessage(m.uuid) {
        WithoutIs(messages, m.uuid);
        EraseMessage(m.uuid);
      }
      InsertMessage(Message(m.uuid, m.sender, time - m.creationTime, m.creationTime, false));
    }

    /** Receives what was assigned in a random order, but for the message that comes first in it. */
    method MergeMessages(random: nat -> nat, time: int) returns (ghost shuffled: seq<Message>)
      requires Valid()
      modifies this`messages, this`messageMap, this`tempMessages
      ensures Valid() && State() == Merge(old(State()), shuffled, time)
      ensures old(tempMessages).Some? ==> multiset(shuffled) == multiset(old(tempMessages).value)
    {
      shuffled := [];
      if tempMessages.Some? {
        var temp := Shuffle(tempMessages.value, random);
        shuffled := temp;
        SendersStay(c, tempMessages.value, temp);
        ghost var st := State();
        var i := |temp| - 1;
        while i > 0
          invariant -1 <= i < |temp| && (i == -1 <==> temp == []) && Valid()
          invariant State() == ReceiveDownTo(st, temp, i + 1, time)
        {
          ReceiveMessage(temp[i], time);
          i := i - 1;
        }
        tempMessages := None;
      }
    }
  }

  predicate SendersOk(c: Config, ms: seq<Message>) { forall i :: 0 <= i < |ms| ==> ms[i].sender < c.numNodes }

  lemma SendersStay(c: Config, a: seq<Message>, b: seq<Message>)
    requires SendersOk(c, a) && multiset(a) == multiset(b)
    ensures SendersOk(c, b)
  {
    forall i | 0 <= i < |b|
      ensures b[i].sender < c.numNodes
    {
      assert b[i] in multiset(b);
    }
  }

  /** Cutting off after the first part, and again after the second, is cutting off the whole. */
  lemma CutTwice<T>(num: int, a: seq<T>, b: seq<T>)
    ensures AtMost(num, AtMost(num, a) + b) == AtMost(num, a + b)
  {
  }

  /** `random_shuffle`: each element is exchanged with a random one up to it. */
  method Shuffle<T>(s: seq<T>, random: nat -> nat) returns (r: seq<T>)
    ensures multiset(r) == multiset(s)
  {
    r := s;
    var i := 1;
    while i < |r|
      invariant |r| == |s| && multiset(r) == multiset(s)
    {
      var j := random(i) % (i + 1);
      r := r[i := r[j]][j := r[i]];
      i := i + 1;
    }
  }
}
