/**
 The store-and-forward protocol: what one node does, and what one step of all nodes does.

 A step is: some nodes create a message, every node in range of others pushes messages to one of
 them, and every node merges what was pushed to it.
 */
module MessageProtocol {
  import opened Errors

  datatype NodeType = Collaborator | Adversary

  /** `MessageData`; the sender is the node that created the message. */
  datatype Message = Message(uuid: nat, sender: nat, latency: int, creationTime: int, outgoing: bool)

  /** `messages` lists what is known, most recently received last; `temp` is what others have assigned. */
  datatype NodeState = NodeState(nextMessageId: nat, messages: seq<nat>, known: map<nat, Message>,
                                 temp: Option<seq<Message>>)

  datatype Config = Config(numNodes: nat, numAdversaries: nat, maxMessages: nat, exchangeNum: int, useFriendships: bool)

  const NEW_NODE := NodeState(0, [], map[], None)

  /** The first nodes are the adversaries. */
  function TypeOf(c: Config, id: nat): NodeType {
    if id < c.numAdversaries then Adversary else Collaborator
  }

  /** 0 for oneself, 1 for friends, -1 for others; only nodes of one type are friends. */
  function TrustDistance(c: Config, id: nat, other: nat): int {
    if id == other then 0 else if TypeOf(c, id) == TypeOf(c, other) then 1 else -1
  }

  function Uuid(c: Config, id: nat, k: nat): nat { id * c.maxMessages + k }

  // ----- one node -----

  /** A message that is known already keeps its data: `map::insert` does not replace an entry. */
  function Insert(st: NodeState, m: Message): NodeState {
    st.(messages := st.messages + [m.uuid], known := if m.uuid in st.known then st.known else st.known[m.uuid := m])
  }

  function Create(c: Config, id: nat, st: NodeState, time: int): NodeState {
    Insert(st.(nextMessageId := st.nextMessageId + 1), Message(Uuid(c, id, st.nextMessageId), id, 0, time, true))
  }

  /** The last one of them goes. */
  function Without(messages: seq<nat>, uuid: nat): seq<nat> {
    if messages == [] then []
    else if messages[|messages| - 1] == uuid then messages[..|messages| - 1]
    else Without(messages[..|messages| - 1], uuid) + [messages[|messages| - 1]]
  }

  function Receive(st: NodeState, m: Message, time: int): NodeState {
    Insert(if m.uuid in st.known then st.(messages := Without(st.messages, m.uuid)) else st,
           Message(m.uuid, m.sender, time - m.creationTime, m.creationTime, false))
  }

  /** What a node sends of a sender's messages at first, and what if there is capacity left. */
  predicate Picks(c: Config, id: nat, later: bool, sender: nat) {
    if later then TrustDistance(c, id, sender) == -1
    else TrustDistance(c, id, sender) != -1 || (TypeOf(c, id) == Collaborator && !c.useFriendships)
  }

  /** Of the first `n` messages in the list those that are picked, newest first. */
  function Picked(c: Config, id: nat, st: NodeState, later: bool, n: nat): seq<Message>
    requires n <= |st.messages|
  {
    if n == 0 then []
    else
      var uuid := st.messages[n - 1];
      (if uuid in st.known && Picks(c, id, later, st.known[uuid].sender) then [st.known[uuid]] else [])
        + Picked(c, id, st, later, n - 1)
  }

  function AtMost<T>(num: int, s: seq<T>): seq<T> {
    if num < 0 || num >= |s| then s else s[..num]
  }

  function Pushed(c: Config, id: nat, st: NodeState): seq<Message> {
    var n := |st.messages|;
    var first := Picked(c, id, st, false, n);
    AtMost(c.exchangeNum,
           if TypeOf(c, id) == Collaborator && c.useFriendships then first + Picked(c, id, st, true, n) else first)
  }

  function Assign(st: NodeState, ms: seq<Message>): NodeState {
    st.(temp := Some(if st.temp.Some? then st.temp.value + ms else ms))
  }

  /** Receives `ms[n..]`, last to first. */
  function ReceiveDownTo(st: NodeState, ms: seq<Message>, n: nat, time: int): NodeState
    requires n <= |ms|
    decreases |ms| - n
  {
    if n == |ms| then st else Receive(ReceiveDownTo(st, ms, n + 1, time), ms[n], time)
  }

  /** Merges what was assigned, in its shuffled order, but for the first. */
  function Merge(st: NodeState, shuffled: seq<Message>, time: int): NodeState {
    if st.temp.None? then st
    else if shuffled == [] then st.(temp := None)
    else ReceiveDownTo(st, shuffled, 1, time).(temp := None)
  }

  // ----- invariants -----

  predicate ListedOnce(messages: seq<nat>) { forall u :: u in messages ==> multiset(messages)[u] == 1 }

  /** No message is listed twice, the list and the map agree, and a node has all it created. */
  ghost predicate NodeOk(c: Config, id: nat, st: NodeState) {
    && ListedOnce(st.messages)
    && (forall u :: u in st.messages <==> u in st.known)
    && (forall u :: u in st.known ==> st.known[u].uuid == u && (st.known[u].outgoing <==> st.known[u].sender == id))
    && (forall k :: 0 <= k < st.nextMessageId ==> Uuid(c, id, k) in st.known && st.known[Uuid(c, id, k)].sender == id)
    && st.nextMessageId <= c.maxMessages
  }

  /** The message is a copy of one its sender has created. */
  predicate IsCopy(c: Config, states: seq<NodeState>, m: Message) {
    && m.sender < |states| && m.uuid in states[m.sender].known
    && states[m.sender].known[m.uuid].sender == m.sender
    && states[m.sender].known[m.uuid].creationTime == m.creationTime
    && Uuid(c, m.sender, 0) <= m.uuid < Uuid(c, m.sender, states[m.sender].nextMessageId)
  }

  ghost predicate Copies(c: Config, states: seq<NodeState>) {
    && (forall n, u :: 0 <= n < |states| && u in states[n].known ==> IsCopy(c, states, states[n].known[u]))
    && (forall n, i :: 0 <= n < |states| && states[n].temp.Some? && 0 <= i < |states[n].temp.value| ==>
         IsCopy(c, states, states[n].temp.value[i]))
  }

  ghost predicate NodesOk(c: Config, states: seq<NodeState>) {
    |states| == c.numNodes && forall n :: 0 <= n < |states| ==> NodeOk(c, n, states[n])
  }

  // ----- one node: what is kept -----

  lemma {:induction false} WithoutIs(messages: seq<nat>, uuid: nat)
    ensures multiset(Without(messages, uuid)) == multiset(messages) - multiset{uuid}
    ensures forall u :: u in Without(messages, uuid) ==> u in messages
    decreases |messages|
  {
    if messages != [] {
      assert messages == messages[..|messages| - 1] + [messages[|messages| - 1]];
      WithoutIs(messages[..|messages| - 1], uuid);
    }
  }

  lemma CreateKeeps(c: Config, id: nat, st: NodeState, time: int)
    requires NodeOk(c, id, st) && st.nextMessageId < c.maxMessages && Uuid(c, id, st.nextMessageId) !in st.known
    ensures var st' := Create(c, id, st, time);
      && NodeOk(c, id, st')
      && st'.known
        == st.known[Uuid(c, id, st.nextMessageId) := Message(Uuid(c, id, st.nextMessageId), id, 0, time, true)]
  {
    var uuid := Uuid(c, id, st.nextMessageId);
    var st' := Create(c, id, st, time);
    assert multiset(st'.messages) == multiset(st.messages) + multiset{uuid};
    forall k | 0 <= k < st'.nextMessageId
      ensures Uuid(c, id, k) in st'.known && st'.known[Uuid(c, id, k)].sender == id
    {
    }
  }

  /** What is known stays as it is: the latency is that of the first receipt. */
  predicate Grows(st: NodeState, st': NodeState) {
    && st'.nextMessageId >= st.nextMessageId
    && forall u :: u in st.known ==> u in st'.known && st'.known[u] == st.known[u]
  }

  lemma ReceiveOk(c: Config, id: nat, st: NodeState, m: Message, time: int)
    requires NodeOk(c, id, st) && (m.sender == id ==> m.uuid in st.known)
    ensures NodeOk(c, id, Receive(st, m, time))
  {
    hide Without, Uuid, ListedOnce;
    MovedToEnd(st.messages, m.uuid);
  }

  lemma ReceiveKeeps(c: Config, id: nat, st: NodeState, m: Message, time: int)
    requires NodeOk(c, id, st) && (m.sender == id ==> m.uuid in st.known)
    ensures var st' := Receive(st, m, time);
      && NodeOk(c, id, st') && Grows(st, st') && m.uuid in st'.known && st'.messages[|st'.messages| - 1] == m.uuid
      && (forall u :: u in st'.known ==> u in st.known || u == m.uuid)
      && (m.uuid !in st.known
          ==> st'.known[m.uuid] == Message(m.uuid, m.sender, time - m.creationTime, m.creationTime, false))
      && st'.nextMessageId == st.nextMessageId && st'.temp == st.temp
  {
    hide Without, NodeOk;
    ReceiveOk(c, id, st, m, time);
  }

  /** A list without duplicates in which one element is moved, or put, at the end. */
  lemma MovedToEnd(messages: seq<nat>, u: nat)
    requires ListedOnce(messages)
    ensures var all := (if u in messages then Without(messages, u) else messages) + [u];
      ListedOnce(all) && forall v :: v in all <==> v in messages || v == u
  {
    hide Without;
    WithoutIs(messages, u);
    var rest := if u in messages then Without(messages, u) else messages;
    assert u !in messages ==> multiset(messages) - multiset{u} == multiset(messages);
    assert multiset(rest + [u]) == multiset(rest) + multiset{u};
    forall v
      ensures v in rest + [u] <==> v in messages || v == u
    {
      assert v in rest + [u] <==> multiset(rest + [u])[v] > 0;
    }
  }

  lemma {:induction false} MergeKeeps(c: Config, id: nat, st: NodeState, ms: seq<Message>, n: nat, time: int)
    requires NodeOk(c, id, st) && n <= |ms|
    requires forall i :: n <= i < |ms| && ms[i].sender == id ==> ms[i].uuid in st.known
    ensures var st' := ReceiveDownTo(st, ms, n, time);
      && NodeOk(c, id, st') && Grows(st, st') && st'.nextMessageId == st.nextMessageId && st'.temp == st.temp
      && (forall i :: n <= i < |ms| ==> ms[i].uuid in st'.known)
      && (forall u :: u in st'.known && u !in st.known ==>
           exists i :: n <= i < |ms| && NewFrom(st'.known[u], ms[i], u, time))
    decreases |ms| - n
  {
    hide NodeOk, Receive;
    if n < |ms| {
      MergeKeeps(c, id, st, ms, n + 1, time);
      var mid := ReceiveDownTo(st, ms, n + 1, time);
      ReceiveKeeps(c, id, mid, ms[n], time);
      var st' := ReceiveDownTo(st, ms, n, time);
      forall u | u in st'.known && u !in st.known
        ensures exists i :: n <= i < |ms| && NewFrom(st'.known[u], ms[i], u, time)
      {
        if u in mid.known {
          var i :| n + 1 <= i < |ms| && NewFrom(mid.known[u], ms[i], u, time);
          assert NewFrom(st'.known[u], ms[i], u, time);
        } else {
          assert NewFrom(st'.known[u], ms[n], u, time);
        }
      }
    }
  }

  /** What is kept of a message that was received at `time`. */
  predicate NewFrom(kept: Message, m: Message, u: nat, time: int) {
    m.uuid == u && kept == Message(u, m.sender, time - m.creationTime, m.creationTime, false)
  }

  // ----- all nodes -----

  /** The first `n` nodes have created their messages. */
  function Created(c: Config, states: seq<NodeState>, creates: seq<bool>, time: int, n: nat): seq<NodeState>
    requires |creates| == |states|
  {
    seq(|states|,
        i requires 0 <= i < |states| => if i < n && creates[i] then Create(c, i, states[i], time) else states[i])
  }

  /** The first `n` nodes have pushed to their partners. */
  function PushedTo(c: Config, states: seq<NodeState>, partners: seq<Option<nat>>, n: nat): (r: seq<NodeState>)
    requires n <= |partners| == |states| && PartnersOk(partners)
    ensures |r| == |states|
    decreases n
  {
    if n == 0 then states
    else
      var s := PushedTo(c, states, partners, n - 1);
      match partners[n - 1]
      case None => s
      case Some(j) => s[j := Assign(s[j], Pushed(c, n - 1, s[n - 1]))]
  }

  /** A node pushes to another one. */
  predicate PartnersOk(partners: seq<Option<nat>>) {
    forall i :: 0 <= i < |partners| && partners[i].Some? ==> partners[i].value < |partners| && partners[i].value != i
  }

  /** The first `n` nodes have merged what they were assigned, each in its shuffled order. */
  function Merged(states: seq<NodeState>, shuffles: seq<seq<Message>>, time: int, n: nat): seq<NodeState>
    requires |shuffles| == |states|
  {
    seq(|states|, i requires 0 <= i < |states| => if i < n then Merge(states[i], shuffles[i], time) else states[i])
  }

  /** The order in which a node merges is any order of what it was assigned. */
  ghost predicate ShufflesOk(states: seq<NodeState>, shuffles: seq<seq<Message>>) {
    |shuffles| == |states| && forall i :: 0 <= i < |states| && states[i].temp.Some? ==>
      multiset(shuffles[i]) == multiset(states[i].temp.value)
  }

  // ----- what a step keeps -----

  /** Numbers of different nodes do not meet. */
  lemma RangesApart(c: Config, a: nat, b: nat, i: nat, k: nat)
    requires a != b && i < c.maxMessages && k < c.maxMessages
    ensures Uuid(c, a, i) != Uuid(c, b, k)
  {
    if a < b {
      assert b * c.maxMessages >= (a + 1) * c.maxMessages;
    } else {
      assert a * c.maxMessages >= (b + 1) * c.maxMessages;
    }
  }

  /** The number of the next message of a node is not known to any node. */
  lemma NextIsFresh(c: Config, states: seq<NodeState>, id: nat, n: nat)
    requires NodesOk(c, states) && Copies(c, states) && id < |states| && n < |states|
    requires states[id].nextMessageId < c.maxMessages
    ensures Uuid(c, id, states[id].nextMessageId) !in states[n].known
  {
    var u := Uuid(c, id, states[id].nextMessageId);
    if u in states[n].known {
      var m := states[n].known[u];
      assert IsCopy(c, states, m) && NodeOk(c, n, states[n]) && NodeOk(c, m.sender, states[m.sender]);
      if m.sender != id {
        RangesApart(c, m.sender, id, u - Uuid(c, m.sender, 0), states[id].nextMessageId);
      }
      assert false;
    }
  }

  lemma CopyStays(c: Config, states: seq<NodeState>, states': seq<NodeState>, m: Message)
    requires IsCopy(c, states, m) && |states'| == |states| && Grows(states[m.sender], states'[m.sender])
    ensures IsCopy(c, states', m)
  {
  }

  ghost predicate AllGrow(states: seq<NodeState>, states': seq<NodeState>) {
    |states'| == |states| && forall n :: 0 <= n < |states| ==> Grows(states[n], states'[n])
  }

  /** The nodes that create a message have numbers left. */
  predicate MayCreate(c: Config, states: seq<NodeState>, creates: seq<bool>)
    requires |creates| == |states|
  {
    forall n :: 0 <= n < |states| && creates[n] ==> states[n].nextMessageId < c.maxMessages
  }

  predicate NothingAssigned(states: seq<NodeState>) { forall n :: 0 <= n < |states| ==> states[n].temp.None? }

  lemma NodeCreates(c: Config, states: seq<NodeState>, creates: seq<bool>, time: int, n: nat)
    requires |creates| == |states| && NodesOk(c, states) && Copies(c, states) && MayCreate(c, states, creates)
    requires NothingAssigned(states) && n < |states|
    ensures var st, st' := states[n], Created(c, states, creates, time, |states|)[n];
      var u := Uuid(c, n, st.nextMessageId);
      && NodeOk(c, n, st') && Grows(st, st') && st'.temp.None?
      && st'.known == (if creates[n] then st.known[u := Message(u, n, 0, time, true)] else st.known)
      && st'.nextMessageId == st.nextMessageId + (if creates[n] then 1 else 0)
  {
    hide NodeOk, Copies;
    assert NodeOk(c, n, states[n]);
    if creates[n] {
      NextIsFresh(c, states, n, n);
      CreateKeeps(c, n, states[n], time);
    }
  }

  lemma CreationKeeps(c: Config, states: seq<NodeState>, creates: seq<bool>, time: int)
    requires |creates| == |states| && NodesOk(c, states) && Copies(c, states) && MayCreate(c, states, creates)
    requires NothingAssigned(states)
    ensures var states' := Created(c, states, creates, time, |states|);
      && NodesOk(c, states') && Copies(c, states') && NothingAssigned(states') && AllGrow(states, states')
      && forall n, u :: 0 <= n < |states| && u in states'[n].known && u !in states[n].known ==>
           creates[n] && u == Uuid(c, n, states[n].nextMessageId) && states'[n].known[u].sender == n
  {
    hide NodeOk, Created, Grows;
    var states' := Created(c, states, creates, time, |states|);
    assert |states'| == |states| by { hide *; CreatedSize(c, states, creates, time, |states|); }
    forall n | 0 <= n < |states|
      ensures NodeOk(c, n, states'[n]) && Grows(states[n], states'[n]) && states'[n].temp.None?
    {
      NodeCreates(c, states, creates, time, n);
    }
    forall n, u | 0 <= n < |states| && u in states'[n].known
      ensures IsCopy(c, states', states'[n].known[u])
      ensures u !in states[n].known ==>
        creates[n] && u == Uuid(c, n, states[n].nextMessageId) && states'[n].known[u].sender == n
    {
      NodeCreates(c, states, creates, time, n);
      if u in states[n].known {
        assert IsCopy(c, states, states[n].known[u]);
        CopyStays(c, states, states', states[n].known[u]);
      }
    }
  }

  lemma CreatedSize(c: Config, states: seq<NodeState>, creates: seq<bool>, time: int, n: nat)
    requires |creates| == |states|
    ensures |Created(c, states, creates, time, n)| == |states|
  {
  }

  lemma {:induction false} PickedAreKnown(c: Config, id: nat, st: NodeState, later: bool, n: nat, i: nat)
    requires n <= |st.messages| && i < |Picked(c, id, st, later, n)|
    ensures var m := Picked(c, id, st, later, n)[i];
      Picks(c, id, later, m.sender) && exists u :: u in st.known && st.known[u] == m
    decreases n
  {
    var uuid := st.messages[n - 1];
    var rest := Picked(c, id, st, later, n - 1);
    if uuid in st.known && Picks(c, id, later, st.known[uuid].sender) {
      if i > 0 { PickedAreKnown(c, id, st, later, n - 1, i - 1); }
    } else {
      PickedAreKnown(c, id, st, later, n - 1, i);
    }
  }

  /** Where in the list the `i`th of the picked messages stands. */
  function Position(c: Config, id: nat, st: NodeState, later: bool, n: nat, i: nat): (k: nat)
    requires n <= |st.messages| && i < |Picked(c, id, st, later, n)|
    ensures k < n && st.messages[k] in st.known && Picked(c, id, st, later, n)[i] == st.known[st.messages[k]]
    ensures Picks(c, id, later, st.known[st.messages[k]].sender)
    decreases n
  {
    var uuid := st.messages[n - 1];
    if !(uuid in st.known && Picks(c, id, later, st.known[uuid].sender)) then Position(c, id, st, later, n - 1, i)
    else if i == 0 then n - 1
    else Position(c, id, st, later, n - 1, i - 1)
  }

  /** What is picked is newest first, and each message of the list is picked once. */
  lemma {:induction false} NewestFirst(c: Config, id: nat, st: NodeState, later: bool, n: nat, i: nat, j: nat)
    requires n <= |st.messages| && i < j < |Picked(c, id, st, later, n)|
    ensures Position(c, id, st, later, n, j) < Position(c, id, st, later, n, i)
    decreases n
  {
    hide Picks;
    var uuid := st.messages[n - 1];
    if !(uuid in st.known && Picks(c, id, later, st.known[uuid].sender)) {
      NewestFirst(c, id, st, later, n - 1, i, j);
    } else if i > 0 {
      NewestFirst(c, id, st, later, n - 1, i - 1, j - 1);
    }
  }

  /** No message that could be picked is left out. */
  lemma {:induction false} PickedHas(c: Config, id: nat, st: NodeState, later: bool, n: nat, k: nat) returns (i: nat)
    requires k < n <= |st.messages| && st.messages[k] in st.known
    requires Picks(c, id, later, st.known[st.messages[k]].sender)
    ensures i < |Picked(c, id, st, later, n)| && Position(c, id, st, later, n, i) == k
    decreases n
  {
    hide Picks;
    if k == n - 1 {
      i := 0;
    } else {
      i := PickedHas(c, id, st, later, n - 1, k);
      var uuid := st.messages[n - 1];
      if uuid in st.known && Picks(c, id, later, st.known[uuid].sender) { i := i + 1; }
    }
  }

  /** With friendships, a collaborator sends a message of another only after all its friends' messages. */
  lemma FriendsFirst(c: Config, id: nat, st: NodeState, i: nat, k: nat)
    requires TypeOf(c, id) == Collaborator && c.useFriendships
    requires i < |Pushed(c, id, st)| && TrustDistance(c, id, Pushed(c, id, st)[i].sender) == -1
    requires k < |st.messages| && st.messages[k] in st.known
    requires TrustDistance(c, id, st.known[st.messages[k]].sender) != -1
    ensures st.known[st.messages[k]] in Pushed(c, id, st)[..i]
  {
    hide Picked, Position;
    var n := |st.messages|;
    var first := Picked(c, id, st, false, n);
    if i < |first| {
      PickedAreKnown(c, id, st, false, n, i);
      assert false;
    }
    var j := PickedHas(c, id, st, false, n, k);
    assert Position(c, id, st, false, n, j) == k;
    assert Pushed(c, id, st)[..i][j] == first[j];
  }

  /** An adversary forwards messages of adversaries only. */
  predicate MayForward(c: Config, id: nat, sender: nat) {
    id == sender || TypeOf(c, id) == Collaborator || TypeOf(c, sender) == Adversary
  }

  lemma PushedAreKnown(c: Config, id: nat, st: NodeState, i: nat)
    requires i < |Pushed(c, id, st)|
    ensures var m := Pushed(c, id, st)[i]; MayForward(c, id, m.sender) && exists u :: u in st.known && st.known[u] == m
  {
    hide Picked;
    var n := |st.messages|;
    var first := Picked(c, id, st, false, n);
    if i < |first| {
      PickedAreKnown(c, id, st, false, n, i);
    } else {
      PickedAreKnown(c, id, st, true, n, i - |first|);
    }
  }

  /** In this step `f` pushes to `n`, and the message is among what it pushes. */
  ghost predicate Sends(c: Config, created: seq<NodeState>, partners: seq<Option<nat>>, f: nat, n: nat, u: nat) {
    f < |created| && f < |partners| && partners[f] == Some(n)
      && exists m :: m in Pushed(c, f, created[f]) && m.uuid == u
  }

  ghost predicate SentTo(c: Config, created: seq<NodeState>, partners: seq<Option<nat>>, n: nat, u: nat) {
    exists f :: Sends(c, created, partners, f, n, u)
  }

  /** What a node has been assigned was pushed to it. */
  ghost predicate Assigned(c: Config, created: seq<NodeState>, partners: seq<Option<nat>>, states: seq<NodeState>) {
    forall n, i :: 0 <= n < |states| && states[n].temp.Some? && 0 <= i < |states[n].temp.value| ==>
      SentTo(c, created, partners, n, states[n].temp.value[i].uuid)
  }

  /** Only what is assigned differs. */
  predicate SameBut(states: seq<NodeState>, states': seq<NodeState>) {
    |states'| == |states| && forall n :: 0 <= n < |states| ==> states'[n] == states[n].(temp := states'[n].temp)
  }

  lemma {:induction false} PushingKeeps(c: Config, created: seq<NodeState>, partners: seq<Option<nat>>, n: nat)
    requires n <= |partners| == |created| && PartnersOk(partners) && NodesOk(c, created) && Copies(c, created)
    requires NothingAssigned(created)
    ensures var states := PushedTo(c, created, partners, n);
      SameBut(created, states) && Copies(c, states) && Assigned(c, created, partners, states)
    decreases n
  {
    hide NodeOk, IsCopy, SentTo;
    if n > 0 {
      PushingKeeps(c, created, partners, n - 1);
      var s := PushedTo(c, created, partners, n - 1);
      if partners[n - 1].Some? {
        AreByName(c, n - 1, created[n - 1]);
        OnePush(c, created, partners, s, n - 1, partners[n - 1].value);
      }
    }
  }

  lemma OnePush(c: Config, created: seq<NodeState>, partners: seq<Option<nat>>, s: seq<NodeState>, i: nat, j: nat)
    requires i < |s| && j < |s| == |partners| && partners[i] == Some(j) && KnownByName(s[i])
    requires SameBut(created, s) && Copies(c, s) && Assigned(c, created, partners, s)
    ensures var s' := s[j := Assign(s[j], Pushed(c, i, s[i]))];
      SameBut(created, s') && Copies(c, s') && Assigned(c, created, partners, s')
  {
    hide Pushed, IsCopy, SentTo;
    var ms := Pushed(c, i, s[i]);
    var s' := s[j := Assign(s[j], ms)];
    var before := if s[j].temp.Some? then s[j].temp.value else [];
    assert s'[j].temp.value == before + ms;
    forall n, k | 0 <= n < |s'| && s'[n].temp.Some? && 0 <= k < |s'[n].temp.value|
      ensures IsCopy(c, s', s'[n].temp.value[k]) && SentTo(c, created, partners, n, s'[n].temp.value[k].uuid)
    {
      var m := s'[n].temp.value[k];
      if n == j && k >= |before| {
        PushedIsCopy(c, s, i, k - |before|);
        PushedWithoutTemp(c, i, created[i], s[i]);
        IsSent(c, created, partners, i, j, m);
      } else {
        assert s[n].temp.Some? && s[n].temp.value[k] == m;
      }
      OtherTemp(c, s, s', m);
    }
    forall n, u | 0 <= n < |s'| && u in s'[n].known
      ensures IsCopy(c, s', s'[n].known[u])
    {
      assert IsCopy(c, s, s[n].known[u]);
      OtherTemp(c, s, s', s[n].known[u]);
    }
  }

  lemma IsSent(c: Config, created: seq<NodeState>, partners: seq<Option<nat>>, f: nat, n: nat, m: Message)
    requires f < |created| && f < |partners| && partners[f] == Some(n) && m in Pushed(c, f, created[f])
    ensures SentTo(c, created, partners, n, m.uuid)
  {
    hide Pushed;
    assert Sends(c, created, partners, f, n, m.uuid);
  }

  /** What a node has been assigned has no part in what it pushes. */
  lemma PushedWithoutTemp(c: Config, id: nat, st: NodeState, st': NodeState)
    requires st' == st.(temp := st'.temp)
    ensures Pushed(c, id, st') == Pushed(c, id, st)
  {
    hide Picked;
    PickedWithoutTemp(c, id, st, st', false, |st.messages|);
    PickedWithoutTemp(c, id, st, st', true, |st.messages|);
  }

  lemma {:induction false} PickedWithoutTemp(c: Config, id: nat, st: NodeState, st': NodeState, later: bool, n: nat)
    requires st' == st.(temp := st'.temp) && n <= |st.messages|
    ensures Picked(c, id, st', later, n) == Picked(c, id, st, later, n)
    decreases n
  {
    hide Picks;
    if n > 0 {
      PickedWithoutTemp(c, id, st, st', later, n - 1);
    }
  }

  lemma AreByName(c: Config, id: nat, st: NodeState)
    requires NodeOk(c, id, st)
    ensures KnownByName(st)
  {
  }

  predicate KnownByName(st: NodeState) { forall u :: u in st.known ==> st.known[u].uuid == u }

  lemma PushedIsCopy(c: Config, s: seq<NodeState>, i: nat, k: nat)
    requires i < |s| && Copies(c, s) && k < |Pushed(c, i, s[i])|
    ensures IsCopy(c, s, Pushed(c, i, s[i])[k])
  {
    hide Pushed, IsCopy;
    PushedAreKnown(c, i, s[i], k);
  }

  lemma OtherTemp(c: Config, s: seq<NodeState>, s': seq<NodeState>, m: Message)
    requires SameBut(s, s')
    ensures IsCopy(c, s', m) == IsCopy(c, s, m)
  {
  }

  /** All assigned messages but at most one are known afterwards. */
  ghost predicate TakesIn(st: NodeState, st': NodeState) {
    st.temp.Some? && st.temp.value != [] ==>
      exists left :: left in st.temp.value && KnowsBut(st', st.temp.value, left)
  }

  predicate KnowsBut(st: NodeState, ms: seq<Message>, left: Message) {
    forall m :: m in multiset(ms) - multiset{left} ==> m.uuid in st.known
  }

  lemma NodeMerges(c: Config, created: seq<NodeState>, partners: seq<Option<nat>>, states: seq<NodeState>,
                   shuffled: seq<Message>, time: int, n: nat)
    requires NodesOk(c, states) && Copies(c, states) && Assigned(c, created, partners, states) && n < |states|
    requires states[n].temp.Some? ==> multiset(shuffled) == multiset(states[n].temp.value)
    ensures var st, st' := states[n], Merge(states[n], shuffled, time);
      && NodeOk(c, n, st') && Grows(st, st') && st'.temp.None? && st'.nextMessageId == st.nextMessageId
      && TakesIn(st, st')
      && forall u :: u in st'.known && u !in st.known ==>
           st'.known[u].uuid == u && IsCopy(c, states, st'.known[u]) && SentTo(c, created, partners, n, u)
  {
    hide NodeOk, IsCopy, ReceiveDownTo, SentTo, Copies, Assigned;
    var st := states[n];
    var st' := Merge(st, shuffled, time);
    assert NodeOk(c, n, st);
    if st.temp.None? || shuffled == [] {
      assert st.temp.Some? ==> multiset(st.temp.value) == multiset([]);
      TempIsNoPart(c, n, st);
    } else {
      forall i | 0 <= i < |shuffled|
        ensures IsCopy(c, states, shuffled[i]) && SentTo(c, created, partners, n, shuffled[i].uuid)
        ensures shuffled[i].sender == n ==> shuffled[i].uuid in st.known
      {
        AssignedIs(c, created, partners, states, n, shuffled, i);
      }
      var merged := ReceiveDownTo(st, shuffled, 1, time);
      MergeKeeps(c, n, st, shuffled, 1, time);
      TempIsNoPart(c, n, merged);
      forall u | u in st'.known && u !in st.known
        ensures st'.known[u].uuid == u && IsCopy(c, states, st'.known[u]) && SentTo(c, created, partners, n, u)
      {
        var i :| 1 <= i < |shuffled| && NewFrom(merged.known[u], shuffled[i], u, time);
        SameOrigin(c, states, shuffled[i], st'.known[u]);
      }
      AllButOne(st, st', shuffled);
    }
  }

  lemma AllButOne(st: NodeState, st': NodeState, shuffled: seq<Message>)
    requires st.temp.Some? && multiset(shuffled) == multiset(st.temp.value) && shuffled != []
    requires forall i :: 1 <= i < |shuffled| ==> shuffled[i].uuid in st'.known
    ensures TakesIn(st, st')
  {
    assert shuffled == [shuffled[0]] + shuffled[1..];
    assert shuffled[0] in multiset(shuffled);
    assert multiset(shuffled) - multiset{shuffled[0]} == multiset(shuffled[1..]);
    assert KnowsBut(st', st.temp.value, shuffled[0]);
  }

  lemma TempIsNoPart(c: Config, id: nat, st: NodeState)
    requires NodeOk(c, id, st)
    ensures NodeOk(c, id, st.(temp := None))
  {
  }

  lemma AssignedIs(c: Config, created: seq<NodeState>, partners: seq<Option<nat>>, states: seq<NodeState>, n: nat,
                   shuffled: seq<Message>, i: nat)
    requires Copies(c, states) && Assigned(c, created, partners, states) && n < |states| && states[n].temp.Some?
    requires multiset(shuffled) == multiset(states[n].temp.value) && i < |shuffled|
    ensures IsCopy(c, states, shuffled[i]) && SentTo(c, created, partners, n, shuffled[i].uuid)
    ensures shuffled[i].sender == n ==> shuffled[i].uuid in states[n].known
  {
    hide SentTo;
    assert shuffled[i] in multiset(shuffled);
    var j :| 0 <= j < |states[n].temp.value| && states[n].temp.value[j] == shuffled[i];
    assert IsCopy(c, states, states[n].temp.value[j]);
  }

  lemma SameOrigin(c: Config, states: seq<NodeState>, m: Message, kept: Message)
    requires IsCopy(c, states, m) && kept.uuid == m.uuid && kept.sender == m.sender
    requires kept.creationTime == m.creationTime
    ensures IsCopy(c, states, kept)
  {
  }

  lemma MergingKeeps(c: Config, created: seq<NodeState>, partners: seq<Option<nat>>, states: seq<NodeState>,
                     shuffles: seq<seq<Message>>, time: int)
    requires NodesOk(c, states) && Copies(c, states) && Assigned(c, created, partners, states)
    requires ShufflesOk(states, shuffles)
    ensures var states' := Merged(states, shuffles, time, |states|);
      && NodesOk(c, states') && Copies(c, states') && NothingAssigned(states') && AllGrow(states, states')
      && (forall n :: 0 <= n < |states| ==>
           TakesIn(states[n], states'[n]) && states'[n].nextMessageId == states[n].nextMessageId)
      && forall n, u :: 0 <= n < |states| && u in states'[n].known && u !in states[n].known ==>
          SentTo(c, created, partners, n, u)
  {
    hide NodeOk, Merge, TakesIn, Grows, SentTo, IsCopy;
    var states' := Merged(states, shuffles, time, |states|);
    forall n | 0 <= n < |states|
      ensures NodeOk(c, n, states'[n]) && Grows(states[n], states'[n]) && states'[n].temp.None?
      ensures TakesIn(states[n], states'[n])
      ensures states'[n].nextMessageId == states[n].nextMessageId
    {
      NodeMerges(c, created, partners, states, shuffles[n], time, n);
    }
    forall n, u | 0 <= n < |states| && u in states'[n].known
      ensures IsCopy(c, states', states'[n].known[u])
      ensures u !in states[n].known ==> SentTo(c, created, partners, n, u)
    {
      NodeMerges(c, created, partners, states, shuffles[n], time, n);
      KnownStays(states[n], states'[n], u);
      if u in states[n].known { assert IsCopy(c, states, states[n].known[u]); }
      SenderIsNode(c, states, states'[n].known[u]);
      CopyStays(c, states, states', states'[n].known[u]);
    }
  }

  lemma KnownStays(st: NodeState, st': NodeState, u: nat)
    requires Grows(st, st')
    ensures u in st.known ==> u in st'.known && st'.known[u] == st.known[u]
  {
  }

  lemma SenderIsNode(c: Config, states: seq<NodeState>, m: Message)
    requires IsCopy(c, states, m)
    ensures m.sender < |states|
  {
  }

  // ----- steps and runs -----

  /** What chance decides in a step: who creates a message, who pushes to whom, in what order nodes merge. */
  datatype Choices = Choices(time: int, creates: seq<bool>, partners: seq<Option<nat>>, shuffles: seq<seq<Message>>)

  predicate ChoicesFit(c: Config, ch: Choices) {
    |ch.creates| == |ch.partners| == |ch.shuffles| == c.numNodes && PartnersOk(ch.partners)
  }

  function AfterCreation(c: Config, states: seq<NodeState>, ch: Choices): (r: seq<NodeState>)
    requires |states| == c.numNodes && ChoicesFit(c, ch)
    ensures |r| == |states|
  {
    Created(c, states, ch.creates, ch.time, |states|)
  }

  /** The nodes after they have created and pushed messages. */
  function AfterPushing(c: Config, states: seq<NodeState>, ch: Choices): (r: seq<NodeState>)
    requires |states| == c.numNodes && ChoicesFit(c, ch)
    ensures |r| == |states|
  {
    PushedTo(c, AfterCreation(c, states, ch), ch.partners, |states|)
  }

  /** `MessageModel::think` */
  function Think(c: Config, states: seq<NodeState>, ch: Choices): (r: seq<NodeState>)
    requires |states| == c.numNodes && ChoicesFit(c, ch)
    ensures |r| == |states|
  {
    Merged(AfterPushing(c, states, ch), ch.shuffles, ch.time, |states|)
  }

  /** The invariant between two steps. */
  ghost predicate Inv(c: Config, states: seq<NodeState>) {
    NodesOk(c, states) && Copies(c, states) && NothingAssigned(states)
  }

  /** The node creates the message in the step. */
  predicate Creates(c: Config, states: seq<NodeState>, ch: Choices, n: nat, u: nat) {
    n < |states| && n < |ch.creates| && ch.creates[n] && u == Uuid(c, n, states[n].nextMessageId)
  }

  /** How a node comes to know a message in a step: it has created it, or was sent it. */
  ghost predicate Learned(c: Config, states: seq<NodeState>, ch: Choices, states': seq<NodeState>)
    requires |states| == c.numNodes && ChoicesFit(c, ch)
  {
    |states'| == |states| && forall n, u :: 0 <= n < |states| && u in states'[n].known && u !in states[n].known ==>
      || (Creates(c, states, ch, n, u) && states'[n].known[u].sender == n)
      || SentTo(c, AfterCreation(c, states, ch), ch.partners, n, u)
  }

  /** What is known in the middle of a step was known before or is created in the step, and stays known. */
  ghost predicate KnownMidway(c: Config, states: seq<NodeState>, ch: Choices, states': seq<NodeState>)
    requires |states| == c.numNodes && ChoicesFit(c, ch)
  {
    var created := AfterCreation(c, states, ch);
    && NodesOk(c, created) && AllGrow(created, states')
    && forall n, u :: 0 <= n < |states| && u in created[n].known ==>
        u in states[n].known || Creates(c, states, ch, n, u)
  }

  lemma InitOk(c: Config)
    ensures Inv(c, seq(c.numNodes, _ => NEW_NODE))
  {
  }

  lemma ThinkKeeps(c: Config, states: seq<NodeState>, ch: Choices)
    requires Inv(c, states) && ChoicesFit(c, ch) && MayCreate(c, states, ch.creates)
    requires ShufflesOk(AfterPushing(c, states, ch), ch.shuffles)
    ensures var states' := Think(c, states, ch);
      Inv(c, states') && AllGrow(states, states') && Learned(c, states, ch, states')
    ensures KnownMidway(c, states, ch, Think(c, states, ch))
  {
    hide NodeOk, Created, PushedTo, Merged, Copies, Assigned, Grows, ShufflesOk, SentTo, TakesIn;
    var created := AfterCreation(c, states, ch);
    CreationKeeps(c, states, ch.creates, ch.time);
    PushingKeeps(c, created, ch.partners, |states|);
    var pushed := AfterPushing(c, states, ch);
    PushedNodesOk(c, created, pushed);
    MergingKeeps(c, created, ch.partners, pushed, ch.shuffles, ch.time);
    var states' := Think(c, states, ch);
    forall n | 0 <= n < |states|
      ensures Grows(states[n], states'[n]) && Grows(created[n], states'[n])
    {
      GrowsTwice(states[n], created[n], pushed[n], states'[n]);
      GrowsItself(created[n]);
      GrowsTwice(created[n], created[n], pushed[n], states'[n]);
    }
    forall n, u | 0 <= n < |states| && u in states'[n].known && u !in states[n].known && u in pushed[n].known
      ensures Creates(c, states, ch, n, u) && states'[n].known[u].sender == n
    {
      assert pushed[n].known == created[n].known;
      KnownStays(pushed[n], states'[n], u);
    }
  }

  lemma GrowsItself(st: NodeState)
    ensures Grows(st, st)
  {
  }

  lemma GrowsTwice(a: NodeState, b: NodeState, b': NodeState, d: NodeState)
    requires Grows(a, b) && b' == b.(temp := b'.temp) && Grows(b', d)
    ensures Grows(a, d)
  {
  }

  lemma PushedNodesOk(c: Config, created: seq<NodeState>, pushed: seq<NodeState>)
    requires NodesOk(c, created) && SameBut(created, pushed)
    ensures NodesOk(c, pushed)
  {
  }

  /** A step of all nodes. */
  ghost predicate StepsBy(c: Config, s: seq<NodeState>, s': seq<NodeState>, ch: Choices)
    requires |s| == c.numNodes
  {
    ChoicesFit(c, ch) && MayCreate(c, s, ch.creates) && ShufflesOk(AfterPushing(c, s, ch), ch.shuffles)
      && s' == Think(c, s, ch)
  }

  /** A run begins with new nodes; `chs` are the choices of its steps.  Nodes do not run out of numbers. */
  ghost predicate IsRun(c: Config, run: seq<seq<NodeState>>, chs: seq<Choices>) {
    && |run| == |chs| + 1 && run[0] == seq(c.numNodes, _ => NEW_NODE)
    && (forall t :: 0 <= t < |run| ==> |run[t]| == c.numNodes)
    && forall t :: 0 <= t < |chs| ==> StepsBy(c, run[t], run[t + 1], chs[t])
  }

  /** Every state of a run has the invariant. */
  lemma {:induction false} RunKeeps(c: Config, run: seq<seq<NodeState>>, chs: seq<Choices>, t: nat)
    requires IsRun(c, run, chs) && t < |run|
    ensures Inv(c, run[t])
    ensures t > 0 ==> Inv(c, run[t - 1]) && AllGrow(run[t - 1], run[t]) && ChoicesFit(c, chs[t - 1])
    ensures t > 0 ==> Learned(c, run[t - 1], chs[t - 1], run[t]) && KnownMidway(c, run[t - 1], chs[t - 1], run[t])
    decreases t
  {
    hide Inv, AllGrow, Learned, KnownMidway, Think, MayCreate, ShufflesOk, AfterPushing;
    if t == 0 {
      InitOk(c);
    } else {
      RunKeeps(c, run, chs, t - 1);
      assert StepsBy(c, run[t - 1], run[t - 1 + 1], chs[t - 1]);
      ThinkKeeps(c, run[t - 1], chs[t - 1]);
    }
  }

  /** What a node has known at one time it knows at all later times, and with the same latency. */
  lemma {:induction false} NothingIsForgotten(c: Config, run: seq<seq<NodeState>>, chs: seq<Choices>, t: nat, t': nat,
                                              n: nat, u: nat)
    requires IsRun(c, run, chs) && t <= t' < |run| && n < c.numNodes && u in run[t][n].known
    ensures u in run[t'][n].known && run[t'][n].known[u] == run[t][n].known[u]
    decreases t' - t
  {
    hide Inv, StepsBy, Learned, KnownMidway;
    if t < t' {
      NothingIsForgotten(c, run, chs, t, t' - 1, n, u);
      RunKeeps(c, run, chs, t');
      assert Grows(run[t' - 1][n], run[t'][n]);
    }
  }

  // ----- how messages spread -----

  /** In step `step` node `from` pushes to node `to`. */
  datatype Hop = Hop(step: nat, from: nat, to: nat)

  /** The hop is one of the run, and carries the message. */
  ghost predicate IsHop(c: Config, run: seq<seq<NodeState>>, chs: seq<Choices>, h: Hop, u: nat)
    requires IsRun(c, run, chs)
  {
    && h.step < |chs| && h.from < c.numNodes && h.to < c.numNodes
    && ChoicesFit(c, chs[h.step])
    && Sends(c, AfterCreation(c, run[h.step], chs[h.step]), chs[h.step].partners, h.from, h.to, u)
  }

  /** A way of the message: each hop starts where the one before it ended. */
  ghost predicate IsPath(c: Config, run: seq<seq<NodeState>>, chs: seq<Choices>, path: seq<Hop>, u: nat)
    requires IsRun(c, run, chs)
  {
    && (forall i :: 0 <= i < |path| ==> IsHop(c, run, chs, path[i], u))
    && (forall i :: 0 <= i < |path| - 1 ==> path[i].to == path[i + 1].from)
  }

  predicate Leads(path: seq<Hop>, from: nat, to: nat) {
    if path == [] then from == to else path[0].from == from && path[|path| - 1].to == to
  }

  /** A message has one sender, whichever copies are compared, at whatever times. */
  lemma OneSender(c: Config, run: seq<seq<NodeState>>, chs: seq<Choices>, t: nat, n: nat, t': nat, n': nat, u: nat)
    requires IsRun(c, run, chs) && t < |run| && t' < |run| && n < c.numNodes && n' < c.numNodes
    requires u in run[t][n].known && u in run[t'][n'].known
    ensures run[t][n].known[u].sender == run[t'][n'].known[u].sender
  {
    hide IsRun, Uuid;
    OwnRange(c, run, chs, t, n, u);
    OwnRange(c, run, chs, t', n', u);
    InOneRange(c, run[t][n].known[u].sender, run[t'][n'].known[u].sender, u);
  }

  lemma InOneRange(c: Config, a: nat, b: nat, u: nat)
    requires Uuid(c, a, 0) <= u < Uuid(c, a, 0) + c.maxMessages && Uuid(c, b, 0) <= u < Uuid(c, b, 0) + c.maxMessages
    ensures a == b
  {
    if a != b {
      RangesApart(c, a, b, u - Uuid(c, a, 0), u - Uuid(c, b, 0));
    }
  }

  /** The number of a message says who has created it. */
  lemma OwnRange(c: Config, run: seq<seq<NodeState>>, chs: seq<Choices>, t: nat, n: nat, u: nat)
    requires IsRun(c, run, chs) && t < |run| && n < c.numNodes
    ensures |run[t]| == c.numNodes
    ensures u in run[t][n].known ==>
      var a := run[t][n].known[u].sender; Uuid(c, a, 0) <= u < Uuid(c, a, 0) + c.maxMessages
  {
    hide StepsBy, Learned, KnownMidway;
    RunKeeps(c, run, chs, t);
    if u in run[t][n].known {
      CopyInRange(c, run[t], n, u);
    }
  }

  lemma CopyInRange(c: Config, states: seq<NodeState>, n: nat, u: nat)
    requires Inv(c, states) && n < |states| && u in states[n].known
    ensures var a := states[n].known[u].sender; Uuid(c, a, 0) <= u < Uuid(c, a, 0) + c.maxMessages
  {
    assert IsCopy(c, states, states[n].known[u]);
    assert NodeOk(c, n, states[n]);
    var a := states[n].known[u].sender;
    assert NodeOk(c, a, states[a]);
  }

  /** What a hop carries the forwarder had at the start of the step, or has created in it. */
  lemma HopCarries(c: Config, run: seq<seq<NodeState>>, chs: seq<Choices>, h: Hop, u: nat) returns (m: Message)
    requires IsRun(c, run, chs) && IsHop(c, run, chs, h, u)
    ensures h.from != h.to && m.uuid == u && m in Pushed(c, h.from, AfterCreation(c, run[h.step], chs[h.step])[h.from])
    ensures u in run[h.step + 1][h.from].known && run[h.step + 1][h.from].known[u].sender == m.sender
    ensures u in run[h.step][h.from].known || Creates(c, run[h.step], chs[h.step], h.from, u)
  {
    hide Pushed, Copies, StepsBy;
    RunKeeps(c, run, chs, h.step + 1);
    var created := AfterCreation(c, run[h.step], chs[h.step]);
    m :| m in Pushed(c, h.from, created[h.from]) && m.uuid == u;
    var i :| 0 <= i < |Pushed(c, h.from, created[h.from])| && Pushed(c, h.from, created[h.from])[i] == m;
    PushedAreKnown(c, h.from, created[h.from], i);
  }

  /**
   A way of hops by which a node has got a message by time `t`: each has brought it to a node that did
   not have it.
   */
  ghost predicate BroughtBy(c: Config, run: seq<seq<NodeState>>, chs: seq<Choices>, path: seq<Hop>, u: nat, sender: nat,
                            n: nat, t: nat)
    requires IsRun(c, run, chs)
  {
    && IsPath(c, run, chs, path, u) && Leads(path, sender, n)
    && forall i :: 0 <= i < |path| ==> path[i].step < t && Brings(run, path[i], u)
  }

  predicate Brings(run: seq<seq<NodeState>>, h: Hop, u: nat) {
    && h.step + 1 < |run| && h.to < |run[h.step]| && h.to < |run[h.step + 1]|
    && u !in run[h.step][h.to].known && u in run[h.step + 1][h.to].known
  }

  lemma OneMoreHop(c: Config, run: seq<seq<NodeState>>, chs: seq<Choices>, path: seq<Hop>, u: nat, sender: nat, h: Hop)
    requires IsRun(c, run, chs) && BroughtBy(c, run, chs, path, u, sender, h.from, h.step)
    requires IsHop(c, run, chs, h, u) && Brings(run, h, u)
    ensures BroughtBy(c, run, chs, path + [h], u, sender, h.to, h.step + 1)
  {
    hide IsHop, IsRun, Brings;
  }

  /** A message that is new to a node it has created, or a hop has brought it. */
  lemma LastHop(c: Config, run: seq<seq<NodeState>>, chs: seq<Choices>, t: nat, n: nat, u: nat) returns (f: nat)
    requires IsRun(c, run, chs) && 0 < t < |run| && n < c.numNodes && u in run[t][n].known && u !in run[t - 1][n].known
    ensures run[t][n].known[u].sender == n
      || (f < c.numNodes && IsHop(c, run, chs, Hop(t - 1, f, n), u) && Brings(run, Hop(t - 1, f, n), u))
  {
    hide StepsBy, Copies, NodeOk, Sends, KnownMidway;
    RunKeeps(c, run, chs, t);
    f := 0;
    if run[t][n].known[u].sender != n {
      f :| Sends(c, AfterCreation(c, run[t - 1], chs[t - 1]), chs[t - 1].partners, f, n, u);
      SenderIsThere(c, AfterCreation(c, run[t - 1], chs[t - 1]), chs[t - 1].partners, f, n, u);
    }
  }

  lemma SenderIsThere(c: Config, created: seq<NodeState>, partners: seq<Option<nat>>, f: nat, n: nat, u: nat)
    requires Sends(c, created, partners, f, n, u)
    ensures f < |created|
  {
  }

  /** A node that has created a message in a step is its sender. */
  lemma CreatorIsSender(c: Config, run: seq<seq<NodeState>>, chs: seq<Choices>, h: Hop, u: nat)
    requires IsRun(c, run, chs) && h.step < |chs| && h.from < c.numNodes && u in run[h.step + 1][h.from].known
    requires Creates(c, run[h.step], chs[h.step], h.from, u)
    ensures run[h.step + 1][h.from].known[u].sender == h.from
  {
    hide StepsBy, Learned, KnownMidway;
    OwnRange(c, run, chs, h.step + 1, h.from, u);
    MayCreateNow(c, run, chs, h.step, h.from);
    InOneRange(c, run[h.step + 1][h.from].known[u].sender, h.from, u);
  }

  lemma MayCreateNow(c: Config, run: seq<seq<NodeState>>, chs: seq<Choices>, t: nat, n: nat)
    requires IsRun(c, run, chs) && t < |chs| && n < c.numNodes
    ensures |run[t]| == c.numNodes && ChoicesFit(c, chs[t])
    ensures (chs[t].creates[n] ==> run[t][n].nextMessageId < c.maxMessages)
  {
    hide ShufflesOk, Think, AfterPushing;
    assert StepsBy(c, run[t], run[t + 1], chs[t]);
  }

  /**
   Every known message that a node has not created has come to it on a way of hops of the run that begins
   at its sender.
   */
  lemma {:induction false} RelayPath(c: Config, run: seq<seq<NodeState>>, chs: seq<Choices>, t: nat, n: nat, u: nat)
    returns (path: seq<Hop>)
    requires IsRun(c, run, chs) && t < |run| && n < c.numNodes && u in run[t][n].known
    ensures BroughtBy(c, run, chs, path, u, run[t][n].known[u].sender, n, t)
    decreases t
  {
    hide StepsBy, Copies, NodeOk, Sends, Learned, KnownMidway, Creates, Brings, IsHop;
    RunKeeps(c, run, chs, t);
    var sender := run[t][n].known[u].sender;
    if u in run[t - 1][n].known {
      assert Grows(run[t - 1][n], run[t][n]);
      path := RelayPath(c, run, chs, t - 1, n, u);
      return;
    }
    var f := LastHop(c, run, chs, t, n, u);
    if sender == n {
      path := [];
      return;
    }
    var h := Hop(t - 1, f, n);
    var carried := HopCarries(c, run, chs, h, u);
    OneSender(c, run, chs, t, n, t, f, u);
    if u in run[t - 1][f].known {
      OneSender(c, run, chs, t, n, t - 1, f, u);
      path := RelayPath(c, run, chs, t - 1, f, u);
    } else {
      CreatorIsSender(c, run, chs, h, u);
      path := [];
    }
    OneMoreHop(c, run, chs, path, u, sender, h);
    path := path + [h];
  }

  /** A node that a hop has brought the message sends it on only in a later step. */
  lemma HopsRise(c: Config, run: seq<seq<NodeState>>, chs: seq<Choices>, h: Hop, h': Hop, u: nat)
    requires IsRun(c, run, chs) && IsHop(c, run, chs, h, u) && IsHop(c, run, chs, h', u)
    requires h.to == h'.from && Brings(run, h, u)
    ensures h.step < h'.step
  {
    hide StepsBy, Sends, NodeOk, Creates, Pushed;
    var m := HopCarries(c, run, chs, h, u);
    var m' := HopCarries(c, run, chs, h', u);
    if h'.step < h.step {
      NothingIsForgotten(c, run, chs, h'.step + 1, h.step, h.to, u);
    } else if Creates(c, run[h'.step], chs[h'.step], h.to, u) {
      CreatorHasIt(c, run, chs, h, h', u);
    }
  }

  /** The forwarder of a hop does not get the message from another node before it creates it. */
  lemma CreatorHasIt(c: Config, run: seq<seq<NodeState>>, chs: seq<Choices>, h: Hop, h': Hop, u: nat)
    requires IsRun(c, run, chs) && IsHop(c, run, chs, h, u) && IsHop(c, run, chs, h', u)
    requires h.to == h'.from && h.step <= h'.step
    ensures !Creates(c, run[h'.step], chs[h'.step], h.to, u)
  {
    hide StepsBy, Sends, NodeOk, Uuid, Pushed, Copies;
    if Creates(c, run[h'.step], chs[h'.step], h.to, u) {
      var m := HopCarries(c, run, chs, h, u);
      var m' := HopCarries(c, run, chs, h', u);
      CreatorIsSender(c, run, chs, h', u);
      OneSender(c, run, chs, h.step + 1, h.from, h'.step + 1, h.to, u);
      if u in run[h.step][h.from].known {
        NothingIsForgotten(c, run, chs, h.step, h'.step, h.from, u);
        RunKeeps(c, run, chs, h'.step);
        MayCreateNow(c, run, chs, h'.step, h.to);
        NextIsFresh(c, run[h'.step], h.to, h.from);
      } else {
        CreatorIsSender(c, run, chs, h, u);
      }
    }
  }

  lemma PathRises(c: Config, run: seq<seq<NodeState>>, chs: seq<Choices>, path: seq<Hop>, u: nat)
    requires IsRun(c, run, chs) && IsPath(c, run, chs, path, u) && AllBring(run, path, u)
    ensures Rises(path)
  {
    hide IsRun, IsHop, Brings;
    forall i | 0 <= i < |path| - 1
      ensures path[i].step < path[i + 1].step
    {
      HopsRise(c, run, chs, path[i], path[i + 1], u);
    }
  }

  predicate AllBring(run: seq<seq<NodeState>>, path: seq<Hop>, u: nat) {
    forall i :: 0 <= i < |path| ==> Brings(run, path[i], u)
  }

  /**
   On any way of hops that have brought the message, it makes at most one hop a step, and none before a
   node has known it.
   */
  lemma {:induction false} OneHopAStep(c: Config, run: seq<seq<NodeState>>, chs: seq<Choices>, path: seq<Hop>, u: nat,
                                       since: nat, t: nat)
    requires IsRun(c, run, chs) && IsPath(c, run, chs, path, u) && AllBring(run, path, u) && since <= t < |run|
    requires forall k :: 0 <= k < c.numNodes ==> u !in run[since][k].known
    requires forall i :: 0 <= i < |path| ==> path[i].step < t
    ensures |path| <= t - since
    decreases |path|
  {
    hide StepsBy, Sends, Creates, Brings;
    if path != [] {
      var h, before := path[|path| - 1], path[..|path| - 1];
      var m := HopCarries(c, run, chs, h, u);
      if h.step < since {
        NothingIsForgotten(c, run, chs, h.step + 1, since, h.from, u);
      }
      PathRises(c, run, chs, path, u);
      StepsRise(path);
      OneHopAStep(c, run, chs, before, u, since, h.step);
    }
  }

  predicate Rises(path: seq<Hop>) { forall i :: 0 <= i < |path| - 1 ==> path[i].step < path[i + 1].step }

  lemma {:induction false} StepsRise(path: seq<Hop>)
    requires Rises(path)
    ensures forall i :: 0 <= i < |path| - 1 ==> path[i].step < path[|path| - 1].step
    decreases |path|
  {
    if |path| > 2 {
      StepsRise(path[..|path| - 1]);
    }
  }

  /** On every way of a collaborator's message each forwarder is a collaborator: adversaries do not pick it. */
  lemma ForwardersAreCollaborators(c: Config, run: seq<seq<NodeState>>, chs: seq<Choices>, path: seq<Hop>, u: nat,
                                   t: nat, n: nat)
    requires IsRun(c, run, chs) && IsPath(c, run, chs, path, u)
    requires t < |run| && n < c.numNodes && u in run[t][n].known && TypeOf(c, run[t][n].known[u].sender) == Collaborator
    ensures forall i :: 0 <= i < |path| ==> TypeOf(c, path[i].from) == Collaborator
  {
    hide StepsBy, Pushed, Creates;
    forall i | 0 <= i < |path|
      ensures TypeOf(c, path[i].from) == Collaborator
    {
      var h := path[i];
      var m := HopCarries(c, run, chs, h, u);
      OneSender(c, run, chs, h.step + 1, h.from, t, n, u);
      var st := AfterCreation(c, run[h.step], chs[h.step])[h.from];
      var k :| 0 <= k < |Pushed(c, h.from, st)| && Pushed(c, h.from, st)[k] == m;
      PushedAreKnown(c, h.from, st, k);
    }
  }

  // ----- what a merge loses -----

  lemma {:induction false} ReceivedAre(st: NodeState, ms: seq<Message>, n: nat, time: int, u: nat)
    requires n <= |ms|
    ensures u in ReceiveDownTo(st, ms, n, time).known <==> u in st.known || exists i :: n <= i < |ms| && ms[i].uuid == u
    decreases |ms| - n
  {
    if n < |ms| {
      ReceivedAre(st, ms, n + 1, time, u);
    }
  }

  /**
   The loop of `mergeMessages` leaves out the message that comes first in the shuffled order.  It is lost
   unless it is known already or comes again.
   */
  lemma MergeTakesAll(st: NodeState, shuffled: seq<Message>, time: int)
    requires st.temp.Some?
    ensures (forall i :: 0 <= i < |shuffled| ==> shuffled[i].uuid in Merge(st, shuffled, time).known)
       <==> (|| shuffled == [] || shuffled[0].uuid in st.known
             || exists i :: 1 <= i < |shuffled| && shuffled[i].uuid == shuffled[0].uuid)
  {
    hide ReceiveDownTo;
    if shuffled != [] {
      forall i | 0 <= i < |shuffled|
        ensures shuffled[i].uuid in Merge(st, shuffled, time).known <==>
          shuffled[i].uuid in st.known || exists k :: 1 <= k < |shuffled| && shuffled[k].uuid == shuffled[i].uuid
      {
        ReceivedAre(st, shuffled, 1, time, shuffled[i].uuid);
      }
    }
  }

  /** The messages but for the one at `i`. */
  function AllBut(ms: seq<Message>, i: nat): (r: seq<Message>)
    requires i < |ms|
    ensures multiset(r) == multiset(ms) - multiset{ms[i]} && multiset([ms[i]] + r) == multiset(ms)
  {
    assert ms == ms[..i] + [ms[i]] + ms[i + 1..];
    ms[..i] + ms[i + 1..]
  }

  predicate AllKnown(st: NodeState, ms: seq<Message>) { forall i :: 0 <= i < |ms| ==> ms[i].uuid in st.known }

  /** The message at `i` is known already or assigned twice. */
  predicate Spare(st: NodeState, ms: seq<Message>, i: nat)
    requires i < |ms|
  {
    ms[i].uuid in st.known || exists k :: 0 <= k < |ms| && k != i && ms[k].uuid == ms[i].uuid
  }

  lemma OtherComes(ms: seq<Message>, shuffled: seq<Message>, i: nat, k: nat) returns (j: nat)
    requires multiset(shuffled) == multiset(ms) && shuffled != [] && i < |ms| && shuffled[0] == ms[i]
    requires k < |ms| && k != i
    ensures 1 <= j < |shuffled| && shuffled[j] == ms[k]
  {
    var rest := AllBut(ms, i);
    assert rest[if k < i then k else k - 1] == ms[k];
    assert shuffled == [shuffled[0]] + shuffled[1..];
    assert multiset(shuffled[1..]) == multiset(rest);
    assert ms[k] in multiset(shuffled[1..]);
    j :| 0 <= j < |shuffled[1..]| && shuffled[1..][j] == ms[k];
    j := j + 1;
  }

  lemma FirstIsSpare(st: NodeState, ms: seq<Message>, shuffled: seq<Message>)
    requires multiset(shuffled) == multiset(ms) && shuffled != []
    requires forall i :: 0 <= i < |ms| ==> Spare(st, ms, i)
    ensures shuffled[0].uuid in st.known || exists i :: 1 <= i < |shuffled| && shuffled[i].uuid == shuffled[0].uuid
  {
    hide AllBut;
    assert shuffled[0] in multiset(shuffled);
    var i :| 0 <= i < |ms| && ms[i] == shuffled[0];
    assert Spare(st, ms, i);
    if ms[i].uuid !in st.known {
      var k :| 0 <= k < |ms| && k != i && ms[k].uuid == ms[i].uuid;
      var j := OtherComes(ms, shuffled, i, k);
      assert shuffled[j].uuid == shuffled[0].uuid;
    }
  }

  lemma SpareOrLost(st: NodeState, ms: seq<Message>, i: nat, time: int)
    requires st.temp == Some(ms) && i < |ms| && !Spare(st, ms, i)
    ensures ms[i].uuid !in Merge(st, [ms[i]] + AllBut(ms, i), time).known
  {
    var rest := AllBut(ms, i);
    ReceivedAre(st, [ms[i]] + rest, 1, time, ms[i].uuid);
    forall j | 1 <= j < |[ms[i]] + rest|
      ensures ([ms[i]] + rest)[j].uuid != ms[i].uuid
    {
      assert ([ms[i]] + rest)[j] == ms[if j <= i then j - 1 else j];
    }
  }

  lemma AllKnownInOrder(st: NodeState, ms: seq<Message>, shuffled: seq<Message>)
    requires multiset(shuffled) == multiset(ms) && AllKnown(st, shuffled)
    ensures AllKnown(st, ms)
  {
    forall i | 0 <= i < |ms|
      ensures ms[i].uuid in st.known
    {
      assert ms[i] in multiset(shuffled);
    }
  }

  /** A merge takes in everything in every order if and only if every message is known already or assigned twice. */
  lemma EveryMergeTakesAll(st: NodeState, ms: seq<Message>, time: int)
    requires st.temp == Some(ms)
    ensures (forall shuffled: seq<Message> :: multiset(shuffled) == multiset(ms) ==>
      AllKnown(Merge(st, shuffled, time), ms))
       <==> forall i :: 0 <= i < |ms| ==> Spare(st, ms, i)
  {
    hide Merge, Spare;
    if forall i :: 0 <= i < |ms| ==> Spare(st, ms, i) {
      forall shuffled: seq<Message> | multiset(shuffled) == multiset(ms)
        ensures AllKnown(Merge(st, shuffled, time), ms)
      {
        if shuffled != [] { FirstIsSpare(st, ms, shuffled); }
        MergeTakesAll(st, shuffled, time);
        AllKnownInOrder(Merge(st, shuffled, time), ms, shuffled);
      }
    } else {
      var i :| 0 <= i < |ms| && !Spare(st, ms, i);
      SpareOrLost(st, ms, i, time);
      assert !AllKnown(Merge(st, [ms[i]] + AllBut(ms, i), time), ms);
    }
  }

  /** Two nodes, one step: the first creates a message and pushes it to the second, which does not take it in. */
  lemma MessageIsLost() returns (c: Config, run: seq<seq<NodeState>>, chs: seq<Choices>)
    ensures IsRun(c, run, chs) && |run| == 2 && c.numNodes == 2
    ensures IsHop(c, run, chs, Hop(0, 0, 1), 0) && 0 !in run[1][1].known
  {
    c := Config(2, 0, 1, 1, false);
    var start := seq(2, _ => NEW_NODE);
    var m := Message(0, 0, 0, 0, true);
    var ch := Choices(0, [true, false], [Some(1), None], [[], [m]]);
    var created := AfterCreation(c, start, ch);
    var sender := NodeState(1, [0], map[0 := m], None);
    assert created[0] == sender && created[1] == NEW_NODE;
    assert Picked(c, 0, sender, false, 1) == [m];
    assert Pushed(c, 0, sender) == [m];
    var pushed := AfterPushing(c, start, ch);
    assert PushedTo(c, created, ch.partners, 0) == created;
    assert PushedTo(c, created, ch.partners, 1) == created[1 := Assign(NEW_NODE, [m])];
    assert pushed == created[1 := Assign(NEW_NODE, [m])];
    assert ShufflesOk(pushed, ch.shuffles);
    run := [start, Think(c, start, ch)];
    chs := [ch];
    assert run[1][1] == Merge(pushed[1], [m], 0);
    assert StepsBy(c, run[0], run[1], ch);
    assert m in Pushed(c, 0, created[0]);
  }
}
