/** What a node pushes, in terms of its list and of the types of nodes alone. */
module MessagePushes {
  import opened Errors
  import opened MessageProtocol

  /** The list and the map agree, as far as a push looks at them. */
  predicate Listed(st: NodeState) { forall i :: 0 <= i < |st.messages| ==> st.messages[i] in st.known }

  /** The messages of the list, newest first. */
  function Newest(st: NodeState): (r: seq<Message>)
    requires Listed(st)
    ensures |r| == |st.messages|
  {
    var n := |st.messages|;
    seq(n, i requires 0 <= i < n => st.known[st.messages[n - 1 - i]])
  }

  /** Those that adversaries have created, or those that collaborators have; the first nodes are the adversaries. */
  function Of(c: Config, adversaries: bool, ms: seq<Message>): seq<Message> {
    if ms == [] then []
    else (if (ms[0].sender < c.numAdversaries) == adversaries then [ms[0]] else []) + Of(c, adversaries, ms[1..])
  }

  lemma {:induction false} OfHas(c: Config, adversaries: bool, ms: seq<Message>, m: Message)
    ensures m in Of(c, adversaries, ms) <==> m in ms && (m.sender < c.numAdversaries) == adversaries
  {
    if ms != [] {
      OfHas(c, adversaries, ms[1..], m);
      assert ms == [ms[0]] + ms[1..];
    }
  }

  /**
   What a node would send without a limit: an adversary the messages of adversaries; a collaborator everything, or
   with friendships those of collaborators before the others.
   */
  function Eligible(c: Config, id: nat, newest: seq<Message>): seq<Message> {
    if id < c.numAdversaries then Of(c, true, newest)
    else if c.useFriendships then Of(c, false, newest) + Of(c, true, newest)
    else newest
  }

  /** A negative limit is none. */
  function Limited(limit: int, ms: seq<Message>): seq<Message> { if 0 <= limit < |ms| then ms[..limit] else ms }

  lemma PicksIs(c: Config, id: nat, later: bool, sender: nat)
    ensures Picks(c, id, later, sender) <==>
      if later then (sender < c.numAdversaries) == (id >= c.numAdversaries)
      else (id >= c.numAdversaries && !c.useFriendships) || (sender < c.numAdversaries) == (id < c.numAdversaries)
  {
  }

  /** Of the first `n` messages of the list, newest first, those whose senders are of a type. */
  lemma {:induction false} PickedIs(c: Config, id: nat, st: NodeState, later: bool, n: nat)
    requires Listed(st) && n <= |st.messages|
    ensures var ms := Newest(st)[|st.messages| - n..];
      Picked(c, id, st, later, n) ==
        if later then Of(c, id >= c.numAdversaries, ms)
        else if id >= c.numAdversaries && !c.useFriendships then ms
        else Of(c, id < c.numAdversaries, ms)
    decreases n
  {
    hide Picks;
    if n > 0 {
      var ms := Newest(st)[|st.messages| - n..];
      PicksIs(c, id, later, ms[0].sender);
      assert ms[0] == st.known[st.messages[n - 1]] && ms[1..] == Newest(st)[|st.messages| - (n - 1)..];
      assert ms == [ms[0]] + ms[1..];
      PickedIs(c, id, st, later, n - 1);
    }
  }

  /** What is pushed is the beginning of what is eligible, as long as the limit allows. */
  lemma PushedIs(c: Config, id: nat, st: NodeState)
    requires Listed(st)
    ensures Pushed(c, id, st) == Limited(c.exchangeNum, Eligible(c, id, Newest(st)))
  {
    hide Picked, Of;
    var n := |st.messages|;
    PickedIs(c, id, st, false, n);
    PickedIs(c, id, st, true, n);
    assert Newest(st)[n - n..] == Newest(st);
  }

  /**
   If the limit is negative or no less than the number of known messages, a collaborator pushes exactly what it
   knows, and an adversary exactly the messages of adversaries.
   */
  lemma PushesByType(c: Config, id: nat, st: NodeState, m: Message)
    requires NodeOk(c, id, st) && (c.exchangeNum < 0 || c.exchangeNum >= |st.known|)
    ensures m in Pushed(c, id, st) <==>
      m.uuid in st.known && st.known[m.uuid] == m && (id < c.numAdversaries ==> m.sender < c.numAdversaries)
  {
    hide Pushed, Of;
    PushedIs(c, id, st);
    OfHas(c, true, Newest(st), m);
    OfHas(c, false, Newest(st), m);
    NewestHas(c, id, st, m);
    OfFits(c, true, Newest(st));
    ListFits(c, id, st);
    OfSplits(c, Newest(st));
  }

  lemma NewestHas(c: Config, id: nat, st: NodeState, m: Message)
    requires NodeOk(c, id, st)
    ensures m in Newest(st) <==> m.uuid in st.known && st.known[m.uuid] == m
  {
    hide Uuid;
    if m.uuid in st.known && st.known[m.uuid] == m {
      var k :| 0 <= k < |st.messages| && st.messages[k] == m.uuid;
      assert Newest(st)[|st.messages| - 1 - k] == m;
    }
    if m in Newest(st) {
      var i :| 0 <= i < |Newest(st)| && Newest(st)[i] == m;
      assert st.messages[|st.messages| - 1 - i] in st.known;
    }
  }

  lemma {:induction false} OfFits(c: Config, adversaries: bool, ms: seq<Message>)
    ensures |Of(c, adversaries, ms)| <= |ms|
  {
    if ms != [] {
      OfFits(c, adversaries, ms[1..]);
    }
  }

  lemma {:induction false} OfSplits(c: Config, ms: seq<Message>)
    ensures |Of(c, true, ms)| + |Of(c, false, ms)| == |ms|
  {
    if ms != [] {
      OfSplits(c, ms[1..]);
    }
  }

  /** The list is as long as the map. */
  lemma ListFits(c: Config, id: nat, st: NodeState)
    requires NodeOk(c, id, st)
    ensures |st.messages| == |st.known|
  {
    hide Uuid;
    ListedSize(st.messages);
    assert Elements(st.messages) == st.known.Keys;
  }

  function Elements(messages: seq<nat>): (r: set<nat>)
    ensures forall u :: u in r <==> u in messages
  {
    if messages == [] then {}
    else
      assert messages == messages[..|messages| - 1] + [messages[|messages| - 1]];
      Elements(messages[..|messages| - 1]) + {messages[|messages| - 1]}
  }

  lemma {:induction false} ListedSize(messages: seq<nat>)
    requires ListedOnce(messages)
    ensures |Elements(messages)| == |messages|
    decreases |messages|
  {
    if messages != [] {
      LastIsNew(messages);
      ListedSize(messages[..|messages| - 1]);
    }
  }

  lemma LastIsNew(messages: seq<nat>)
    requires messages != [] && ListedOnce(messages)
    ensures var n := |messages| - 1; messages[n] !in messages[..n] && ListedOnce(messages[..n])
  {
    var n := |messages| - 1;
    var rest, last := messages[..n], messages[n];
    assert messages == rest + [last];
    assert multiset(messages) == multiset(rest) + multiset{last};
    assert last in messages;
    forall u | u in rest
      ensures multiset(rest)[u] == 1
    {
      assert u in messages && u in multiset(rest);
    }
    assert last in rest ==> last in multiset(rest);
  }

  /** Without friendships a collaborator pushes the newest messages of its list, whoever has created them. */
  lemma NewestOfAll(c: Config, id: nat, st: NodeState, i: nat)
    requires Listed(st) && id >= c.numAdversaries && !c.useFriendships
    ensures var n := |st.messages|;
      && |Pushed(c, id, st)| == (if 0 <= c.exchangeNum < n then c.exchangeNum else n)
      && (i < |Pushed(c, id, st)| ==> Pushed(c, id, st)[i] == st.known[st.messages[n - 1 - i]])
  {
    hide Pushed;
    PushedIs(c, id, st);
  }
}
