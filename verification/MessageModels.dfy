/** The model of all nodes: its set-up and the step that the simulation repeats. */
module MessageModels {
  import opened Errors
  import opened MessageProtocol
  import opened MessageNodes

  /** The nodes in range of node `i`, of the first `n`. */
  function Potentials(inRange: (nat, nat) -> bool, i: nat, n: nat): (r: seq<nat>)
    ensures forall k :: 0 <= k < |r| ==> r[k] < n && r[k] != i && inRange(i, r[k])
  {
    if n == 0 then []
    else Potentials(inRange, i, n - 1) + if n - 1 != i && inRange(i, n - 1) then [n - 1] else []
  }

  lemma {:induction false} PotentialsAreAll(inRange: (nat, nat) -> bool, i: nat, n: nat, j: nat)
    requires j < n && j != i && inRange(i, j)
    ensures j in Potentials(inRange, i, n)
    decreases n
  {
    if j < n - 1 {
      PotentialsAreAll(inRange, i, n - 1, j);
    }
  }

  /** Whom each node pushes to: a node in range, if there is one. */
  predicate PartnersInRange(inRange: (nat, nat) -> bool, partners: seq<Option<nat>>) {
    forall i :: 0 <= i < |partners| ==>
      match partners[i]
      case None => Potentials(inRange, i, |partners|) == []
      case Some(j) => j in Potentials(inRange, i, |partners|)
  }

  class MessageModel {
    const c: Config
    var nodes: seq<MessageNode>

    ghost function States(): seq<NodeState>
      reads this, nodes
    {
      seq(|nodes|, i requires 0 <= i < |nodes| reads this, nodes => nodes[i].State())
    }

    /** The nodes by their numbers, set up. */
    ghost predicate Valid()
      reads this, nodes, set n | n in nodes :: n.trustDistances
    {
      && |nodes| == c.numNodes
      && forall i :: 0 <= i < |nodes| ==> nodes[i].nodeId == i && nodes[i].c == c && nodes[i].Valid()
    }

    /** `setup` */
    constructor (c: Config)
      requires c.numAdversaries <= c.numNodes
      ensures this.c == c && Valid() && Inv(c, States()) && States() == seq(c.numNodes, _ => NEW_NODE)
      ensures forall n :: n in nodes ==> fresh(n)
    {
      this.c := c;
      nodes := [];
      new;
      var i := 0;
      while i < c.numNodes
        invariant 0 <= i == |nodes| <= c.numNodes
        invariant forall k :: 0 <= k < i ==>
          fresh(nodes[k]) && nodes[k].nodeId == k && nodes[k].c == c && nodes[k].Valid() && nodes[k].State() == NEW_NODE
      {
        var node := new MessageNode(c, i);
        nodes := nodes + [node];
        i := i + 1;
      }
      InitOk(c);
      assert States() == seq(c.numNodes, _ => NEW_NODE);
    }

    method CreateAt(i: nat, time: int)
      requires Valid() && i < c.numNodes
      modifies nodes[i]
      ensures Valid() && States() == old(States())[i := Create(c, i, old(States())[i], time)]
    {
      hide Create;
      nodes[i].CreateNewMessage(time);
    }

    /** Nodes create messages. */
    method CreateMessages(creates: seq<bool>, time: int)
      requires Valid() && |creates| == c.numNodes
      modifies nodes
      ensures Valid() && States() == Created(c, old(States()), creates, time, c.numNodes)
    {
      hide Create;
      ghost var st := States();
      assert Created(c, st, creates, time, 0) == st;
      var i := 0;
      while i < c.numNodes
        invariant 0 <= i <= c.numNodes && Valid()
        invariant States() == Created(c, st, creates, time, i)
      {
        CreatedNext(c, st, creates, time, i);
        if creates[i] {
          CreateAt(i, time);
        }
        i := i + 1;
      }
    }

    /** The nodes in range of a node; one of them is pushed to. */
    method PushFrom(i: nat, inRange: (nat, nat) -> bool, choice: nat -> nat)
      requires Valid() && i < c.numNodes
      requires Potentials(inRange, i, c.numNodes) != [] ==> choice(i) < |Potentials(inRange, i, c.numNodes)|
      modifies nodes
      ensures Valid() && |old(States())| == c.numNodes
      ensures States() == match Partner(c.numNodes, inRange, choice, i)
        case None => old(States())
        case Some(j) => old(States())[j := Assign(old(States())[j], Pushed(c, i, old(States())[i]))]
    {
      hide Pushed, Assign;
      var potentials: seq<nat> := [];
      var j := 0;
      while j < c.numNodes
        invariant 0 <= j <= c.numNodes && potentials == Potentials(inRange, i, j)
      {
        if j != i && inRange(i, j) { potentials := potentials + [j]; }
        j := j + 1;
      }
      if |potentials| > 0 {
        ghost var st := States();
        var to := potentials[choice(i)];
        nodes[i].PushMessagesTo(nodes[to]);
        assert States() == st[to := States()[to]];
      }
    }

    /** Each node pushes to one of the nodes in range. */
    method PushMessages(inRange: (nat, nat) -> bool, choice: nat -> nat) returns (ghost partners: seq<Option<nat>>)
      requires Valid()
      requires forall i :: 0 <= i < c.numNodes && Potentials(inRange, i, c.numNodes) != [] ==>
        choice(i) < |Potentials(inRange, i, c.numNodes)|
      modifies nodes
      ensures Valid() && |partners| == c.numNodes && PartnersOk(partners) && PartnersInRange(inRange, partners)
      ensures States() == PushedTo(c, old(States()), partners, c.numNodes)
    {
      hide Pushed, PushedTo, Partner, Assign, Potentials, PartnersOk, PartnersInRange;
      ghost var st := States();
      partners := Partners(c.numNodes, inRange, choice);
      NothingPushed(c, st, partners);
      var i := 0;
      while i < c.numNodes
        invariant 0 <= i <= c.numNodes && Valid()
        invariant States() == PushedTo(c, st, partners, i)
      {
        PushFrom(i, inRange, choice);
        PushedNext(c, st, inRange, choice, i);
        i := i + 1;
      }
    }

    method MergeAt(i: nat, random: nat -> nat, time: int) returns (ghost shuffled: seq<Message>)
      requires Valid() && i < c.numNodes
      modifies nodes[i]
      ensures Valid() && States() == old(States())[i := Merge(old(States())[i], shuffled, time)]
      ensures old(States())[i].temp.Some? ==> multiset(shuffled) == multiset(old(States())[i].temp.value)
    {
      hide Merge;
      shuffled := nodes[i].MergeMessages(random, time);
    }

    /** Each node merges what it was assigned. */
    method MergeAll(random: (nat, nat) -> nat, time: int) returns (ghost shuffles: seq<seq<Message>>)
      requires Valid()
      modifies nodes
      ensures Valid() && |shuffles| == c.numNodes && ShufflesOk(old(States()), shuffles)
      ensures States() == Merged(old(States()), shuffles, time, c.numNodes)
    {
      hide Merge;
      ghost var st := States();
      shuffles := seq(c.numNodes, _ => []);
      var i := 0;
      while i < c.numNodes
        invariant 0 <= i <= c.numNodes == |shuffles| && Valid()
        invariant States() == Merged(st, shuffles, time, i)
        invariant forall k :: 0 <= k < i && st[k].temp.Some? ==> multiset(shuffles[k]) == multiset(st[k].temp.value)
      {
        ghost var shuffled := MergeAt(i, k => random(i, k), time);
        MergedNext(st, shuffles, shuffled, time, i);
        shuffles := shuffles[i := shuffled];
        i := i + 1;
      }
    }

    /** `think`: one step of the simulation keeps the invariant, whatever chance decides. */
    method Think(time: int, creates: seq<bool>, inRange: (nat, nat) -> bool, choice: nat -> nat,
                 random: (nat, nat) -> nat) returns (ghost ch: Choices)
      requires Valid() && |creates| == c.numNodes && Inv(c, States()) && MayCreate(c, States(), creates)
      requires forall i :: 0 <= i < c.numNodes && Potentials(inRange, i, c.numNodes) != [] ==>
        choice(i) < |Potentials(inRange, i, c.numNodes)|
      modifies nodes
      ensures Valid() && Inv(c, States())
      ensures |ch.partners| == c.numNodes && PartnersInRange(inRange, ch.partners) && ch.creates == creates
      ensures ch.time == time
      ensures StepsBy(c, old(States()), States(), ch)
    {
      hide Inv, Created, PushedTo, Merged, MayCreate, ShufflesOk, PartnersInRange;
      ghost var st := States();
      CreateMessages(creates, time);
      ghost var partners := PushMessages(inRange, choice);
      ghost var shuffles := MergeAll(random, time);
      ch := Choices(time, creates, partners, shuffles);
      ThinkKeeps(c, st, ch);
      assert StepsBy(c, st, States(), ch);
    }
  }

  /** The partners that the choices lead to. */
  ghost function Partners(n: nat, inRange: (nat, nat) -> bool, choice: nat -> nat): (r: seq<Option<nat>>)
    requires forall i :: 0 <= i < n && Potentials(inRange, i, n) != [] ==> choice(i) < |Potentials(inRange, i, n)|
    ensures |r| == n && PartnersOk(r) && PartnersInRange(inRange, r)
  {
    seq(n, i requires 0 <= i < n => Partner(n, inRange, choice, i))
  }

  ghost function Partner(n: nat, inRange: (nat, nat) -> bool, choice: nat -> nat, i: nat): Option<nat>
    requires Potentials(inRange, i, n) != [] ==> choice(i) < |Potentials(inRange, i, n)|
  {
    if Potentials(inRange, i, n) == [] then None else Some(Potentials(inRange, i, n)[choice(i)])
  }

  lemma NothingPushed(c: Config, st: seq<NodeState>, partners: seq<Option<nat>>)
    requires |partners| == |st| && PartnersOk(partners)
    ensures PushedTo(c, st, partners, 0) == st
  {
  }

  lemma PushedNext(c: Config, st: seq<NodeState>, inRange: (nat, nat) -> bool, choice: nat -> nat, i: nat)
    requires forall k :: 0 <= k < |st| && Potentials(inRange, k, |st|) != [] ==>
      choice(k) < |Potentials(inRange, k, |st|)|
    requires i < |st|
    ensures var partners := Partners(|st|, inRange, choice);
      var s := PushedTo(c, st, partners, i);
      PushedTo(c, st, partners, i + 1) == match Partner(|st|, inRange, choice, i)
        case None => s
        case Some(j) => if j < |s| then s[j := Assign(s[j], Pushed(c, i, s[i]))] else s
  {
    hide Pushed, Assign, Potentials;
  }

  lemma CreatedNext(c: Config, st: seq<NodeState>, creates: seq<bool>, time: int, i: nat)
    requires |creates| == |st| && i < |st|
    ensures var s := Created(c, st, creates, time, i);
      Created(c, st, creates, time, i + 1) == (if creates[i] then s[i := Create(c, i, s[i], time)] else s)
  {
  }

  lemma MergedNext(st: seq<NodeState>, shuffles: seq<seq<Message>>, shuffled: seq<Message>, time: int, i: nat)
    requires |shuffles| == |st| && i < |st|
    ensures Merged(st, shuffles[i := shuffled], time, i + 1)
      == Merged(st, shuffles, time, i)[i := Merge(st[i], shuffled, time)]
  {
  }
}
