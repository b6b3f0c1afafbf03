/** When a message was created and when it came: what a node keeps with it. */
module MessageLatencies {
  import opened Errors
  import opened MessageProtocol

  /** A message that is new to a node after a step. */
  predicate IsNew(run: seq<seq<NodeState>>, t: nat, n: nat, u: nat) {
    && t + 1 < |run| && n < |run[t]| && n < |run[t + 1]|
    && u in run[t + 1][n].known && u !in run[t][n].known
  }

  /** A merge keeps what was known, and the time since the creation of what it brings. */
  lemma MergeDates(c: Config, n: nat, st: NodeState, shuffled: seq<Message>, time: int, u: nat)
    requires NodeOk(c, n, st) && u in Merge(st, shuffled, time).known
    requires forall i :: 1 <= i < |shuffled| && shuffled[i].sender == n ==> shuffled[i].uuid in st.known
    ensures var m := Merge(st, shuffled, time).known[u];
      if u in st.known then m == st.known[u] else m.latency == time - m.creationTime && !m.outgoing && m.sender != n
  {
    hide NodeOk, ReceiveDownTo;
    if st.temp.Some? && shuffled != [] {
      MergeKeeps(c, n, st, shuffled, 1, time);
      KnownStays(st, ReceiveDownTo(st, shuffled, 1, time), u);
    }
  }

  /** What is new to a node in the middle of a step it has created. */
  lemma CreatedDates(c: Config, states: seq<NodeState>, ch: Choices, n: nat, u: nat)
    requires |states| == c.numNodes && ChoicesFit(c, ch) && n < |states|
    requires u in AfterCreation(c, states, ch)[n].known && u !in states[n].known
    ensures AfterCreation(c, states, ch)[n].known[u] == Message(u, n, 0, ch.time, true)
  {
  }

  /** The states of a step before nodes merge. */
  lemma BeforeMerge(c: Config, states: seq<NodeState>, ch: Choices)
    requires Inv(c, states) && ChoicesFit(c, ch) && |states| == c.numNodes && MayCreate(c, states, ch.creates)
    ensures var created, pushed := AfterCreation(c, states, ch), AfterPushing(c, states, ch);
      && NodesOk(c, pushed) && Copies(c, pushed) && Assigned(c, created, ch.partners, pushed)
      && SameBut(created, pushed)
  {
    hide NodeOk, Created, PushedTo, Copies, Assigned, Grows;
    var created := AfterCreation(c, states, ch);
    CreationKeeps(c, states, ch.creates, ch.time);
    PushingKeeps(c, created, ch.partners, |states|);
    PushedNodesOk(c, created, AfterPushing(c, states, ch));
  }

  lemma StepDates(c: Config, states: seq<NodeState>, ch: Choices, n: nat, u: nat)
    requires Inv(c, states) && ChoicesFit(c, ch) && |states| == c.numNodes && MayCreate(c, states, ch.creates)
    requires ShufflesOk(AfterPushing(c, states, ch), ch.shuffles) && n < |states|
    requires u in Think(c, states, ch)[n].known && u !in states[n].known
    ensures var m := Think(c, states, ch)[n].known[u];
      if m.sender == n then m == Message(u, n, 0, ch.time, true)
      else m.latency == ch.time - m.creationTime && !m.outgoing
  {
    hide NodeOk, Created, PushedTo, Copies, Assigned, MayCreate, Merge, Inv, AfterPushing, AfterCreation;
    var created, pushed := AfterCreation(c, states, ch), AfterPushing(c, states, ch);
    BeforeMerge(c, states, ch);
    var st, shuffled := pushed[n], ch.shuffles[n];
    if st.temp.Some? {
      forall i | 0 <= i < |shuffled| && shuffled[i].sender == n
        ensures shuffled[i].uuid in st.known
      {
        AssignedIs(c, created, ch.partners, pushed, n, shuffled, i);
      }
      MergeDates(c, n, st, shuffled, ch.time, u);
    } else {
      NothingMerged(st, shuffled, ch.time);
    }
    if u in st.known { CreatedDates(c, states, ch, n, u); }
  }

  lemma NothingMerged(st: NodeState, shuffled: seq<Message>, time: int)
    requires st.temp.None?
    ensures Merge(st, shuffled, time) == st
  {
  }

  /**
   What a node has created in a step has the time of the step and no latency; what has been sent to it has the
   time that has passed since the creation, which is the one its sender knows.
   */
  lemma NewIsDated(c: Config, run: seq<seq<NodeState>>, chs: seq<Choices>, t: nat, n: nat, u: nat)
    requires IsRun(c, run, chs) && IsNew(run, t, n, u)
    ensures var m := run[t + 1][n].known[u];
      && (if m.sender == n then m == Message(u, n, 0, chs[t].time, true)
          else m.latency == chs[t].time - m.creationTime && !m.outgoing)
      && m.sender < |run[t + 1]| && u in run[t + 1][m.sender].known
      && run[t + 1][m.sender].known[u].creationTime == m.creationTime
  {
    hide Think, ShufflesOk, MayCreate, AfterPushing, Learned, KnownMidway, NodeOk;
    RunKeeps(c, run, chs, t);
    RunKeeps(c, run, chs, t + 1);
    assert StepsBy(c, run[t], run[t + 1], chs[t]);
    StepDates(c, run[t], chs[t], n, u);
    assert IsCopy(c, run[t + 1], run[t + 1][n].known[u]);
    assert NodeOk(c, n, run[t + 1][n]);
    NamedByKey(c, n, run[t + 1][n], u);
  }

  lemma NamedByKey(c: Config, n: nat, st: NodeState, u: nat)
    requires NodeOk(c, n, st) && u in st.known
    ensures st.known[u].uuid == u
  {
  }
}
