/**
 One node's part of the apply path (src/node.rs): drawing proposal ids, applying a ready
 batch of committed entries or a snapshot, and answering the clients that wait here.
 */
module RaftNode {
  import opened Wrappers
  import opened Decimal
  import opened KeyValueMachine
  import opened Replication

  /** The ids that wait at a node after it has applied `entries`. */
  function PendingAfter(pending: set<string>, entries: seq<Entry>): set<string> {
    if entries == [] then pending
    else
      Answer(PendingAfter(pending, entries[..|entries| - 1]), entries[|entries| - 1])
  }

  /** One entry takes its own id, and no other, off the waiting list. */
  function Answer(pending: set<string>, e: Entry): set<string> {
    if Completes(e, pending) then pending - {e.context} else pending
  }

  /**
   The answers a batch must give, in order: one for each entry that completes a waiting
   proposal, each fitting the state just before its entry.
   */
  ghost predicate Answered(m: Store, pending: set<string>, entries: seq<Entry>, answers: seq<(string, string)>) {
    if entries == [] then answers == []
    else
      var earlier, e := entries[..|entries| - 1], entries[|entries| - 1];
      if Completes(e, PendingAfter(pending, earlier)) then
        && answers != []
        && answers[|answers| - 1].0 == e.context
        && ReplyFits(Replay(m, earlier), e.data.value, answers[|answers| - 1].1)
        && Answered(m, pending, earlier, answers[..|answers| - 1])
      else
        Answered(m, pending, earlier, answers)
  }

  lemma {:induction false} AnsweredWereWaiting(
    m: Store, pending: set<string>, entries: seq<Entry>, answers: seq<(string, string)>)
    requires Answered(m, pending, entries, answers)
    ensures PendingAfter(pending, entries) <= pending
    ensures forall i :: 0 <= i < |answers| ==>
              answers[i].0 in pending && answers[i].0 !in PendingAfter(pending, entries)
    ensures forall i, j :: 0 <= i < j < |answers| ==> answers[i].0 != answers[j].0
  {
    if entries != [] {
      var earlier, e := entries[..|entries| - 1], entries[|entries| - 1];
      var given := if Completes(e, PendingAfter(pending, earlier)) then answers[..|answers| - 1] else answers;
      AnsweredWereWaiting(m, pending, earlier, given);
      assert forall i :: 0 <= i < |given| ==> given[i] == answers[i];
    }
  }

  lemma {:induction false} RunOneMore(c: Cluster, steps: seq<Step>, last: Step)
    ensures Run(c, steps + [last]) == Next(Run(c, steps), last)
    decreases |steps|
  {
    if steps == [] {
      assert steps + [last] == [last];
      assert Run(Next(c, last), [last][1..]) == Next(c, last);
    } else {
      assert (steps + [last])[1..] == steps[1..] + [last];
      RunOneMore(Next(c, steps[0]), steps[1..], last);
    }
  }

  /** What this node's clients were told, in order. */
  function Told(replies: seq<Reply>, n: nat): seq<(string, string)> {
    if replies == [] then []
    else
      var r := replies[|replies| - 1];
      Told(replies[..|replies| - 1], n) + if r.node == n then [(r.id, r.result)] else []
  }

  lemma ToldAppend(replies: seq<Reply>, r: Reply)
    ensures Told(replies + [r], r.node) == Told(replies, r.node) + [(r.id, r.result)]
  {
    assert (replies + [r])[..|replies|] == replies;
  }

  function NodeAfter(node: Node, entries: seq<Entry>): Node {
    Node(node.process, Replay(node.data, entries), node.applied + |entries|, PendingAfter(node.pending, entries))
  }

  /** What a batch does to its node, and what it tells the clients there. */
  ghost predicate BatchDone(c: Cluster, c': Cluster, n: nat, entries: seq<Entry>, answers: seq<(string, string)>)
    requires n in c.nodes
  {
    && c'.log == c.log
    && c'.nodes == c.nodes[n := NodeAfter(c.nodes[n], entries)]
    && Told(c'.replies, n) == Told(c.replies, n) + answers
  }

  lemma EmptyBatch(c: Cluster, n: nat)
    requires n in c.nodes
    ensures BatchDone(c, c, n, [], [])
  {
    assert c.nodes == c.nodes[n := c.nodes[n]];
  }

  lemma OneMoreNode(c: Cluster, c1: Cluster, n: nat, entries: seq<Entry>, reply: string)
    requires n in c.nodes && n in c1.nodes && c.nodes[n].applied + |entries| < |c.log| && c1.log == c.log
    requires c1.nodes[n] == NodeAfter(c.nodes[n], entries)
    requires var e := c.log[c.nodes[n].applied + |entries|];
             Completes(e, c1.nodes[n].pending) ==> ReplyFits(c1.nodes[n].data, e.data.value, reply)
    ensures var c2 := AfterApply(c1, n, reply);
            var e := c.log[c.nodes[n].applied + |entries|];
            && c2.log == c1.log
            && c2.nodes == c1.nodes[n := NodeAfter(c.nodes[n], entries + [e])]
            && c2.replies == c1.replies + if Completes(e, c1.nodes[n].pending)
                                          then [Reply(n, e.context, c1.nodes[n].applied, reply)] else []
  {
    var e := c.log[c.nodes[n].applied + |entries|];
    assert (entries + [e])[..|entries|] == entries;
  }

  lemma OneMoreApplied(
    c: Cluster, c1: Cluster, n: nat, entries: seq<Entry>, answers: seq<(string, string)>, reply: string)
    requires n in c.nodes && c.nodes[n].applied + |entries| < |c.log|
    requires BatchDone(c, c1, n, entries, answers)
    requires var e := c.log[c.nodes[n].applied + |entries|];
             Completes(e, c1.nodes[n].pending) ==> ReplyFits(c1.nodes[n].data, e.data.value, reply)
    ensures var e := c.log[c.nodes[n].applied + |entries|];
            BatchDone(c, AfterApply(c1, n, reply), n, entries + [e],
                      if Completes(e, c1.nodes[n].pending) then answers + [(e.context, reply)] else answers)
  {
    var e := c.log[c.nodes[n].applied + |entries|];
    OneMoreNode(c, c1, n, entries, reply);
    if Completes(e, c1.nodes[n].pending) {
      ToldAppend(c1.replies, Reply(n, e.context, c1.nodes[n].applied, reply));
    } else {
      assert c1.replies + [] == c1.replies;
    }
  }

  lemma OneMoreStep(
    c: Cluster, steps: seq<Step>, n: nat, entries: seq<Entry>, answers: seq<(string, string)>, reply: string)
    requires n in c.nodes && c.nodes[n].applied + |entries| < |c.log|
    requires BatchDone(c, Run(c, steps), n, entries, answers)
    requires var e := c.log[c.nodes[n].applied + |entries|];
             Completes(e, PendingAfter(c.nodes[n].pending, entries)) ==>
               ReplyFits(Replay(c.nodes[n].data, entries), e.data.value, reply)
    ensures var e := c.log[c.nodes[n].applied + |entries|];
            BatchDone(c, Run(c, steps + [Apply(n, reply)]), n, entries + [e],
                      if Completes(e, PendingAfter(c.nodes[n].pending, entries)) then answers + [(e.context, reply)]
                      else answers)
  {
    OneMoreApplied(c, Run(c, steps), n, entries, answers, reply);
    RunOneMore(c, steps, Apply(n, reply));
  }

  /** What the last entry of a batch adds to the answers. */
  lemma AnsweredLast(m: Store, pending: set<string>, earlier: seq<Entry>, e: Entry, answers: seq<(string, string)>)
    returns (given: seq<(string, string)>, reply: string)
    requires Answered(m, pending, earlier + [e], answers)
    ensures Answered(m, pending, earlier, given)
    ensures Completes(e, PendingAfter(pending, earlier)) ==> ReplyFits(Replay(m, earlier), e.data.value, reply)
    ensures answers == if Completes(e, PendingAfter(pending, earlier)) then given + [(e.context, reply)] else given
  {
    assert (earlier + [e])[..|earlier|] == earlier;
    if Completes(e, PendingAfter(pending, earlier)) {
      given, reply := answers[..|answers| - 1], answers[|answers| - 1].1;
    } else {
      given, reply := answers, "";
    }
  }

  /** A ready batch, with the answers it must give, is a run of apply steps of the cluster. */
  lemma {:induction false} BatchIsApplySteps(c: Cluster, n: nat, count: nat, answers: seq<(string, string)>)
    returns (steps: seq<Step>)
    requires n in c.nodes && c.nodes[n].applied + count <= |c.log|
    requires Answered(c.nodes[n].data, c.nodes[n].pending, c.log[c.nodes[n].applied..][..count], answers)
    ensures forall i :: 0 <= i < |steps| ==> steps[i].Apply? && steps[i].node == n
    ensures BatchDone(c, Run(c, steps), n, c.log[c.nodes[n].applied..][..count], answers)
    decreases count
  {
    var log := c.log[c.nodes[n].applied..];
    if count == 0 {
      steps := [];
      EmptyBatch(c, n);
    } else {
      var earlier, e := log[..count - 1], log[count - 1];
      assert log[..count] == earlier + [e];
      var given, reply := AnsweredLast(c.nodes[n].data, c.nodes[n].pending, earlier, e, answers);
      steps := BatchIsApplySteps(c, n, count - 1, given);
      assert e == c.log[c.nodes[n].applied + |earlier|];
      OneMoreStep(c, steps, n, earlier, given, reply);
      steps := steps + [Apply(n, reply)];
    }
  }

  /** The process-wide id counter. */
  class IdCounter {
    var next: nat

    constructor ()
      ensures next == 0
    {
      next := 0;
    }
  }

  class RaftNode {
    const id: nat
    const ids: IdCounter
    const machine: KeyValueStateMachine
    var pending: set<string>
    var answers: seq<(string, string)>  // what has been sent on response channels

    constructor (id: nat, ids: IdCounter)
      ensures this.id == id && this.ids == ids && fresh(machine)
      ensures machine.data == map[] && pending == {} && answers == []
    {
      this.id, this.ids := id, ids;
      machine := new KeyValueStateMachine();
      pending, answers := {}, [];
    }

    method GenerateProposalId() returns (proposalId: string)
      modifies ids
      ensures proposalId == ProposalId(id, old(ids.next)) && ids.next == old(ids.next) + 1
    {
      proposalId := ProposalId(id, ids.next);
      ids.next := ids.next + 1;
    }

    /** The part of a proposal before the wait; only a node that is not leader withdraws it again. */
    method Propose(outcome: Outcome) returns (proposalId: string)
      modifies ids, `pending
      ensures proposalId == ProposalId(id, old(ids.next)) && ids.next == old(ids.next) + 1
      ensures pending == if outcome == NotLeader then old(pending) - {proposalId} else old(pending) + {proposalId}
    {
      proposalId := GenerateProposalId();
      pending := pending + {proposalId};
      if outcome == NotLeader {
        pending := pending - {proposalId};
      }
    }

    method ApplyEntry(e: Entry)
      modifies machine, `pending, `answers
      ensures machine.data == ApplyEntryTo(old(machine.data), e)
      ensures pending == Answer(old(pending), e)
      ensures if Completes(e, old(pending)) then
                && |answers| == |old(answers)| + 1 && answers[..|old(answers)|] == old(answers)
                && answers[|old(answers)|].0 == e.context
                && ReplyFits(old(machine.data), e.data.value, answers[|old(answers)|].1)
              else
                answers == old(answers)
    {
      if e.data.None? {
        return;
      }
      var result := machine.Apply(e.data.value);
      if e.context != "" {
        if e.context in pending {
          pending := pending - {e.context};
          answers := answers + [(e.context, result)];
        }
      }
    }

    method ApplySnapshot(image: Image)
      modifies machine
      ensures machine.data == FromImage(image)
    {
      machine.Restore(image);
    }

    /** A ready batch carries committed entries or a snapshot; entries are applied first, in order. */
    method HandleReady(entries: seq<Entry>, snapshot: Option<Image>)
      modifies machine, `pending, `answers
      ensures machine.data == if snapshot.Some? then FromImage(snapshot.value) else Replay(old(machine.data), entries)
      ensures pending == PendingAfter(old(pending), entries)
      ensures old(answers) <= answers
      ensures Answered(old(machine.data), old(pending), entries, answers[|old(answers)|..])
    {
      ghost var m, p, told := machine.data, pending, answers;
      for i := 0 to |entries|
        invariant machine.data == Replay(m, entries[..i])
        invariant pending == PendingAfter(p, entries[..i])
        invariant told <= answers
        invariant Answered(m, p, entries[..i], answers[|told|..])
      {
        ghost var before := answers;
        ApplyEntry(entries[i]);
        assert entries[..i + 1][..i] == entries[..i];
        if |answers| > |before| {
          assert answers[|told|..][..|answers[|told|..]| - 1] == before[|told|..];
        }
      }
      assert entries[..|entries|] == entries;
      if snapshot.Some? {
        ApplySnapshot(snapshot.value);
      }
    }
  }
}
