/**
 The path from a committed log to replicas and waiting clients (src/node.rs). The agreed log
 is taken from Raft: entries are committed once and for all, in one order, and only entries
 that some node proposed (State Machine Safety in the Raft paper). Everything after commit is
 modelled: replicas apply at their own pace, jump by snapshot, and answer by proposal id.
 */
module Replication {
  import opened Wrappers
  import opened Decimal
  import opened KeyValueMachine

  /** `process` is the operating-system process the node runs in; the id counter is per process. */
  datatype Node = Node(process: nat, data: Store, applied: nat, pending: set<string>)

  datatype Proposal = Proposal(node: nat, counter: nat, data: ProposalData)

  datatype Snap = Snap(index: nat, image: Image)

  /** What a client was told: by which node, for which proposal, from which log position. */
  datatype Reply = Reply(node: nat, id: string, index: nat, result: string)

  datatype Cluster = Cluster(
    log: seq<Entry>,
    nodes: map<nat, Node>,
    counters: map<nat, nat>,
    proposed: map<string, Proposal>,
    submitted: set<string>,
    accepted: set<string>,
    snapshots: set<Snap>,
    replies: seq<Reply>
  )

  datatype Outcome = NotLeader | RaftError | Accepted

  datatype Step =
    | Register(node: nat, data: ProposalData)          // draw an id, note it as pending
    | Submit(id: string, outcome: Outcome)             // hand it to Raft, once, or find out one cannot
    | Commit(id: string)
    | CommitBlank
    | Apply(node: nat, reply: string)
    | TakeSnapshot(node: nat, image: Image)
    | Install(node: nat, snap: Snap)

  function NewCluster(processes: map<nat, nat>): Cluster {
    Cluster([], map n | n in processes :: Node(processes[n], map[], 0, {}), map[], map[], {}, {}, {}, [])
  }

  function Counter(c: Cluster, process: nat): nat {
    if process in c.counters then c.counters[process] else 0
  }

  function NewId(c: Cluster, node: nat): string
    requires node in c.nodes
  {
    ProposalId(node, Counter(c, c.nodes[node].process))
  }

  /** The entry answers a client waiting at this node. */
  predicate Completes(e: Entry, pending: set<string>) {
    e.data.Some? && e.context != "" && e.context in pending
  }

  function AfterRegister(c: Cluster, n: nat, data: ProposalData): Cluster
    requires n in c.nodes
  {
    var node, process := c.nodes[n], c.nodes[n].process;
    var id := NewId(c, n);
    c.(counters := c.counters[process := Counter(c, process) + 1],
       nodes := c.nodes[n := node.(pending := node.pending + {id})],
       proposed := c.proposed[id := Proposal(n, Counter(c, process), data)])
  }

  function AfterSubmit(c: Cluster, id: string, outcome: Outcome): Cluster
    requires id in c.proposed && c.proposed[id].node in c.nodes
  {
    var n := c.proposed[id].node;
    var c' := c.(submitted := c.submitted + {id});
    match outcome
    case NotLeader => c'.(nodes := c.nodes[n := c.nodes[n].(pending := c.nodes[n].pending - {id})])
    case RaftError => c'
    case Accepted => c'.(accepted := c.accepted + {id})
  }

  function AfterCommit(c: Cluster, e: Entry): Cluster {
    c.(log := c.log + [e])
  }

  ghost function AfterApply(c: Cluster, n: nat, reply: string): Cluster
    requires n in c.nodes && c.nodes[n].applied < |c.log|
  {
    var node := c.nodes[n];
    var e := c.log[node.applied];
    var data' := ApplyEntryTo(node.data, e);
    if !Completes(e, node.pending) then
      c.(nodes := c.nodes[n := node.(data := data', applied := node.applied + 1)])
    else if ReplyFits(node.data, e.data.value, reply) then
      c.(nodes := c.nodes[n := Node(node.process, data', node.applied + 1, node.pending - {e.context})],
         replies := c.replies + [Reply(n, e.context, node.applied, reply)])
    else c
  }

  function AfterInstall(c: Cluster, n: nat, snap: Snap): Cluster
    requires n in c.nodes
  {
    c.(nodes := c.nodes[n := c.nodes[n].(data := FromImage(snap.image), applied := snap.index)])
  }

  /** One step; a step that is not enabled changes nothing. */
  ghost function Next(c: Cluster, step: Step): Cluster {
    match step
    case Register(n, data) =>
      if n in c.nodes then AfterRegister(c, n, data) else c
    case Submit(id, outcome) =>
      if id in c.proposed && c.proposed[id].node in c.nodes && id !in c.submitted then AfterSubmit(c, id, outcome)
      else c
    case Commit(id) =>
      if id in c.accepted && id in c.proposed then AfterCommit(c, Entry(Some(c.proposed[id].data), id)) else c
    case CommitBlank =>
      AfterCommit(c, Entry(None, ""))
    case Apply(n, reply) =>
      if n in c.nodes && c.nodes[n].applied < |c.log| then AfterApply(c, n, reply) else c
    case TakeSnapshot(n, image) =>
      if n in c.nodes && Lists(image, c.nodes[n].data) then
        c.(snapshots := c.snapshots + {Snap(c.nodes[n].applied, image)})
      else c
    case Install(n, snap) =>
      if n in c.nodes && snap in c.snapshots then AfterInstall(c, n, snap) else c
  }

  ghost function Run(c: Cluster, steps: seq<Step>): Cluster
    decreases |steps|
  {
    if steps == [] then c else Run(Next(c, steps[0]), steps[1..])
  }

  ghost function After(processes: map<nat, nat>, steps: seq<Step>): Cluster {
    Run(NewCluster(processes), steps)
  }

  // ---------------------------------------------------------------- replicas

  ghost predicate UpToDate(log: seq<Entry>, data: Store, index: nat) {
    index <= |log| && data == Replay(map[], log[..index])
  }

  ghost predicate ReplicaInv(c: Cluster) {
    && (forall n :: n in c.nodes ==> UpToDate(c.log, c.nodes[n].data, c.nodes[n].applied))
    && (forall s :: s in c.snapshots ==> UpToDate(c.log, FromImage(s.image), s.index))
  }

  lemma StillUpToDate(log: seq<Entry>, e: Entry, data: Store, index: nat)
    requires UpToDate(log, data, index)
    ensures UpToDate(log + [e], data, index)
  {
    assert (log + [e])[..index] == log[..index];
  }

  lemma OneFurther(log: seq<Entry>, data: Store, index: nat)
    requires UpToDate(log, data, index) && index < |log|
    ensures UpToDate(log, ApplyEntryTo(data, log[index]), index + 1)
  {
    assert log[..index + 1][..index] == log[..index];
  }

  lemma CommitKeepsReplicas(c: Cluster, e: Entry)
    requires ReplicaInv(c)
    ensures ReplicaInv(AfterCommit(c, e))
  {
    forall n | n in c.nodes ensures UpToDate(c.log + [e], c.nodes[n].data, c.nodes[n].applied) {
      StillUpToDate(c.log, e, c.nodes[n].data, c.nodes[n].applied);
    }
    forall s | s in c.snapshots ensures UpToDate(c.log + [e], FromImage(s.image), s.index) {
      StillUpToDate(c.log, e, FromImage(s.image), s.index);
    }
  }

  lemma ApplyKeepsReplicas(c: Cluster, n: nat, reply: string)
    requires ReplicaInv(c) && n in c.nodes && c.nodes[n].applied < |c.log|
    ensures ReplicaInv(AfterApply(c, n, reply))
  {
    OneFurther(c.log, c.nodes[n].data, c.nodes[n].applied);
  }

  lemma InstallKeepsReplicas(c: Cluster, n: nat, snap: Snap)
    requires ReplicaInv(c) && n in c.nodes && snap in c.snapshots
    ensures ReplicaInv(AfterInstall(c, n, snap))
  {
  }

  lemma ProposingKeepsReplicas(c: Cluster, n: nat, data: ProposalData, id: string, outcome: Outcome)
    requires ReplicaInv(c)
    ensures n in c.nodes ==> ReplicaInv(AfterRegister(c, n, data))
    ensures id in c.proposed && c.proposed[id].node in c.nodes ==> ReplicaInv(AfterSubmit(c, id, outcome))
  {
  }

  lemma NextKeepsReplicas(c: Cluster, step: Step)
    requires ReplicaInv(c)
    ensures ReplicaInv(Next(c, step))
  {
    match step
    case Register(n, data) =>
      ProposingKeepsReplicas(c, n, data, "", RaftError);
    case Submit(id, outcome) =>
      ProposingKeepsReplicas(c, 0, Noop, id, outcome);
    case Commit(id) =>
      if id in c.proposed {
        CommitKeepsReplicas(c, Entry(Some(c.proposed[id].data), id));
      }
    case CommitBlank =>
      CommitKeepsReplicas(c, Entry(None, ""));
    case Apply(n, reply) =>
      if n in c.nodes && c.nodes[n].applied < |c.log| {
        ApplyKeepsReplicas(c, n, reply);
      }
    case TakeSnapshot(n, image) =>
      if n in c.nodes && Lists(image, c.nodes[n].data) {
        SnapshotRoundTrip(image, c.nodes[n].data);
      }
    case Install(n, snap) =>
      if n in c.nodes && snap in c.snapshots {
        InstallKeepsReplicas(c, n, snap);
      }
  }

  lemma {:induction false} RunKeepsReplicas(c: Cluster, steps: seq<Step>)
    requires ReplicaInv(c)
    ensures ReplicaInv(Run(c, steps))
    decreases |steps|
  {
    if steps != [] {
      NextKeepsReplicas(c, steps[0]);
      RunKeepsReplicas(Next(c, steps[0]), steps[1..]);
    }
  }

  /**
   Replica agreement. Over all runs every replica's map is the replay of the agreed log up
   to its applied index, so replicas at the same index are equal, snapshots included.
   */
  lemma ReplicaAgreement(processes: map<nat, nat>, steps: seq<Step>)
    ensures var c := After(processes, steps);
            && (forall n :: n in c.nodes ==>
                  c.nodes[n].applied <= |c.log| && c.nodes[n].data == Replay(map[], c.log[..c.nodes[n].applied]))
            && (forall n, m :: n in c.nodes && m in c.nodes && c.nodes[n].applied == c.nodes[m].applied
                  ==> c.nodes[n].data == c.nodes[m].data)
  {
    RunKeepsReplicas(NewCluster(processes), steps);
    var c := After(processes, steps);
    forall n | n in c.nodes ensures UpToDate(c.log, c.nodes[n].data, c.nodes[n].applied) {
    }
  }

  lemma ApplyMoves(c: Cluster, n: nat, reply: string)
    requires ReplicaInv(c) && CanApply(c, n, reply)
    ensures var c' := Next(c, Apply(n, reply));
            && c'.log == c.log && n in c'.nodes && c'.nodes[n].applied == c.nodes[n].applied + 1
            && UpToDate(c.log, c'.nodes[n].data, c.nodes[n].applied + 1)
  {
    OneFurther(c.log, c.nodes[n].data, c.nodes[n].applied);
  }

  lemma InstallMoves(c: Cluster, n: nat, snap: Snap)
    requires ReplicaInv(c) && n in c.nodes && snap in c.snapshots
    ensures var c' := Next(c, Install(n, snap));
            && c'.log == c.log && n in c'.nodes && c'.nodes[n].applied == snap.index
            && UpToDate(c.log, c'.nodes[n].data, snap.index)
            && c'.nodes[n].pending == c.nodes[n].pending
  {
  }

  /**
   What moves a replica, at any point of any run: applying takes it one entry further whether or
   not anybody waits, an install puts it at the index of the snapshot, back or forth, and what it
   then holds is the replay of the log to that index.
   */
  lemma ReplicasMove(processes: map<nat, nat>, steps: seq<Step>, n: nat, reply: string, snap: Snap)
    requires n in After(processes, steps).nodes
    ensures var c := After(processes, steps);
            CanApply(c, n, reply) ==>
              var c' := Next(c, Apply(n, reply));
              && c'.log == c.log && n in c'.nodes && c'.nodes[n].applied == c.nodes[n].applied + 1 <= |c.log|
              && c'.nodes[n].data == Replay(map[], c.log[..c.nodes[n].applied + 1])
    ensures var c := After(processes, steps);
            snap in c.snapshots ==>
              var c' := Next(c, Install(n, snap));
              && c'.log == c.log && n in c'.nodes && c'.nodes[n].applied == snap.index <= |c.log|
              && c'.nodes[n].data == Replay(map[], c.log[..snap.index])
              && c'.nodes[n].pending == c.nodes[n].pending
  {
    RunKeepsReplicas(NewCluster(processes), steps);
    var c := After(processes, steps);
    if CanApply(c, n, reply) {
      ApplyMoves(c, n, reply);
    }
    if snap in c.snapshots {
      InstallMoves(c, n, snap);
    }
  }

  // ---------------------------------------------------------------- replies

  /** Every id in use was drawn by its own node, at a counter value its process has passed. */
  ghost predicate DrawnBefore(c: Cluster, id: string)
    requires id in c.proposed
  {
    var p := c.proposed[id];
    p.node in c.nodes && id == ProposalId(p.node, p.counter) && p.counter < Counter(c, c.nodes[p.node].process)
  }

  ghost predicate IdsInv(c: Cluster) {
    forall id :: id in c.proposed ==> DrawnBefore(c, id)
  }

  /** What waits at a node was proposed there. */
  ghost predicate PendingInv(c: Cluster) {
    forall n, id :: n in c.nodes && id in c.nodes[n].pending ==> id in c.proposed && c.proposed[id].node == n
  }

  /** What is in the log was proposed under the id it carries. */
  ghost predicate LogInv(c: Cluster) {
    forall i :: 0 <= i < |c.log| && c.log[i].data.Some? ==>
      c.log[i].context in c.proposed && c.proposed[c.log[i].context].data == c.log[i].data.value
  }

  ghost predicate ProposalsInv(c: Cluster) {
    IdsInv(c) && PendingInv(c) && LogInv(c)
  }

  /** The reply is to its own node's proposal, from a position holding that proposal, with its result there. */
  ghost predicate Right(c: Cluster, r: Reply) {
    && r.id in c.proposed && c.proposed[r.id].node == r.node
    && r.index < |c.log| && c.log[r.index] == Entry(Some(c.proposed[r.id].data), r.id)
    && ReplyFits(Replay(map[], c.log[..r.index]), c.proposed[r.id].data, r.result)
  }

  /** The reply was given once and its proposal waits no more. */
  ghost predicate Settled(c: Cluster, r: Reply) {
    Right(c, r) && r.node in c.nodes && r.id !in c.nodes[r.node].pending
  }

  ghost predicate RepliesInv(c: Cluster) {
    && (forall i :: 0 <= i < |c.replies| ==> Settled(c, c.replies[i]))
    && (forall i, j :: 0 <= i < j < |c.replies| ==> c.replies[i].id != c.replies[j].id)
  }

  ghost predicate Inv(c: Cluster) {
    ReplicaInv(c) && ProposalsInv(c) && RepliesInv(c)
  }

  /** The drawn id is new: ids are injective and the counter has passed every earlier one. */
  lemma NewIdIsFresh(c: Cluster, n: nat)
    requires IdsInv(c) && n in c.nodes
    ensures NewId(c, n) !in c.proposed
  {
    var id := NewId(c, n);
    if id in c.proposed {
      var p := c.proposed[id];
      ProposalIdInjective(p.node, p.counter, n, Counter(c, c.nodes[n].process));
    }
  }

  lemma RegisterKeepsProposals(c: Cluster, n: nat, data: ProposalData)
    requires IdsInv(c) && n in c.nodes
    ensures var c' := AfterRegister(c, n, data);
            && (forall id :: id in c.proposed ==> id in c'.proposed && c'.proposed[id] == c.proposed[id])
            && c'.log == c.log
  {
    NewIdIsFresh(c, n);
  }

  lemma OthersKeepProposals(c: Cluster, step: Step)
    requires !step.Register? || step.node !in c.nodes
    ensures Next(c, step).proposed == c.proposed && c.log <= Next(c, step).log
  {
  }

  /** Nothing forgets a proposal or changes it. */
  lemma ProposalsStay(c: Cluster, step: Step)
    requires IdsInv(c)
    ensures forall id :: id in c.proposed ==>
              id in Next(c, step).proposed && Next(c, step).proposed[id] == c.proposed[id]
    ensures c.log <= Next(c, step).log
  {
    if step.Register? && step.node in c.nodes {
      RegisterKeepsProposals(c, step.node, step.data);
    } else {
      OthersKeepProposals(c, step);
    }
  }

  /** Nodes stay in their process, counters only go up, and only a registration adds a pending id. */
  lemma NodesStay(c: Cluster, step: Step, n: nat)
    requires n in c.nodes || n in Next(c, step).nodes
    ensures n in c.nodes && n in Next(c, step).nodes && Next(c, step).nodes[n].process == c.nodes[n].process
    ensures forall process :: Counter(c, process) <= Counter(Next(c, step), process)
    ensures forall id :: id in Next(c, step).nodes[n].pending ==>
              id in c.nodes[n].pending || (step.Register? && step.node == n && id == NewId(c, n))
  {
  }

  lemma WaitingWasProposed(c: Cluster, step: Step, n: nat, id: string)
    requires IdsInv(c) && PendingInv(c)
    requires n in Next(c, step).nodes && id in Next(c, step).nodes[n].pending
    ensures id in Next(c, step).proposed && Next(c, step).proposed[id].node == n
  {
    ProposalsStay(c, step);
    NodesStay(c, step, n);
  }

  lemma NextKeepsPending(c: Cluster, step: Step)
    requires IdsInv(c) && PendingInv(c)
    ensures PendingInv(Next(c, step))
  {
    var c' := Next(c, step);
    forall n, id | n in c'.nodes && id in c'.nodes[n].pending ensures id in c'.proposed && c'.proposed[id].node == n {
      WaitingWasProposed(c, step, n, id);
    }
  }

  lemma NextKeepsIds(c: Cluster, step: Step)
    requires IdsInv(c)
    ensures IdsInv(Next(c, step))
  {
    var c' := Next(c, step);
    ProposalsStay(c, step);
    forall id | id in c'.proposed ensures DrawnBefore(c', id) {
      NewOrOld(c, step, id);
      NodesStay(c, step, c'.proposed[id].node);
      if id in c.proposed {
        assert DrawnBefore(c, id);
      }
    }
  }

  lemma NewOrOld(c: Cluster, step: Step, id: string)
    requires IdsInv(c) && id in Next(c, step).proposed
    ensures id in c.proposed || (step.Register? && step.node in c.nodes && id == NewId(c, step.node))
    ensures Next(c, step).proposed[id].node in c.nodes
    ensures id !in c.proposed ==>
              var p := Next(c, step).proposed[id];
              && id == ProposalId(p.node, p.counter)
              && p.counter < Counter(Next(c, step), c.nodes[p.node].process)
  {
    ProposalsStay(c, step);
    if id in c.proposed {
      assert DrawnBefore(c, id);
    }
  }

  lemma NextKeepsLog(c: Cluster, step: Step)
    requires IdsInv(c) && LogInv(c)
    ensures LogInv(Next(c, step))
  {
    ProposalsStay(c, step);
  }

  /** Replies stay right when the log grows and new proposals are drawn. */
  lemma StillRight(c: Cluster, c': Cluster, r: Reply)
    requires Right(c, r)
    requires c.log <= c'.log
    requires r.id in c'.proposed && c'.proposed[r.id] == c.proposed[r.id]
    ensures Right(c', r)
  {
    assert c'.log[..r.index] == c.log[..r.index];
  }

  lemma {:induction false} OldRepliesStayRight(c: Cluster, step: Step)
    requires Inv(c)
    ensures forall i :: 0 <= i < |c.replies| ==> Right(Next(c, step), c.replies[i])
  {
    var c' := Next(c, step);
    ProposalsStay(c, step);
    forall i | 0 <= i < |c.replies| ensures Right(c', c.replies[i]) {
      assert Settled(c, c.replies[i]);
      StillRight(c, c', c.replies[i]);
    }
  }

  /** An answered id never waits again. */
  lemma AnsweredStaysAnswered(c: Cluster, step: Step, n: nat, id: string)
    requires IdsInv(c)
    requires n in c.nodes && id in c.proposed && id !in c.nodes[n].pending
    ensures n in Next(c, step).nodes && id !in Next(c, step).nodes[n].pending
  {
    NodesStay(c, step, n);
    if step.Register? && step.node in c.nodes {
      NewIdIsFresh(c, step.node);
    }
  }

  /** At most one reply a step; it is right, and its proposal was waiting and no longer is. */
  ghost predicate OneMoreReply(c: Cluster, c': Cluster) {
    && |c'.replies| == |c.replies| + 1
    && c'.replies[..|c.replies|] == c.replies
    && var r := c'.replies[|c.replies|];
       && Right(c', r)
       && r.node in c.nodes && r.id in c.nodes[r.node].pending
       && r.node in c'.nodes && r.id !in c'.nodes[r.node].pending
  }

  lemma NewReply(c: Cluster, step: Step)
    requires Inv(c)
    ensures var c' := Next(c, step); c'.replies == c.replies || OneMoreReply(c, c')
  {
    var c' := Next(c, step);
    if step.Apply? && c'.replies != c.replies {
      var n := step.node;
      assert UpToDate(c.log, c.nodes[n].data, c.nodes[n].applied);
      var r := c'.replies[|c.replies|];
      assert r.id in c.nodes[n].pending && c.proposed[r.id].node == n;
    }
  }

  lemma OldRepliesStaySettled(c: Cluster, step: Step)
    requires Inv(c)
    ensures forall i :: 0 <= i < |c.replies| ==> Settled(Next(c, step), c.replies[i])
  {
    OldRepliesStayRight(c, step);
    forall i | 0 <= i < |c.replies| ensures Settled(Next(c, step), c.replies[i]) {
      assert Settled(c, c.replies[i]);
      AnsweredStaysAnswered(c, step, c.replies[i].node, c.replies[i].id);
    }
  }

  lemma OneMoreKeepsReplies(c: Cluster, c': Cluster)
    requires RepliesInv(c)
    requires forall i :: 0 <= i < |c.replies| ==> Settled(c', c.replies[i])
    requires c'.replies == c.replies || OneMoreReply(c, c')
    ensures RepliesInv(c')
  {
    forall i | 0 <= i < |c'.replies| ensures Settled(c', c'.replies[i]) {
      assert i < |c.replies| ==> c'.replies[i] == c.replies[i];
    }
    forall i, j | 0 <= i < j < |c'.replies| ensures c'.replies[i].id != c'.replies[j].id {
      assert c'.replies[i] == c.replies[i] && Settled(c, c.replies[i]);
      assert j < |c.replies| ==> c'.replies[j] == c.replies[j];
      assert Settled(c', c'.replies[i]) && Settled(c', c'.replies[j]);
    }
  }

  lemma {:induction false} NextKeepsReplies(c: Cluster, step: Step)
    requires Inv(c)
    ensures RepliesInv(Next(c, step))
  {
    OldRepliesStaySettled(c, step);
    NewReply(c, step);
    OneMoreKeepsReplies(c, Next(c, step));
  }

  lemma {:induction false} NextKeepsInv(c: Cluster, step: Step)
    requires Inv(c)
    ensures Inv(Next(c, step))
  {
    NextKeepsReplicas(c, step);
    NextKeepsIds(c, step);
    NextKeepsPending(c, step);
    NextKeepsLog(c, step);
    NextKeepsReplies(c, step);
  }

  lemma {:induction false} RunKeepsInv(c: Cluster, steps: seq<Step>)
    requires Inv(c)
    ensures Inv(Run(c, steps))
    decreases |steps|
  {
    if steps != [] {
      NextKeepsInv(c, steps[0]);
      RunKeepsInv(Next(c, steps[0]), steps[1..]);
    }
  }

  /**
   Reply routing. Each proposal is answered at most once, by the node that made it, from a
   log position that holds it, with what its command answers to the replayed log before it.
   */
  lemma ReplyRouting(processes: map<nat, nat>, steps: seq<Step>)
    ensures var c := After(processes, steps);
            && (forall i :: 0 <= i < |c.replies| ==> Right(c, c.replies[i]))
            && (forall i, j :: 0 <= i < j < |c.replies| ==> c.replies[i].id != c.replies[j].id)
  {
    RunKeepsInv(NewCluster(processes), steps);
    var c := After(processes, steps);
    assert forall i :: 0 <= i < |c.replies| ==> Settled(c, c.replies[i]);
  }

  // ---------------------------------------------------------------- exactly once

  ghost predicate Replied(c: Cluster, id: string) {
    exists i :: 0 <= i < |c.replies| && c.replies[i].id == id
  }

  /** The proposal waits at its own node, or has been answered. */
  ghost predicate WaitsOrReplied(c: Cluster, id: string)
    requires id in c.proposed
  {
    var n := c.proposed[id].node;
    Replied(c, id) || (n in c.nodes && id in c.nodes[n].pending)
  }

  /** Only a proposal that Raft turned down can be neither waiting nor answered. */
  ghost predicate WaitingInv(c: Cluster) {
    && (forall id :: id in c.accepted ==> id in c.submitted && id in c.proposed)
    && (forall id :: id in c.proposed && (id in c.accepted || id !in c.submitted) ==> WaitsOrReplied(c, id))
  }

  ghost predicate LogAccepted(c: Cluster) {
    forall i :: 0 <= i < |c.log| && c.log[i].data.Some? ==> c.log[i].context in c.accepted
  }

  lemma RepliesGrow(c: Cluster, step: Step)
    ensures c.replies <= Next(c, step).replies
  {
  }

  lemma StillReplied(c: Cluster, c': Cluster, id: string)
    requires c.replies <= c'.replies && Replied(c, id)
    ensures Replied(c', id)
  {
    var i :| 0 <= i < |c.replies| && c.replies[i].id == id;
    assert c'.replies[i].id == id;
  }

  /** A step takes an id off the waiting list only by turning it down or by answering it. */
  lemma WaitingEnds(c: Cluster, step: Step, n: nat, id: string)
    requires n in c.nodes && id in c.nodes[n].pending
    ensures n in Next(c, step).nodes
    ensures id in Next(c, step).nodes[n].pending
            || (step == Submit(id, NotLeader) && id !in c.submitted && id in Next(c, step).submitted)
            || Replied(Next(c, step), id)
  {
    var c' := Next(c, step);
    if step.Apply? && c'.replies != c.replies && id !in c'.nodes[n].pending {
      assert c'.replies[|c.replies|].id == id;
    }
  }

  /** Acceptance comes with submission, which happens once. */
  lemma SubmissionsGrow(c: Cluster, step: Step, id: string)
    requires forall j :: j in c.accepted ==> j in c.submitted && j in c.proposed
    ensures id in Next(c, step).accepted ==>
              && id in Next(c, step).submitted
              && (id in c.accepted || (step == Submit(id, Accepted) && id !in c.submitted && id in c.proposed))
    ensures id in c.submitted ==> id in Next(c, step).submitted
    ensures id in c.accepted ==> id in Next(c, step).accepted
  {
  }

  lemma StillWaitsOrReplied(c: Cluster, step: Step, id: string)
    requires IdsInv(c) && WaitingInv(c)
    requires var c' := Next(c, step); id in c'.proposed && (id in c'.accepted || id !in c'.submitted)
    ensures WaitsOrReplied(Next(c, step), id)
  {
    var c' := Next(c, step);
    ProposalsStay(c, step);
    SubmissionsGrow(c, step, id);
    if id in c.proposed {
      var n := c.proposed[id].node;
      assert WaitsOrReplied(c, id);
      if Replied(c, id) {
        RepliesGrow(c, step);
        StillReplied(c, c', id);
      } else {
        WaitingEnds(c, step, n, id);
      }
    } else {
      NewOrOld(c, step, id);
    }
  }

  lemma NextKeepsWaiting(c: Cluster, step: Step)
    requires IdsInv(c) && WaitingInv(c)
    ensures WaitingInv(Next(c, step))
  {
    var c' := Next(c, step);
    ProposalsStay(c, step);
    forall id | id in c'.accepted ensures id in c'.submitted && id in c'.proposed {
      SubmissionsGrow(c, step, id);
    }
    forall id | id in c'.proposed && (id in c'.accepted || id !in c'.submitted) ensures WaitsOrReplied(c', id) {
      StillWaitsOrReplied(c, step, id);
    }
  }

  lemma NextKeepsLogAccepted(c: Cluster, step: Step)
    requires LogAccepted(c)
    ensures LogAccepted(Next(c, step))
  {
  }

  lemma {:induction false} RunKeepsWaiting(c: Cluster, steps: seq<Step>)
    requires Inv(c) && WaitingInv(c) && LogAccepted(c)
    ensures WaitingInv(Run(c, steps)) && LogAccepted(Run(c, steps))
    decreases |steps|
  {
    if steps != [] {
      NextKeepsInv(c, steps[0]);
      NextKeepsWaiting(c, steps[0]);
      NextKeepsLogAccepted(c, steps[0]);
      RunKeepsWaiting(Next(c, steps[0]), steps[1..]);
    }
  }

  lemma {:induction false} RunKeepsReplied(c: Cluster, steps: seq<Step>, id: string)
    requires Replied(c, id)
    ensures Replied(Run(c, steps), id)
    decreases |steps|
  {
    if steps != [] {
      RepliesGrow(c, steps[0]);
      StillReplied(c, Next(c, steps[0]), id);
      RunKeepsReplied(Next(c, steps[0]), steps[1..], id);
    }
  }

  /** The node has an entry to apply, and `reply` is what the command in it answers, if anybody waits. */
  ghost predicate CanApply(c: Cluster, n: nat, reply: string) {
    && n in c.nodes && c.nodes[n].applied < |c.log|
    && var e := c.log[c.nodes[n].applied];
       Completes(e, c.nodes[n].pending) ==> ReplyFits(c.nodes[n].data, e.data.value, reply)
  }

  /** The entry it applies next is a proposal of its own. */
  ghost predicate OwnEntry(c: Cluster, n: nat)
    requires n in c.nodes && c.nodes[n].applied < |c.log|
  {
    var e := c.log[c.nodes[n].applied];
    e.data.Some? && e.context in c.proposed && c.proposed[e.context].node == n
  }

  /** When the proposing node applies the entry, its proposal has been answered by the end of the step. */
  lemma OwnApplyReplies(c: Cluster, n: nat, reply: string)
    requires Inv(c) && WaitingInv(c) && LogAccepted(c)
    requires CanApply(c, n, reply) && OwnEntry(c, n)
    ensures Replied(Next(c, Apply(n, reply)), c.log[c.nodes[n].applied].context)
  {
    var e := c.log[c.nodes[n].applied];
    var id := e.context;
    var c' := Next(c, Apply(n, reply));
    assert WaitsOrReplied(c, id);
    if Replied(c, id) {
      RepliesGrow(c, Apply(n, reply));
      StillReplied(c, c', id);
    } else {
      assert DrawnBefore(c, id);
      assert |id| > 0;
      assert Completes(e, c.nodes[n].pending);
      assert c'.replies[|c.replies|].id == id;
    }
  }

  ghost predicate RepliedOnce(c: Cluster, id: string) {
    exists i :: 0 <= i < |c.replies| && c.replies[i].id == id &&
                forall j :: 0 <= j < |c.replies| && j != i ==> c.replies[j].id != id
  }

  /**
   A committed proposal is answered exactly once if the node that made it ever applies its entry,
   rather than jumping over it by snapshot: from that step on, whatever follows.
   */
  lemma ExactlyOnce(processes: map<nat, nat>, steps: seq<Step>, n: nat, reply: string, more: seq<Step>)
    requires CanApply(After(processes, steps), n, reply) && OwnEntry(After(processes, steps), n)
    ensures var c := After(processes, steps);
            RepliedOnce(Run(Next(c, Apply(n, reply)), more), c.log[c.nodes[n].applied].context)
  {
    RunKeepsInv(NewCluster(processes), steps);
    RunKeepsWaiting(NewCluster(processes), steps);
    var c := After(processes, steps);
    var id := c.log[c.nodes[n].applied].context;
    var c' := Next(c, Apply(n, reply));
    OwnApplyReplies(c, n, reply);
    NextKeepsInv(c, Apply(n, reply));
    RunKeepsReplied(c', more, id);
    RunKeepsInv(c', more);
    OnceInAll(Run(c', more), id);
  }

  lemma OnceInAll(c: Cluster, id: string)
    requires RepliesInv(c) && Replied(c, id)
    ensures RepliedOnce(c, id)
  {
    var i :| 0 <= i < |c.replies| && c.replies[i].id == id;
    assert forall j :: 0 <= j < |c.replies| && j != i ==> c.replies[j].id != id;
  }

  /** An entry proposed by one node never completes a proposal of another. */
  lemma NoCrossCompletion(processes: map<nat, nat>, steps: seq<Step>, n: nat, i: nat)
    ensures var c := After(processes, steps);
            n in c.nodes && i < |c.log| && Completes(c.log[i], c.nodes[n].pending) ==>
              exists counter: nat :: c.log[i].context == ProposalId(n, counter)
  {
    RunKeepsInv(NewCluster(processes), steps);
    var c := After(processes, steps);
    if n in c.nodes && i < |c.log| && Completes(c.log[i], c.nodes[n].pending) {
      assert c.log[i].context == ProposalId(n, c.proposed[c.log[i].context].counter);
    }
  }
}
