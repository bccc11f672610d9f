/**
 The membership peer list (src/raft/config_manager.rs). The leader writes an added peer when
 it proposes the addition, and every node writes it when the change is committed. What the
 list then holds is the committed list overlaid by the speculative writes that no committed
 change has reached yet.
 */
module PeerConfig {
  import opened Wrappers

  type Peers = map<nat, string>

  /** The context bytes of a change: none, not decodable, or an address. */
  datatype Context = NoContext | Undecodable | Address(address: string)

  datatype Change = AddNode(node: nat, context: Context) | RemoveNode(node: nat) | UnknownChange(node: nat)

  /** What a committed change does to the list; an addition without an address does nothing. */
  function ApplyChange(peers: Peers, change: Change): Peers {
    match change
    case AddNode(n, Address(a)) => peers[n := a]
    case RemoveNode(n) => peers - {n}
    case _ => peers
  }

  /** The list of a node that was started with `initial` and only ever saw committed changes. */
  function Committed(initial: Peers, changes: seq<Change>): Peers {
    if changes == [] then initial else ApplyChange(Committed(initial, changes[..|changes| - 1]), changes[|changes| - 1])
  }

  predicate Touches(change: Change, node: nat) {
    change.node == node && (change.RemoveNode? || (change.AddNode? && change.context.Address?))
  }

  function Lookup(peers: Peers, node: nat): Option<string> {
    if node in peers then Some(peers[node]) else None
  }

  /** The entry of a node, read off the list of changes from its end. */
  function LastChange(initial: Peers, changes: seq<Change>, node: nat): Option<string> {
    if changes == [] then (if node in initial then Some(initial[node]) else None)
    else
      var earlier := changes[..|changes| - 1];
      match changes[|changes| - 1]
      case AddNode(n, Address(a)) => if n == node then Some(a) else LastChange(initial, earlier, node)
      case RemoveNode(n) => if n == node then None else LastChange(initial, earlier, node)
      case _ => LastChange(initial, earlier, node)
  }

  /** The committed list holds for every node what the last change to it said. */
  lemma {:induction false} CommittedHoldsLastChanges(initial: Peers, changes: seq<Change>, node: nat)
    ensures Lookup(Committed(initial, changes), node) == LastChange(initial, changes, node)
  {
    if changes != [] {
      CommittedHoldsLastChanges(initial, changes[..|changes| - 1], node);
    }
  }

  /** A change touches a node exactly when there is a list whose entry for it the change alters. */
  lemma TouchesIff(change: Change, node: nat)
    ensures Touches(change, node) <==>
              exists peers: Peers :: Lookup(ApplyChange(peers, change), node) != Lookup(peers, node)
  {
    if Touches(change, node) {
      var absent: Peers := map[];
      var present: Peers := map[node := ""];
      var peers := if change.AddNode? then absent else present;
      assert Lookup(ApplyChange(peers, change), node) != Lookup(peers, node);
    }
  }

  // ---------------------------------------------------------------- the protocol

  datatype Replica = Replica(
    peers: Peers,
    applied: seq<Change>,
    outstanding: map<nat, Change>,  // additions proposed here and not applied yet, by proposal number
    proposals: nat,
    speculative: Peers              // the latest speculative write of each node no change has touched since
  )

  datatype Step =
    | ProposeAdd(node: nat, address: string)  // accepted by Raft, this node being leader
    | ApplyOwn(proposal: nat)                 // a commit of one of those
    | ApplyOther(change: Change)              // a commit of anything else

  function NewReplica(initial: Peers): Replica {
    Replica(initial, [], map[], 0, map[])
  }

  function Commit(r: Replica, change: Change): Replica {
    r.(peers := ApplyChange(r.peers, change), applied := r.applied + [change],
       speculative := if Touches(change, change.node) then r.speculative - {change.node} else r.speculative)
  }

  function Next(r: Replica, step: Step): Replica {
    match step
    case ProposeAdd(n, a) =>
      r.(peers := r.peers[n := a], speculative := r.speculative[n := a], proposals := r.proposals + 1,
         outstanding := r.outstanding[r.proposals := AddNode(n, Address(a))])
    case ApplyOwn(p) =>
      if p in r.outstanding then Commit(r, r.outstanding[p]).(outstanding := r.outstanding - {p}) else r
    case ApplyOther(change) =>
      Commit(r, change)
  }

  function Run(r: Replica, steps: seq<Step>): Replica
    decreases |steps|
  {
    if steps == [] then r else Run(Next(r, steps[0]), steps[1..])
  }

  ghost predicate Pending(r: Replica, node: nat) {
    exists p :: p in r.outstanding && r.outstanding[p].node == node
  }

  ghost predicate Inv(initial: Peers, r: Replica) {
    && r.peers == Committed(initial, r.applied) + r.speculative
    && (forall p :: p in r.outstanding ==>
          p < r.proposals && r.outstanding[p].AddNode? && r.outstanding[p].context.Address?)
    && (forall n :: n in r.speculative ==> Pending(r, n))
  }

  lemma CommitKeepsOverlay(initial: Peers, r: Replica, change: Change)
    requires r.peers == Committed(initial, r.applied) + r.speculative
    ensures var r' := Commit(r, change); r'.peers == Committed(initial, r'.applied) + r'.speculative
  {
    assert (r.applied + [change])[..|r.applied|] == r.applied;
  }

  lemma NextKeepsInv(initial: Peers, r: Replica, step: Step)
    requires Inv(initial, r)
    ensures Inv(initial, Next(r, step))
  {
    var r' := Next(r, step);
    match step
    case ProposeAdd(n, a) =>
      assert r'.outstanding[r.proposals].node == n;
      forall m | m in r'.speculative ensures Pending(r', m) {
        if m != n {
          assert Pending(r, m);
          var p :| p in r.outstanding && r.outstanding[p].node == m;
          assert r'.outstanding[p].node == m;
        }
      }
    case ApplyOwn(q) =>
      if q in r.outstanding {
        CommitKeepsOverlay(initial, r, r.outstanding[q]);
        forall m | m in r'.speculative ensures Pending(r', m) {
          assert Pending(r, m);
          var p :| p in r.outstanding && r.outstanding[p].node == m;
          assert p in r'.outstanding;
        }
      }
    case ApplyOther(change) =>
      CommitKeepsOverlay(initial, r, change);
      forall m | m in r'.speculative ensures Pending(r', m) {
        assert Pending(r, m);
      }
  }

  lemma {:induction false} RunKeepsInv(initial: Peers, r: Replica, steps: seq<Step>)
    requires Inv(initial, r)
    ensures Inv(initial, Run(r, steps))
    decreases |steps|
  {
    if steps != [] {
      NextKeepsInv(initial, r, steps[0]);
      RunKeepsInv(initial, Next(r, steps[0]), steps[1..]);
    }
  }

  /**
   From any list to start with, over every interleaving of proposals and commits, the list is the
   committed list overlaid by the speculative writes; it is right on every node with no
   addition outstanding here.
   */
  lemma SpeculativePeersConverge(initial: Peers, steps: seq<Step>, node: nat)
    ensures var r := Run(NewReplica(initial), steps);
            && Lookup(r.peers, node) ==
               (if node in r.speculative then Some(r.speculative[node])
                else Lookup(Committed(initial, r.applied), node))
            && (!Pending(r, node) ==> Lookup(r.peers, node) == Lookup(Committed(initial, r.applied), node))
            && (Lookup(r.peers, node) == Lookup(Committed(initial, r.applied), node) <==>
                node in r.speculative ==> Lookup(Committed(initial, r.applied), node) == Some(r.speculative[node]))
  {
    RunKeepsInv(initial, NewReplica(initial), steps);
  }

  lemma QuietIsCommitted(initial: Peers, steps: seq<Step>)
    requires Run(NewReplica(initial), steps).outstanding == map[]
    ensures var r := Run(NewReplica(initial), steps); r.peers == Committed(initial, r.applied)
  {
    RunKeepsInv(initial, NewReplica(initial), steps);
    var r := Run(NewReplica(initial), steps);
    assert forall n :: !Pending(r, n);
    assert r.speculative == map[];
  }

  ghost predicate Touched(changes: seq<Change>, node: nat) {
    exists i :: 0 <= i < |changes| && Touches(changes[i], node)
  }

  /** Committed lists agree on a node exactly when some change touched it or they did to begin with. */
  lemma {:induction false} CommittedAgreeIff(initial1: Peers, initial2: Peers, changes: seq<Change>, node: nat)
    ensures Lookup(Committed(initial1, changes), node) == Lookup(Committed(initial2, changes), node)
            <==> Touched(changes, node) || Lookup(initial1, node) == Lookup(initial2, node)
  {
    if changes != [] {
      var earlier, last := changes[..|changes| - 1], changes[|changes| - 1];
      CommittedAgreeIff(initial1, initial2, earlier, node);
      assert Touched(changes, node) <==> Touched(earlier, node) || Touches(last, node) by {
        assert forall i :: 0 <= i < |earlier| ==> changes[i] == earlier[i];
      }
    }
  }

  lemma SamePeersIff(a: Peers, b: Peers)
    ensures a == b <==> forall n :: Lookup(a, n) == Lookup(b, n)
  {
    if forall n :: Lookup(a, n) == Lookup(b, n) {
      forall n ensures n in a <==> n in b
               ensures n in a ==> a[n] == b[n] {
        assert Lookup(a, n) == Lookup(b, n);
      }
    }
  }

  /**
   Two nodes that have applied the same changes and have no addition outstanding agree exactly
   when they were started with the same entry for every node that no change has touched.
   */
  lemma ReplicasAgreeIff(initial1: Peers, initial2: Peers, steps1: seq<Step>, steps2: seq<Step>)
    requires Run(NewReplica(initial1), steps1).applied == Run(NewReplica(initial2), steps2).applied
    requires Run(NewReplica(initial1), steps1).outstanding == map[]
    requires Run(NewReplica(initial2), steps2).outstanding == map[]
    ensures var r1, r2 := Run(NewReplica(initial1), steps1), Run(NewReplica(initial2), steps2);
            r1.peers == r2.peers <==>
              forall n :: Touched(r1.applied, n) || Lookup(initial1, n) == Lookup(initial2, n)
  {
    QuietIsCommitted(initial1, steps1);
    QuietIsCommitted(initial2, steps2);
    var r1, r2 := Run(NewReplica(initial1), steps1), Run(NewReplica(initial2), steps2);
    SamePeersIff(r1.peers, r2.peers);
    forall n ensures Lookup(r1.peers, n) == Lookup(r2.peers, n)
                     <==> Touched(r1.applied, n) || Lookup(initial1, n) == Lookup(initial2, n) {
      CommittedAgreeIff(initial1, initial2, r1.applied, n);
    }
  }

  /** A later commit that touches the node repairs its entry, whatever was written before. */
  lemma CommitRepairs(initial: Peers, steps: seq<Step>, change: Change)
    requires Touches(change, change.node)
    ensures var r := Next(Run(NewReplica(initial), steps), ApplyOther(change));
            Lookup(r.peers, change.node) == Lookup(Committed(initial, r.applied), change.node)
  {
    RunKeepsInv(initial, NewReplica(initial), steps);
    CommitKeepsOverlay(initial, Run(NewReplica(initial), steps), change);
  }

  function Others(changes: seq<Change>): seq<Step> {
    if changes == [] then [] else [ApplyOther(changes[0])] + Others(changes[1..])
  }

  lemma {:induction false} SpeculativeStays(initial: Peers, r: Replica, node: nat, changes: seq<Change>)
    requires Inv(initial, r) && node in r.speculative
    requires forall i :: 0 <= i < |changes| ==> !Touches(changes[i], node)
    ensures var r' := Run(r, Others(changes));
            && Lookup(r'.peers, node) == Some(r.speculative[node])
            && Lookup(Committed(initial, r'.applied), node) == Lookup(Committed(initial, r.applied), node)
    decreases |changes|
  {
    if changes != [] {
      var step := ApplyOther(changes[0]);
      var r' := Next(r, step);
      NextKeepsInv(initial, r, step);
      assert r'.applied[..|r.applied|] == r.applied;
      assert Others(changes)[1..] == Others(changes[1..]);
      SpeculativeStays(initial, r', node, changes[1..]);
    }
  }

  /**
   A proposal that Raft accepts, in any run, and then loses: as long as no committed change
   touches that node, the list keeps the proposed address and the committed list keeps its own.
   */
  lemma LostProposalStays(initial: Peers, steps: seq<Step>, node: nat, address: string, changes: seq<Change>)
    requires forall i :: 0 <= i < |changes| ==> !Touches(changes[i], node)
    ensures var r := Run(NewReplica(initial), steps);
            var r' := Run(Next(r, ProposeAdd(node, address)), Others(changes));
            && Lookup(r'.peers, node) == Some(address)
            && Lookup(Committed(initial, r'.applied), node) == Lookup(Committed(initial, r.applied), node)
  {
    RunKeepsInv(initial, NewReplica(initial), steps);
    var r := Run(NewReplica(initial), steps);
    NextKeepsInv(initial, r, ProposeAdd(node, address));
    SpeculativeStays(initial, Next(r, ProposeAdd(node, address)), node, changes);
  }

  // ---------------------------------------------------------------- the object

  datatype Kind = Add | Remove

  datatype Response = NotLeader | ProposalFailed | BadAddress | Proposed

  class RaftConfigManager {
    var peers: Peers
    var replicationTrigger: bool

    constructor (peers: Peers)
      ensures this.peers == peers && !replicationTrigger
    {
      this.peers := peers;
      replicationTrigger := false;
    }

    /**
     The leader's side of a change. An accepted addition is written at once, and stays written
     even when the peer-to-peer address turns out not to parse.
     */
    method HandleConfChange(
      kind: Kind, node: nat, address: string, leader: bool, raftAccepts: bool, addressParses: bool)
      returns (r: Response)
      modifies `peers
      ensures r == if !leader then NotLeader
                   else if !raftAccepts then ProposalFailed
                   else if kind == Add && !addressParses then BadAddress
                   else Proposed
      ensures peers == if kind == Add && (r == Proposed || r == BadAddress) then old(peers)[node := address]
                       else old(peers)
    {
      if !leader {
        return NotLeader;
      }
      if !raftAccepts {
        return ProposalFailed;
      }
      if kind == Add {
        peers := peers[node := address];
        if !addressParses {
          return BadAddress;
        }
      }
      return Proposed;
    }

    method UpdateLocalPeers(change: Change)
      modifies `peers
      ensures peers == ApplyChange(old(peers), change)
      ensures change.AddNode? && change.context.Address? ==>
                Lookup(peers, change.node) == Some(change.context.address)
      ensures change.RemoveNode? ==> Lookup(peers, change.node) == None
      ensures forall n :: n != change.node ==> Lookup(peers, n) == Lookup(old(peers), n)
    {
      match change
      case AddNode(n, context) =>
        if context.Address? {
          peers := peers[n := context.address];
        }
      case RemoveNode(n) =>
        if n in peers {
          peers := peers - {n};
        }
      case UnknownChange(_) =>
    }

    /** Every committed addition asks for replication, even one whose context cannot be read. */
    method ApplyConfChange(change: Change)
      modifies `peers, `replicationTrigger
      ensures peers == ApplyChange(old(peers), change)
      ensures forall earlier, initial :: old(peers) == Committed(initial, earlier) ==>
                forall n :: Lookup(peers, n) == LastChange(initial, earlier + [change], n)
      ensures replicationTrigger == (old(replicationTrigger) || change.AddNode?)
    {
      forall earlier, initial, n | peers == Committed(initial, earlier)
        ensures Lookup(ApplyChange(peers, change), n) == LastChange(initial, earlier + [change], n) {
        assert (earlier + [change])[..|earlier|] == earlier;
        CommittedHoldsLastChanges(initial, earlier + [change], n);
      }
      UpdateLocalPeers(change);
      if change.AddNode? {
        replicationTrigger := true;
      }
    }

    /** Reading the flag clears it, so each request for replication is seen once. */
    method NeedsReplicationTrigger() returns (needed: bool)
      modifies `replicationTrigger
      ensures needed == old(replicationTrigger) && !replicationTrigger
    {
      needed := replicationTrigger;
      if needed {
        replicationTrigger := false;
      }
    }
  }
}
