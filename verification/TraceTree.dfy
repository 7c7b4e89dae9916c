/**
 Unfolding a product model into a tree of traces: states, the candidates of each, the guard and effect of each
 candidate, and a case at every end. The rules that judge a candidate are a parameter.
 */
module TraceTree {
  import opened Wrappers

  datatype RunPhase = Idle | Running | Completed | Compacting | GoalVerifying

  datatype Queue = EmptyQueue | TextQueue | GoalQueue | CompactQueue | MixedQueue

  datatype CompactMemory = Never | Compactable | JustCompacted | NotNeeded

  datatype GoalState = NoGoal | Active | Verifying | Verified | GoalFailed

  datatype Context = Context(
    runPhase: RunPhase,
    queue: Queue,
    compactMemory: CompactMemory,
    canCompactAgain: bool,
    goal: GoalState,
    selectedTurn: string,
    forked: bool)

  datatype Candidate = Candidate(id: string)

  datatype DecisionKind = Allow | Reject | Enqueue | Choice | System | Undefined

  datatype Decision = Decision(kind: DecisionKind, next: Option<Context>)

  /** The rules: there is always some user candidate. */
  datatype Model = Model(
    userCandidates: seq<Candidate>,
    systemCandidates: seq<Candidate>,
    applicable: (Context, Candidate) -> bool,
    evaluate: (Context, Candidate) -> Decision)

  function Filtered(m: Model, context: Context, candidates: seq<Candidate>): seq<Candidate> {
    if candidates == [] then []
    else
      (if m.applicable(context, candidates[0]) then [candidates[0]] else []) + Filtered(m, context, candidates[1..])
  }

  function EnumerateCandidates(m: Model, context: Context): seq<Candidate> {
    m.userCandidates + Filtered(m, context, m.systemCandidates)
  }

  // ---------- the queue

  function MergeQueue(queue: Queue, item: Queue): Queue {
    if queue == EmptyQueue then item else if queue == item then queue else MixedQueue
  }

  function Merged(items: seq<Queue>): Queue {
    if items == [] then EmptyQueue else MergeQueue(Merged(items[..|items| - 1]), items[|items| - 1])
  }

  predicate IsItem(queue: Queue) {
    queue == TextQueue || queue == GoalQueue || queue == CompactQueue
  }

  /** Enqueuing from empty remembers exactly what the set of kinds tells: nothing, the only kind, or a mixture. */
  lemma {:induction false} QueueRemembersTheKinds(items: seq<Queue>)
    requires forall i :: 0 <= i < |items| ==> IsItem(items[i])
    ensures Merged(items) == EmptyQueue <==> items == []
    ensures forall kind :: IsItem(kind) ==>
              (Merged(items) == kind <==> items != [] && forall i :: 0 <= i < |items| ==> items[i] == kind)
    ensures Merged(items) == MixedQueue <==> exists i, j :: 0 <= i < j < |items| && items[i] != items[j]
  {
    MergedIsEmpty(items);
    forall kind | IsItem(kind)
      ensures Merged(items) == kind <==> items != [] && forall i :: 0 <= i < |items| ==> items[i] == kind
    {
      MergedIsKind(items, kind);
    }
    hide Merged;
    var first := if items == [] then EmptyQueue else items[0];
    if items != [] && forall i :: 0 <= i < |items| ==> items[i] == first {
      assert Merged(items) == first;
    } else if items != [] {
      var j :| 0 <= j < |items| && items[j] != first;
      assert items[0] != items[j];
    }
  }

  lemma {:induction false} MergedIsEmpty(items: seq<Queue>)
    requires forall i :: 0 <= i < |items| ==> IsItem(items[i])
    ensures Merged(items) == EmptyQueue <==> items == []
  {
    if items != [] {
      MergedIsEmpty(items[..|items| - 1]);
    }
  }

  lemma {:induction false} MergedIsKind(items: seq<Queue>, kind: Queue)
    requires IsItem(kind) && forall i :: 0 <= i < |items| ==> IsItem(items[i])
    ensures Merged(items) == kind <==> items != [] && forall i :: 0 <= i < |items| ==> items[i] == kind
  {
    if items != [] {
      var n := |items| - 1;
      var front := items[..n];
      MergedIsKind(front, kind);
      MergedIsEmpty(front);
      assert Merged(items) == MergeQueue(Merged(front), items[n]);
      hide Merged;
      assert forall i :: 0 <= i < n ==> items[i] == front[i];
    }
  }

  // ---------- the tree

  datatype NodeKind = StateNode | CandidateNode | GuardNode | EffectNode | CaseNode

  /** What a node is about: nothing but its context, a candidate, or a candidate and what the rules say of it. */
  datatype About = Nothing | Chosen(candidate: Candidate) | Judged(candidate: Candidate, decision: Decision)

  datatype Node = Node(id: nat, kind: NodeKind, context: Context, about: About, caseId: Option<nat>,
                       children: seq<Node>)

  /** The two counters that numbers are drawn from. */
  datatype Ids = Ids(nextNodeId: nat, nextCaseId: nat)

  type Seen = map<(nat, Context), nat>

  function Fresh(ids: Ids): Ids {
    ids.(nextNodeId := ids.nextNodeId + 1)
  }

  function MadeCase(context: Context, about: About, ids: Ids): (Node, Ids) {
    var ids' := Ids(ids.nextNodeId + 1, ids.nextCaseId + 1);
    (Node(ids'.nextNodeId, CaseNode, context, about, Some(ids'.nextCaseId), []), ids')
  }

  /** How many more rounds there are. */
  function RoundsLeft(round: nat, maxRounds: nat): nat {
    if round > maxRounds then 0 else maxRounds + 1 - round
  }

  function Visited(seen: Seen, round: nat, context: Context): nat {
    if (round, context) in seen then seen[(round, context)] else 0
  }

  function BuildState(m: Model, context: Context, round: nat, maxRounds: nat, seen: Seen, ids: Ids): (Node, Ids)
    decreases RoundsLeft(round, maxRounds), 2, 0
  {
    var ids' := Fresh(ids);
    if round > maxRounds then MadeCase(context, Nothing, ids')
    else
      var visited := Visited(seen, round, context);
      if visited > 1 then MadeCase(context, Nothing, ids')
      else
        var (children, ids'') := BuildAll(m, context, EnumerateCandidates(m, context), round, maxRounds,
                                          seen[(round, context) := visited + 1], ids');
        (Node(ids'.nextNodeId, StateNode, context, Nothing, None, children), ids'')
  }

  function BuildAll(m: Model, context: Context, candidates: seq<Candidate>, round: nat, maxRounds: nat, seen: Seen,
                    ids: Ids): (r: (seq<Node>, Ids))
    requires round <= maxRounds
    ensures |r.0| == |candidates|
    decreases RoundsLeft(round, maxRounds), 1, |candidates|
  {
    if candidates == [] then ([], ids)
    else
      var (before, ids') := BuildAll(m, context, candidates[..|candidates| - 1], round, maxRounds, seen, ids);
      var (last, ids'') := BuildCandidate(m, context, candidates[|candidates| - 1], round, maxRounds, seen, ids');
      (before + [last], ids'')
  }

  /** Only these decisions lead on to a next state. */
  predicate LeadsOn(decision: Decision) {
    decision.next.Some? && decision.kind != Reject && decision.kind != Undefined && decision.kind != Choice
  }

  function BuildCandidate(m: Model, context: Context, candidate: Candidate, round: nat, maxRounds: nat, seen: Seen,
                          ids: Ids): (Node, Ids)
    requires round <= maxRounds
    decreases RoundsLeft(round, maxRounds), 0, 0
  {
    var decision := m.evaluate(context, candidate);
    var after := if decision.next.Some? then decision.next.value else context;
    var about := Judged(candidate, decision);
    var n := ids.nextNodeId;
    var ids' := ids.(nextNodeId := n + 3);
    var (below, ids'') := if LeadsOn(decision) then BuildState(m, decision.next.value, round + 1, maxRounds, seen, ids')
                          else MadeCase(after, about, ids');
    (Node(n + 1, CandidateNode, context, Chosen(candidate), None, [Node(n + 2, GuardNode, context, about, None,
       [Node(n + 3, EffectNode, after, about, None, [below])])]), ids'')
  }

  /** The object that draws the numbers. */
  class TraceBuilder {
    const model: Model
    var nextNodeId: nat
    var nextCaseId: nat

    ghost function State(): Ids
      reads this
    {
      Ids(nextNodeId, nextCaseId)
    }

    constructor (model: Model)
      ensures this.model == model && State() == Ids(0, 0)
    {
      this.model := model;
      nextNodeId, nextCaseId := 0, 0;
    }

    method MakeCase(context: Context, about: About) returns (node: Node)
      modifies this
      ensures (node, State()) == MadeCase(context, about, old(State()))
    {
      nextCaseId := nextCaseId + 1;
      nextNodeId := nextNodeId + 1;
      return Node(nextNodeId, CaseNode, context, about, Some(nextCaseId), []);
    }

    method BuildStateNode(context: Context, round: nat, maxRounds: nat, seen: Seen) returns (node: Node)
      modifies this
      ensures (node, State()) == BuildState(model, context, round, maxRounds, seen, old(State()))
      decreases RoundsLeft(round, maxRounds), 2
    {
      nextNodeId := nextNodeId + 1;
      var id := nextNodeId;
      if round > maxRounds {
        node := MakeCase(context, Nothing);
        return;
      }
      var visited := Visited(seen, round, context);
      if visited > 1 {
        node := MakeCase(context, Nothing);
        return;
      }
      var nextSeen := seen[(round, context) := visited + 1];
      var candidates := EnumerateCandidates(model, context);
      var children: seq<Node> := [];
      ghost var start := State();
      for i := 0 to |candidates|
        invariant (children, State()) == BuildAll(model, context, candidates[..i], round, maxRounds, nextSeen, start)
      {
        assert candidates[..i + 1][..i] == candidates[..i];
        var child := BuildCandidateNode(context, candidates[i], round, maxRounds, nextSeen);
        children := children + [child];
      }
      assert candidates[..|candidates|] == candidates;
      return Node(id, StateNode, context, Nothing, None, children);
    }

    method BuildCandidateNode(context: Context, candidate: Candidate, round: nat, maxRounds: nat, seen: Seen)
        returns (node: Node)
      requires round <= maxRounds
      modifies this
      ensures (node, State()) == BuildCandidate(model, context, candidate, round, maxRounds, seen, old(State()))
      decreases RoundsLeft(round, maxRounds), 1
    {
      var decision := model.evaluate(context, candidate);
      var after := if decision.next.Some? then decision.next.value else context;
      var about := Judged(candidate, decision);
      var n := nextNodeId;
      nextNodeId := nextNodeId + 3;
      var below;
      if LeadsOn(decision) {
        below := BuildStateNode(decision.next.value, round + 1, maxRounds, seen);
      } else {
        below := MakeCase(after, about);
      }
      var guard := Node(n + 2, GuardNode, context, about, None, [Node(n + 3, EffectNode, after, about, None, [below])]);
      return Node(n + 1, CandidateNode, context, Chosen(candidate), None, [guard]);
    }

    method BuildTraceTree(context: Context, maxRounds: nat) returns (root: Node)
      modifies this
      ensures (root, State()) == BuildState(model, context, 1, maxRounds, map[], Ids(0, 0))
    {
      nextNodeId, nextCaseId := 0, 0;
      root := BuildStateNode(context, 1, maxRounds, map[]);
    }
  }

  // ---------- the repeated-context cut-off is never taken

  /** The tree without the record of visited contexts. */
  function Unfolded(m: Model, context: Context, round: nat, maxRounds: nat, ids: Ids): (Node, Ids)
    decreases RoundsLeft(round, maxRounds), 2, 0
  {
    var ids' := Fresh(ids);
    if round > maxRounds then MadeCase(context, Nothing, ids')
    else
      var (children, ids'') := UnfoldedAll(m, context, EnumerateCandidates(m, context), round, maxRounds, ids');
      (Node(ids'.nextNodeId, StateNode, context, Nothing, None, children), ids'')
  }

  function UnfoldedAll(m: Model, context: Context, candidates: seq<Candidate>, round: nat, maxRounds: nat, ids: Ids):
      (r: (seq<Node>, Ids))
    requires round <= maxRounds
    ensures |r.0| == |candidates|
    decreases RoundsLeft(round, maxRounds), 1, |candidates|
  {
    if candidates == [] then ([], ids)
    else
      var (before, ids') := UnfoldedAll(m, context, candidates[..|candidates| - 1], round, maxRounds, ids);
      var (last, ids'') := UnfoldedCandidate(m, context, candidates[|candidates| - 1], round, maxRounds, ids');
      (before + [last], ids'')
  }

  function UnfoldedCandidate(m: Model, context: Context, candidate: Candidate, round: nat, maxRounds: nat, ids: Ids):
      (Node, Ids)
    requires round <= maxRounds
    decreases RoundsLeft(round, maxRounds), 0, 0
  {
    var decision := m.evaluate(context, candidate);
    var after := if decision.next.Some? then decision.next.value else context;
    var about := Judged(candidate, decision);
    var n := ids.nextNodeId;
    var ids' := ids.(nextNodeId := n + 3);
    var (below, ids'') := if LeadsOn(decision) then Unfolded(m, decision.next.value, round + 1, maxRounds, ids')
                          else MadeCase(after, about, ids');
    (Node(n + 1, CandidateNode, context, Chosen(candidate), None, [Node(n + 2, GuardNode, context, about, None,
       [Node(n + 3, EffectNode, after, about, None, [below])])]), ids'')
  }

  /** Everything on record belongs to earlier rounds. */
  predicate Earlier(seen: Seen, round: nat) {
    forall key :: key in seen ==> key.0 < round
  }

  /** The record's keys contain the round, so no context is ever met again under its key. */
  lemma {:induction false} CutOffIsNeverTaken(m: Model, context: Context, round: nat, maxRounds: nat, seen: Seen,
                                              ids: Ids)
    requires Earlier(seen, round)
    ensures BuildState(m, context, round, maxRounds, seen, ids) == Unfolded(m, context, round, maxRounds, ids)
    decreases RoundsLeft(round, maxRounds), 2, 0
  {
    if round <= maxRounds {
      AllTheSame(m, context, EnumerateCandidates(m, context), round, maxRounds, seen[(round, context) := 1],
                 Fresh(ids));
    }
  }

  lemma {:induction false} AllTheSame(m: Model, context: Context, candidates: seq<Candidate>, round: nat,
                                      maxRounds: nat, seen: Seen, ids: Ids)
    requires round <= maxRounds && Earlier(seen, round + 1)
    ensures BuildAll(m, context, candidates, round, maxRounds, seen, ids)
         == UnfoldedAll(m, context, candidates, round, maxRounds, ids)
    decreases RoundsLeft(round, maxRounds), 1, |candidates|
  {
    if candidates != [] {
      var front, last := candidates[..|candidates| - 1], candidates[|candidates| - 1];
      AllTheSame(m, context, front, round, maxRounds, seen, ids);
      var ids' := BuildAll(m, context, front, round, maxRounds, seen, ids).1;
      var decision := m.evaluate(context, last);
      if LeadsOn(decision) {
        CutOffIsNeverTaken(m, decision.next.value, round + 1, maxRounds, seen,
                           ids'.(nextNodeId := ids'.nextNodeId + 3));
      }
    }
  }

  // ---------- shape and numbers

  /** Every leaf is a case, every case is a leaf, and the cases are what carries a case number. */
  predicate EndsInCases(node: Node) {
    && (node.children == [] <==> node.kind == CaseNode) && (node.caseId.Some? <==> node.kind == CaseNode)
    && forall i :: 0 <= i < |node.children| ==> EndsInCases(node.children[i])
  }

  function NodeIds(node: Node): seq<nat>
    decreases node, 1
  {
    [node.id] + AllNodeIds(node.children)
  }

  function AllNodeIds(nodes: seq<Node>): seq<nat>
    decreases nodes, 0
  {
    if nodes == [] then [] else AllNodeIds(nodes[..|nodes| - 1]) + NodeIds(nodes[|nodes| - 1])
  }

  function CaseIds(node: Node): seq<nat>
    decreases node, 1
  {
    (if node.caseId.Some? then [node.caseId.value] else []) + AllCaseIds(node.children)
  }

  function AllCaseIds(nodes: seq<Node>): seq<nat>
    decreases nodes, 0
  {
    if nodes == [] then [] else AllCaseIds(nodes[..|nodes| - 1]) + CaseIds(nodes[|nodes| - 1])
  }

  /** Strictly increasing numbers above `low`, up to `high`. */
  ghost predicate IncreasingWithin(ids: seq<nat>, low: nat, high: nat) {
    && low <= high
    && (forall i :: 0 <= i < |ids| ==> low < ids[i] <= high)
    && (forall i, j :: 0 <= i < j < |ids| ==> ids[i] < ids[j])
  }

  /** low + 1, …, high */
  function After(low: nat, high: nat): (ids: seq<nat>)
    requires low <= high
    ensures |ids| == high - low && forall i :: 0 <= i < |ids| ==> ids[i] == low + 1 + i
  {
    seq(high - low, i => low + 1 + i)
  }

  lemma {:induction false} IncreasingConcat(a: seq<nat>, b: seq<nat>, low: nat, middle: nat, high: nat)
    requires IncreasingWithin(a, low, middle) && IncreasingWithin(b, middle, high)
    ensures IncreasingWithin(a + b, low, high)
  {
  }

  /** What a tree built between two states of the counters looks like. */
  ghost predicate Numbered(node: Node, ids: Ids, ids': Ids) {
    && EndsInCases(node)
    && IncreasingWithin(NodeIds(node), ids.nextNodeId, ids'.nextNodeId)
    && ids.nextCaseId <= ids'.nextCaseId && CaseIds(node) == After(ids.nextCaseId, ids'.nextCaseId)
  }

  ghost predicate AllNumbered(nodes: seq<Node>, ids: Ids, ids': Ids) {
    && (forall i :: 0 <= i < |nodes| ==> EndsInCases(nodes[i]))
    && IncreasingWithin(AllNodeIds(nodes), ids.nextNodeId, ids'.nextNodeId)
    && ids.nextCaseId <= ids'.nextCaseId && AllCaseIds(nodes) == After(ids.nextCaseId, ids'.nextCaseId)
  }

  lemma {:induction false} CaseIsNumbered(context: Context, about: About, ids: Ids)
    ensures var (node, ids') := MadeCase(context, about, ids); Numbered(node, ids, ids')
  {
  }

  /** A node above others, with a number drawn before theirs. */
  lemma {:induction false} ParentIsNumbered(kind: NodeKind, context: Context, about: About, children: seq<Node>,
                                            ids: Ids, ids': Ids)
    requires kind != CaseNode && children != [] && AllNumbered(children, Fresh(ids), ids')
    ensures Numbered(Node(ids.nextNodeId + 1, kind, context, about, None, children), ids, ids')
  {
    IncreasingConcat([ids.nextNodeId + 1], AllNodeIds(children), ids.nextNodeId, ids.nextNodeId + 1, ids'.nextNodeId);
  }

  lemma {:induction false} OnlyChildIsNumbered(node: Node, ids: Ids, ids': Ids)
    requires Numbered(node, ids, ids')
    ensures AllNumbered([node], ids, ids')
  {
    assert [node][..0] == [];
    assert AllNodeIds([node]) == [] + NodeIds(node) == NodeIds(node);
    assert AllCaseIds([node]) == [] + CaseIds(node) == CaseIds(node);
  }

  lemma {:induction false} OneMoreIsNumbered(nodes: seq<Node>, node: Node, ids: Ids, ids': Ids, ids'': Ids)
    requires AllNumbered(nodes, ids, ids') && Numbered(node, ids', ids'')
    ensures AllNumbered(nodes + [node], ids, ids'')
  {
    assert (nodes + [node])[..|nodes|] == nodes;
    IncreasingConcat(AllNodeIds(nodes), NodeIds(node), ids.nextNodeId, ids'.nextNodeId, ids''.nextNodeId);
    assert AllCaseIds(nodes + [node]) == After(ids.nextCaseId, ids''.nextCaseId);
  }

  lemma {:induction false} UnfoldedIsNumbered(m: Model, context: Context, round: nat, maxRounds: nat, ids: Ids)
    requires m.userCandidates != []
    ensures var (node, ids') := Unfolded(m, context, round, maxRounds, ids); Numbered(node, ids, ids')
    decreases RoundsLeft(round, maxRounds), 2, 0
  {
    if round > maxRounds {
      CaseIsNumbered(context, Nothing, Fresh(ids));
    } else {
      var candidates := EnumerateCandidates(m, context);
      AllAreNumbered(m, context, candidates, round, maxRounds, Fresh(ids));
      var (children, ids') := UnfoldedAll(m, context, candidates, round, maxRounds, Fresh(ids));
      ParentIsNumbered(StateNode, context, Nothing, children, ids, ids');
    }
  }

  lemma {:induction false} AllAreNumbered(m: Model, context: Context, candidates: seq<Candidate>, round: nat,
                                          maxRounds: nat, ids: Ids)
    requires round <= maxRounds && m.userCandidates != []
    ensures var (nodes, ids') := UnfoldedAll(m, context, candidates, round, maxRounds, ids);
            AllNumbered(nodes, ids, ids')
    decreases RoundsLeft(round, maxRounds), 1, |candidates|
  {
    if candidates != [] {
      var front, last := candidates[..|candidates| - 1], candidates[|candidates| - 1];
      var (nodes, ids') := UnfoldedAll(m, context, front, round, maxRounds, ids);
      var (node, ids'') := UnfoldedCandidate(m, context, last, round, maxRounds, ids');
      AllAreNumbered(m, context, front, round, maxRounds, ids);
      CandidateIsNumbered(m, context, last, round, maxRounds, ids');
      OneMoreIsNumbered(nodes, node, ids, ids', ids'');
    }
  }

  lemma {:induction false} CandidateIsNumbered(m: Model, context: Context, candidate: Candidate, round: nat,
                                               maxRounds: nat, ids: Ids)
    requires round <= maxRounds && m.userCandidates != []
    ensures var (node, ids') := UnfoldedCandidate(m, context, candidate, round, maxRounds, ids);
            Numbered(node, ids, ids')
    decreases RoundsLeft(round, maxRounds), 0, 0
  {
    var decision := m.evaluate(context, candidate);
    var after := if decision.next.Some? then decision.next.value else context;
    var n := ids.nextNodeId;
    var ids3 := ids.(nextNodeId := n + 3);
    var (below, ids') := if LeadsOn(decision) then Unfolded(m, decision.next.value, round + 1, maxRounds, ids3)
                         else MadeCase(after, Judged(candidate, decision), ids3);
    if LeadsOn(decision) {
      UnfoldedIsNumbered(m, decision.next.value, round + 1, maxRounds, ids3);
    } else {
      CaseIsNumbered(after, Judged(candidate, decision), ids3);
    }
    hide *;
    GuardAndEffectAreNumbered(context, after, candidate, decision, below, ids, ids');
  }

  /** A candidate node, with its guard and effect, above what follows. */
  lemma {:induction false} GuardAndEffectAreNumbered(context: Context, after: Context, candidate: Candidate,
                                                     decision: Decision, below: Node, ids: Ids, ids': Ids)
    requires Numbered(below, ids.(nextNodeId := ids.nextNodeId + 3), ids')
    ensures var n, about := ids.nextNodeId, Judged(candidate, decision);
            Numbered(Node(n + 1, CandidateNode, context, Chosen(candidate), None,
                          [Node(n + 2, GuardNode, context, about, None,
                                [Node(n + 3, EffectNode, after, about, None, [below])])]), ids, ids')
  {
    hide Numbered, AllNumbered;
    var n, about := ids.nextNodeId, Judged(candidate, decision);
    var effect := Node(n + 3, EffectNode, after, about, None, [below]);
    var guard := Node(n + 2, GuardNode, context, about, None, [effect]);
    OnlyChildIsNumbered(below, ids.(nextNodeId := n + 3), ids');
    ParentIsNumbered(EffectNode, after, about, [below], ids.(nextNodeId := n + 2), ids');
    OnlyChildIsNumbered(effect, ids.(nextNodeId := n + 2), ids');
    ParentIsNumbered(GuardNode, context, about, [effect], ids.(nextNodeId := n + 1), ids');
    OnlyChildIsNumbered(guard, ids.(nextNodeId := n + 1), ids');
    ParentIsNumbered(CandidateNode, context, Chosen(candidate), [guard], ids, ids');
  }

  /**
   The whole tree, for every context and depth: leaves and cases are the same nodes, no two nodes share a number, and
   the cases are numbered 1, 2, 3, … in the order of the tree.
   */
  lemma {:induction false} TraceTreeIsWellFormed(m: Model, context: Context, maxRounds: nat)
    requires m.userCandidates != []
    ensures var (root, ids) := BuildState(m, context, 1, maxRounds, map[], Ids(0, 0));
            && EndsInCases(root)
            && (forall i, j :: 0 <= i < j < |NodeIds(root)| ==> NodeIds(root)[i] < NodeIds(root)[j])
            && CaseIds(root) == After(0, ids.nextCaseId)
  {
    CutOffIsNeverTaken(m, context, 1, maxRounds, map[], Ids(0, 0));
    UnfoldedIsNumbered(m, context, 1, maxRounds, Ids(0, 0));
  }

  // ---------- what the tree holds

  /** Increasing places, and every place whose candidate applies is one of them. */
  ghost predicate Selects(m: Model, context: Context, places: seq<nat>) {
    && (forall j :: 0 <= j < |places| ==> places[j] < |m.systemCandidates|)
    && (forall j, k :: 0 <= j < k < |places| ==> places[j] < places[k])
    && (forall i :: 0 <= i < |m.systemCandidates| ==> (m.applicable(context, m.systemCandidates[i]) <==> i in places))
  }

  function Picked(candidates: seq<Candidate>, places: seq<nat>): seq<Candidate>
    requires forall j :: 0 <= j < |places| ==> places[j] < |candidates|
  {
    seq(|places|, j requires 0 <= j < |places| => candidates[places[j]])
  }

  /** All user candidates, and then exactly the system candidates that apply, in their order. */
  ghost predicate IsOffered(m: Model, context: Context, candidates: seq<Candidate>) {
    exists places ::
      Selects(m, context, places) && candidates == m.userCandidates + Picked(m.systemCandidates, places)
  }

  /**
   The tree that the rules unfold to. Below a state there is one candidate node for each candidate offered; below that
   its guard with the rules' decision, and the effect with the context it leads to. An allowed, queued or system event
   with a next context leads on to that state, one round later; everything else, and the last round, ends in a case.
   */
  ghost predicate Unfolds(m: Model, node: Node, context: Context, round: nat, maxRounds: nat)
    decreases RoundsLeft(round, maxRounds), 1
  {
    && node.context == context && node.about == Nothing
    && if round > maxRounds then node.kind == CaseNode
       else
         && node.kind == StateNode
         && exists candidates ::
              && IsOffered(m, context, candidates) && |node.children| == |candidates|
              && forall i :: 0 <= i < |candidates| ==>
                   UnfoldsCandidate(m, node.children[i], context, candidates[i], round, maxRounds)
  }

  ghost predicate UnfoldsCandidate(m: Model, node: Node, context: Context, candidate: Candidate, round: nat,
                                   maxRounds: nat)
    requires round <= maxRounds
    decreases RoundsLeft(round, maxRounds), 0
  {
    var decision := m.evaluate(context, candidate);
    var after := if decision.next.Some? then decision.next.value else context;
    && node.kind == CandidateNode && node.context == context && node.about == Chosen(candidate)
    && |node.children| == 1
    && var guard := node.children[0];
    && guard.kind == GuardNode && guard.context == context && guard.about == Judged(candidate, decision)
    && |guard.children| == 1
    && var effect := guard.children[0];
    && effect.kind == EffectNode && effect.context == after && effect.about == Judged(candidate, decision)
    && |effect.children| == 1
    && if decision.next.Some? && decision.kind in {Allow, Enqueue, System} then
         Unfolds(m, effect.children[0], decision.next.value, round + 1, maxRounds)
       else
         && effect.children[0].kind == CaseNode && effect.children[0].context == after
         && effect.children[0].about == Judged(candidate, decision)
  }

  lemma {:induction false} CandidatesAreOffered(m: Model, context: Context)
    ensures IsOffered(m, context, EnumerateCandidates(m, context))
  {
    var places := FilteredPlaces(m, context, m.systemCandidates, 0);
    assert Filtered(m, context, m.systemCandidates) == Picked(m.systemCandidates, places);
    assert Selects(m, context, places);
  }

  /** The places of the filtered candidates, counted from `from`. */
  ghost predicate ArePlaces(m: Model, context: Context, candidates: seq<Candidate>, from: nat, places: seq<nat>) {
    && (forall j :: 0 <= j < |places| ==> from <= places[j] < from + |candidates|)
    && Filtered(m, context, candidates) == PickedFrom(candidates, places, from)
    && (forall j, k :: 0 <= j < k < |places| ==> places[j] < places[k])
    && (forall i :: 0 <= i < |candidates| ==> (m.applicable(context, candidates[i]) <==> from + i in places))
  }

  function PickedFrom(candidates: seq<Candidate>, places: seq<nat>, from: nat): (r: seq<Candidate>)
    requires forall j :: 0 <= j < |places| ==> from <= places[j] < from + |candidates|
    ensures |r| == |places| && forall j :: 0 <= j < |places| ==> r[j] == candidates[places[j] - from]
  {
    seq(|places|, j requires 0 <= j < |places| => candidates[places[j] - from])
  }

  lemma {:induction false} FilteredPlaces(m: Model, context: Context, candidates: seq<Candidate>, from: nat)
    returns (places: seq<nat>)
    ensures ArePlaces(m, context, candidates, from, places)
  {
    if candidates == [] {
      places := [];
    } else {
      var rest := FilteredPlaces(m, context, candidates[1..], from + 1);
      places := (if m.applicable(context, candidates[0]) then [from] else []) + rest;
      OneMorePlace(m, context, candidates, from, rest, places);
    }
  }

  lemma {:induction false} OneMorePlace(m: Model, context: Context, candidates: seq<Candidate>, from: nat,
                                        rest: seq<nat>, places: seq<nat>)
    requires candidates != [] && ArePlaces(m, context, candidates[1..], from + 1, rest)
    requires places == (if m.applicable(context, candidates[0]) then [from] else []) + rest
    ensures ArePlaces(m, context, candidates, from, places)
  {
    PlacesPicked(m, context, candidates, from, rest, places);
    PlacesIncrease(m, context, candidates, from, rest, places);
    forall i | 0 <= i < |candidates|
      ensures m.applicable(context, candidates[i]) <==> from + i in places
    {
      IsAPlace(m, context, candidates, from, rest, places, i);
    }
    hide Filtered;
  }

  lemma {:induction false} PlacesIncrease(m: Model, context: Context, candidates: seq<Candidate>, from: nat,
                                          rest: seq<nat>, places: seq<nat>)
    requires candidates != [] && ArePlaces(m, context, candidates[1..], from + 1, rest)
    requires places == (if m.applicable(context, candidates[0]) then [from] else []) + rest
    ensures forall j, k :: 0 <= j < k < |places| ==> places[j] < places[k]
  {
    hide Filtered;
  }

  lemma {:induction false} IsAPlace(m: Model, context: Context, candidates: seq<Candidate>, from: nat,
                                    rest: seq<nat>, places: seq<nat>, i: nat)
    requires i < |candidates| && ArePlaces(m, context, candidates[1..], from + 1, rest)
    requires places == (if m.applicable(context, candidates[0]) then [from] else []) + rest
    ensures m.applicable(context, candidates[i]) <==> from + i in places
  {
    hide Filtered;
    if i > 0 {
      assert candidates[i] == candidates[1..][i - 1];
      assert m.applicable(context, candidates[1..][i - 1]) <==> from + 1 + (i - 1) in rest;
    }
  }

  lemma {:induction false} PlacesPicked(m: Model, context: Context, candidates: seq<Candidate>, from: nat,
                                        rest: seq<nat>, places: seq<nat>)
    requires candidates != [] && ArePlaces(m, context, candidates[1..], from + 1, rest)
    requires places == (if m.applicable(context, candidates[0]) then [from] else []) + rest
    ensures forall j :: 0 <= j < |places| ==> from <= places[j] < from + |candidates|
    ensures Filtered(m, context, candidates) == PickedFrom(candidates, places, from)
  {
    var tail := candidates[1..];
    var first := if m.applicable(context, candidates[0]) then [candidates[0]] else [];
    assert Filtered(m, context, candidates) == first + Filtered(m, context, tail);
    PlacesBounded(m, context, candidates, from, rest, places);
    assert Filtered(m, context, tail) == PickedFrom(tail, rest, from + 1);
    hide *;
    PickedLater(candidates, rest, from);
    if first == [] {
      assert first + PickedFrom(candidates, rest, from) == PickedFrom(candidates, places, from);
    } else {
      PickedFirst(candidates, rest, from);
    }
  }

  lemma {:induction false} PickedLater(candidates: seq<Candidate>, rest: seq<nat>, from: nat)
    requires candidates != [] && forall j :: 0 <= j < |rest| ==> from + 1 <= rest[j] < from + 1 + |candidates[1..]|
    ensures PickedFrom(candidates[1..], rest, from + 1) == PickedFrom(candidates, rest, from)
  {
    forall j | 0 <= j < |rest|
      ensures candidates[1..][rest[j] - (from + 1)] == candidates[rest[j] - from]
    {
    }
    hide PickedFrom;
  }

  lemma {:induction false} PickedFirst(candidates: seq<Candidate>, rest: seq<nat>, from: nat)
    requires candidates != [] && forall j :: 0 <= j < |rest| ==> from <= rest[j] < from + |candidates|
    ensures [candidates[0]] + PickedFrom(candidates, rest, from) == PickedFrom(candidates, [from] + rest, from)
  {
    var places := [from] + rest;
    forall j | 0 < j < |places|
      ensures places[j] == rest[j - 1]
    {
    }
    hide PickedFrom;
  }

  lemma {:induction false} PlacesBounded(m: Model, context: Context, candidates: seq<Candidate>, from: nat,
                                         rest: seq<nat>, places: seq<nat>)
    requires candidates != [] && ArePlaces(m, context, candidates[1..], from + 1, rest)
    requires places == (if m.applicable(context, candidates[0]) then [from] else []) + rest
    ensures forall j :: 0 <= j < |places| ==> from <= places[j] < from + |candidates|
  {
    hide Filtered;
  }

  lemma {:induction false} UnfoldedUnfolds(m: Model, context: Context, round: nat, maxRounds: nat, ids: Ids)
    ensures Unfolds(m, Unfolded(m, context, round, maxRounds, ids).0, context, round, maxRounds)
    decreases RoundsLeft(round, maxRounds), 2, 0
  {
    if round <= maxRounds {
      var candidates := EnumerateCandidates(m, context);
      CandidatesAreOffered(m, context);
      AllUnfold(m, context, candidates, round, maxRounds, Fresh(ids));
    }
  }

  lemma {:induction false} AllUnfold(m: Model, context: Context, candidates: seq<Candidate>, round: nat,
                                     maxRounds: nat, ids: Ids)
    requires round <= maxRounds
    ensures var nodes := UnfoldedAll(m, context, candidates, round, maxRounds, ids).0;
            forall i :: 0 <= i < |candidates| ==>
              UnfoldsCandidate(m, nodes[i], context, candidates[i], round, maxRounds)
    decreases RoundsLeft(round, maxRounds), 1, |candidates|
  {
    if candidates != [] {
      var front, last := candidates[..|candidates| - 1], candidates[|candidates| - 1];
      AllUnfold(m, context, front, round, maxRounds, ids);
      CandidateUnfolds(m, context, last, round, maxRounds, UnfoldedAll(m, context, front, round, maxRounds, ids).1);
      hide UnfoldsCandidate, UnfoldedCandidate;
    }
  }

  lemma {:induction false} CandidateUnfolds(m: Model, context: Context, candidate: Candidate, round: nat,
                                            maxRounds: nat, ids: Ids)
    requires round <= maxRounds
    ensures UnfoldsCandidate(m, UnfoldedCandidate(m, context, candidate, round, maxRounds, ids).0, context, candidate,
                             round, maxRounds)
    decreases RoundsLeft(round, maxRounds), 0, 0
  {
    assert RoundsLeft(round + 1, maxRounds) < RoundsLeft(round, maxRounds);
    hide *;
    var decision := m.evaluate(context, candidate);
    var ids' := ids.(nextNodeId := ids.nextNodeId + 3);
    var below := Below(m, context, candidate, round, maxRounds, ids');
    LeadsOnWhen(decision);
    if LeadsOn(decision) {
      UnfoldedUnfolds(m, decision.next.value, round + 1, maxRounds, ids');
    }
    PartsOfCandidate(m, context, candidate, round, maxRounds, ids);
    ChainUnfolds(m, context, candidate, below, ids.nextNodeId, round, maxRounds);
  }

  /** What stands below the effect of a candidate. */
  function Below(m: Model, context: Context, candidate: Candidate, round: nat, maxRounds: nat, ids: Ids): Node
    requires round <= maxRounds
  {
    var decision := m.evaluate(context, candidate);
    if LeadsOn(decision) then Unfolded(m, decision.next.value, round + 1, maxRounds, ids).0
    else MadeCase(if decision.next.Some? then decision.next.value else context, Judged(candidate, decision), ids).0
  }

  lemma {:induction false} PartsOfCandidate(m: Model, context: Context, candidate: Candidate, round: nat,
                                            maxRounds: nat, ids: Ids)
    requires round <= maxRounds
    ensures var decision := m.evaluate(context, candidate);
            var after := if decision.next.Some? then decision.next.value else context;
            var n, about := ids.nextNodeId, Judged(candidate, decision);
            var below := Below(m, context, candidate, round, maxRounds, ids.(nextNodeId := n + 3));
            && UnfoldedCandidate(m, context, candidate, round, maxRounds, ids).0
            == Node(n + 1, CandidateNode, context, Chosen(candidate), None,
                    [Node(n + 2, GuardNode, context, about, None,
                          [Node(n + 3, EffectNode, after, about, None, [below])])])
            && if LeadsOn(decision) then
                 below == Unfolded(m, decision.next.value, round + 1, maxRounds, ids.(nextNodeId := n + 3)).0
               else below.kind == CaseNode && below.context == after && below.about == about
  {
    hide Unfolded, LeadsOn;
  }

  lemma {:induction false} ChainUnfolds(m: Model, context: Context, candidate: Candidate, below: Node, n: nat,
                                        round: nat, maxRounds: nat)
    requires round <= maxRounds
    requires var decision := m.evaluate(context, candidate);
             var after := if decision.next.Some? then decision.next.value else context;
             if decision.next.Some? && decision.kind in {Allow, Enqueue, System} then
               Unfolds(m, below, decision.next.value, round + 1, maxRounds)
             else below.kind == CaseNode && below.context == after && below.about == Judged(candidate, decision)
    ensures var decision := m.evaluate(context, candidate);
            var after := if decision.next.Some? then decision.next.value else context;
            var about := Judged(candidate, decision);
            UnfoldsCandidate(m, Node(n + 1, CandidateNode, context, Chosen(candidate), None,
                                     [Node(n + 2, GuardNode, context, about, None,
                                           [Node(n + 3, EffectNode, after, about, None, [below])])]),
                             context, candidate, round, maxRounds)
  {
    hide Unfolds;
  }

  lemma {:induction false} LeadsOnWhen(decision: Decision)
    ensures LeadsOn(decision) <==> decision.next.Some? && decision.kind in {Allow, Enqueue, System}
  {
  }

  /** For every context and depth, the tree is what the rules unfold to. */
  lemma {:induction false} TraceTreeUnfolds(m: Model, context: Context, maxRounds: nat)
    ensures Unfolds(m, BuildState(m, context, 1, maxRounds, map[], Ids(0, 0)).0, context, 1, maxRounds)
  {
    CutOffIsNeverTaken(m, context, 1, maxRounds, map[], Ids(0, 0));
    UnfoldedUnfolds(m, context, 1, maxRounds, Ids(0, 0));
    hide Unfolds, Unfolded, BuildState;
  }
}
