/**
 Drawing a large trace tree: a budget threaded through the recursion keeps the first nodes in preorder and folds the
 rest into counted summaries. And the path from the root to a node.
 */
module RenderBudget {
  import opened Wrappers

  datatype Tree = Node(id: string, children: seq<Tree>)

  /** A node that is drawn, or a summary of nodes that are not. */
  datatype Rendered = Kept(id: string, children: seq<Rendered>) | Summary(parentId: string, hidden: nat)

  // ---------- trees

  function CountNodes(node: Tree): (count: nat)
    ensures count >= 1
    decreases node, 1
  {
    1 + CountAll(node.children)
  }

  function CountAll(nodes: seq<Tree>): nat
    decreases nodes, 0
  {
    if nodes == [] then 0 else CountAll(nodes[..|nodes| - 1]) + CountNodes(nodes[|nodes| - 1])
  }

  /** The nodes from the top down and from left to right. */
  function Preorder(node: Tree): (ids: seq<string>)
    ensures |ids| == CountNodes(node)
    decreases node, 1
  {
    [node.id] + PreorderAll(node.children)
  }

  function PreorderAll(nodes: seq<Tree>): (ids: seq<string>)
    ensures |ids| == CountAll(nodes)
    decreases nodes, 0
  {
    if nodes == [] then [] else PreorderAll(nodes[..|nodes| - 1]) + Preorder(nodes[|nodes| - 1])
  }

  // ---------- what is drawn

  /** The nodes that are drawn, from the top down and from left to right. */
  function KeptNodes(r: Rendered): seq<string>
    decreases r, 1
  {
    match r case Kept(id, children) => [id] + KeptAll(children) case Summary(_, _) => []
  }

  function KeptAll(rs: seq<Rendered>): seq<string>
    decreases rs, 0
  {
    if rs == [] then [] else KeptAll(rs[..|rs| - 1]) + KeptNodes(rs[|rs| - 1])
  }

  /** The sum of all the counts in summaries. */
  function HiddenNodes(r: Rendered): nat
    decreases r, 1
  {
    match r case Kept(_, children) => HiddenAll(children) case Summary(_, hidden) => hidden
  }

  function HiddenAll(rs: seq<Rendered>): nat
    decreases rs, 0
  {
    if rs == [] then 0 else HiddenAll(rs[..|rs| - 1]) + HiddenNodes(rs[|rs| - 1])
  }

  // ---------- the recursion as a function of the budget

  datatype Cut = Cut(children: seq<Rendered>, hidden: nat, remaining: int)

  function Clone(node: Tree, budget: int): (Rendered, int)
    decreases node, 1
  {
    if budget <= 0 then (Summary(node.id, 1), budget)
    else
      var cut := CloneAll(node.children, budget - 1);
      (Kept(node.id, cut.children + if cut.hidden > 0 then [Summary(node.id, cut.hidden)] else []), cut.remaining)
  }

  /** Children from the left: drawn while something is left of the budget, then counted. */
  function CloneAll(nodes: seq<Tree>, budget: int): Cut
    decreases nodes, 0
  {
    if nodes == [] then Cut([], 0, budget)
    else
      var before, last := CloneAll(nodes[..|nodes| - 1], budget), nodes[|nodes| - 1];
      if before.remaining <= 0 then before.(hidden := before.hidden + CountNodes(last))
      else
        var (drawn, remaining) := Clone(last, before.remaining);
        before.(children := before.children + [drawn], remaining := remaining)
  }

  /** The budget object that the recursion updates. */
  class Budget {
    var remaining: int

    constructor (remaining: int)
      ensures this.remaining == remaining
    {
      this.remaining := remaining;
    }

    method CloneForRender(node: Tree) returns (r: Rendered)
      modifies this
      ensures (r, remaining) == Clone(node, old(remaining))
      decreases node
    {
      if remaining <= 0 {
        return Summary(node.id, 1);
      }
      remaining := remaining - 1;
      var children: seq<Rendered> := [];
      var hidden := 0;
      for i := 0 to |node.children|
        invariant Cut(children, hidden, remaining) == CloneAll(node.children[..i], old(remaining) - 1)
      {
        assert node.children[..i + 1][..i] == node.children[..i];
        if remaining <= 0 {
          var count := CountTree(node.children[i]);
          hidden := hidden + count;
        } else {
          var drawn := CloneForRender(node.children[i]);
          children := children + [drawn];
        }
      }
      assert node.children[..|node.children|] == node.children;
      assert children + [] == children;
      if hidden > 0 {
        children := children + [Summary(node.id, hidden)];
      }
      return Kept(node.id, children);
    }
  }

  method CountTree(node: Tree) returns (count: nat)
    ensures count == CountNodes(node)
    decreases node
  {
    count := 1;
    for i := 0 to |node.children|
      invariant count == 1 + CountAll(node.children[..i])
    {
      assert node.children[..i + 1][..i] == node.children[..i];
      var below := CountTree(node.children[i]);
      count := count + below;
    }
    assert node.children[..|node.children|] == node.children;
  }

  // ---------- what it keeps and what it counts

  function Min(a: int, b: int): int {
    if a <= b then a else b
  }

  /** The first nodes in preorder are drawn, as many as the budget allows, and the rest is counted. */
  lemma {:induction false} KeepsTheFirstNodes(node: Tree, budget: int)
    requires budget >= 1
    ensures var (r, remaining) := Clone(node, budget);
            && KeptNodes(r) == Preorder(node)[..Min(budget, CountNodes(node))]
            && remaining == budget - Min(budget, CountNodes(node))
            && |KeptNodes(r)| + HiddenNodes(r) == CountNodes(node)
    decreases node, 1
  {
    RootIsDrawn(node, budget);
    hide *;
    KeepsTheFirstOfAll(node.children, budget - 1);
    FirstOfBoth([node.id], PreorderAll(node.children), budget);
    OneThenRest(budget, CountAll(node.children));
  }

  /** The root is drawn above what is drawn of its children, and hides what they hide. */
  lemma {:induction false} RootIsDrawn(node: Tree, budget: int)
    requires budget >= 1
    ensures var (r, remaining) := Clone(node, budget);
            var cut := CloneAll(node.children, budget - 1);
            && KeptNodes(r) == [node.id] + KeptAll(cut.children) && remaining == cut.remaining
            && HiddenNodes(r) == HiddenAll(cut.children) + cut.hidden
    ensures Preorder(node) == [node.id] + PreorderAll(node.children)
    ensures CountNodes(node) == 1 + CountAll(node.children)
  {
    var cut := CloneAll(node.children, budget - 1);
    KeptOfSummary(cut.children, if cut.hidden > 0 then [Summary(node.id, cut.hidden)] else []);
    hide CloneAll, PreorderAll, CountAll, KeptAll, HiddenAll;
  }

  lemma {:induction false} OneThenRest(n: int, count: nat)
    requires n >= 1
    ensures Min(n, 1 + count) == 1 + Min(n - 1, count) && Min(n, 1) == 1
  {
  }

  lemma {:induction false} KeepsTheFirstOfAll(nodes: seq<Tree>, budget: int)
    requires budget >= 0
    ensures var cut := CloneAll(nodes, budget);
            && KeptAll(cut.children) == PreorderAll(nodes)[..Min(budget, CountAll(nodes))]
            && cut.remaining == budget - Min(budget, CountAll(nodes))
            && |KeptAll(cut.children)| + HiddenAll(cut.children) + cut.hidden == CountAll(nodes)
    decreases nodes, 0
  {
    if nodes != [] {
      var front, last := nodes[..|nodes| - 1], nodes[|nodes| - 1];
      var before := CloneAll(front, budget);
      KeepsTheFirstOfAll(front, budget);
      if before.remaining > 0 {
        KeepsTheFirstNodes(last, before.remaining);
        OneMoreIsFirst(nodes, budget);
      } else {
        OneMoreIsHidden(nodes, budget);
      }
    }
  }

  lemma {:induction false} OneMoreIsFirst(nodes: seq<Tree>, budget: int)
    requires nodes != [] && budget >= 0
    requires var front, last := nodes[..|nodes| - 1], nodes[|nodes| - 1];
             var before := CloneAll(front, budget);
             var (drawn, remaining) := Clone(last, before.remaining);
             && before.remaining > 0 && before.remaining == budget - Min(budget, CountAll(front))
             && KeptAll(before.children) == PreorderAll(front)[..Min(budget, CountAll(front))]
             && |KeptAll(before.children)| + HiddenAll(before.children) + before.hidden == CountAll(front)
             && KeptNodes(drawn) == Preorder(last)[..Min(before.remaining, CountNodes(last))]
             && remaining == before.remaining - Min(before.remaining, CountNodes(last))
             && |KeptNodes(drawn)| + HiddenNodes(drawn) == CountNodes(last)
    ensures var cut := CloneAll(nodes, budget);
            && KeptAll(cut.children) == PreorderAll(nodes)[..Min(budget, CountAll(nodes))]
            && cut.remaining == budget - Min(budget, CountAll(nodes))
            && |KeptAll(cut.children)| + HiddenAll(cut.children) + cut.hidden == CountAll(nodes)
  {
    var front, last := nodes[..|nodes| - 1], nodes[|nodes| - 1];
    DrawOneMore(nodes, budget);
    assert CountAll(nodes) == CountAll(front) + CountNodes(last);
    assert PreorderAll(nodes) == PreorderAll(front) + Preorder(last);
    hide *;
    FirstOfBoth(PreorderAll(front), Preorder(last), budget);
  }

  lemma {:induction false} FirstOfBoth(a: seq<string>, b: seq<string>, n: nat)
    requires n >= |a|
    ensures (a + b)[..Min(n, |a + b|)] == a[..Min(n, |a|)] + b[..Min(n - |a|, |b|)]
    ensures Min(n, |a + b|) == Min(n, |a|) + Min(n - |a|, |b|)
  {
  }

  lemma {:induction false} OneMoreIsHidden(nodes: seq<Tree>, budget: int)
    requires nodes != [] && budget >= 0
    requires var front := nodes[..|nodes| - 1];
             var before := CloneAll(front, budget);
             && before.remaining <= 0 && before.remaining == budget - Min(budget, CountAll(front))
             && KeptAll(before.children) == PreorderAll(front)[..Min(budget, CountAll(front))]
             && |KeptAll(before.children)| + HiddenAll(before.children) + before.hidden == CountAll(front)
    ensures var cut := CloneAll(nodes, budget);
            && KeptAll(cut.children) == PreorderAll(nodes)[..Min(budget, CountAll(nodes))]
            && cut.remaining == budget - Min(budget, CountAll(nodes))
            && |KeptAll(cut.children)| + HiddenAll(cut.children) + cut.hidden == CountAll(nodes)
  {
    var front, last := nodes[..|nodes| - 1], nodes[|nodes| - 1];
    TakeConcat(PreorderAll(front), Preorder(last), Min(budget, CountAll(nodes)));
    hide Clone, Preorder, CountNodes, KeptAll, HiddenAll, KeptNodes, HiddenNodes;
  }

  lemma {:induction false} DrawOneMore(nodes: seq<Tree>, budget: int)
    requires nodes != [] && CloneAll(nodes[..|nodes| - 1], budget).remaining > 0
    ensures var before := CloneAll(nodes[..|nodes| - 1], budget);
            var (drawn, remaining) := Clone(nodes[|nodes| - 1], before.remaining);
            var cut := CloneAll(nodes, budget);
            && cut == Cut(before.children + [drawn], before.hidden, remaining)
            && KeptAll(cut.children) == KeptAll(before.children) + KeptNodes(drawn)
            && HiddenAll(cut.children) == HiddenAll(before.children) + HiddenNodes(drawn)
  {
    var before := CloneAll(nodes[..|nodes| - 1], budget);
    var drawn := Clone(nodes[|nodes| - 1], before.remaining).0;
    hide Clone;
    assert (before.children + [drawn])[..|before.children|] == before.children;
  }

  lemma {:induction false} TakeConcat(a: seq<string>, b: seq<string>, n: nat)
    requires n <= |a| + |b|
    ensures (a + b)[..n] == if n <= |a| then a[..n] else a + b[..n - |a|]
  {
  }

  lemma {:induction false} KeptOfSummary(drawn: seq<Rendered>, rest: seq<Rendered>)
    requires |rest| <= 1 && forall i :: 0 <= i < |rest| ==> rest[i].Summary?
    ensures KeptAll(drawn + rest) == KeptAll(drawn)
    ensures HiddenAll(drawn + rest) == HiddenAll(drawn) + if rest == [] then 0 else rest[0].hidden
  {
    if rest == [] {
      assert drawn + rest == drawn;
    } else {
      assert (drawn + rest)[..|drawn|] == drawn;
    }
  }

  /** Every node is drawn or counted exactly when the budget is at least one, or there is only the root. */
  lemma {:induction false} ConservedExactly(node: Tree, budget: int)
    ensures var r := Clone(node, budget).0;
            |KeptNodes(r)| + HiddenNodes(r) == CountNodes(node) <==> budget >= 1 || node.children == []
  {
    if budget >= 1 {
      KeepsTheFirstNodes(node, budget);
    } else if node.children != [] {
      assert CountAll(node.children) >= CountNodes(node.children[|node.children| - 1]);
    }
  }

  /**
   The drawing is the tree with, at each node, some of its last children folded into one summary that says how many
   nodes they are.
   */
  ghost predicate Prunes(r: Rendered, node: Tree)
    decreases node
  {
    && r.Kept? && r.id == node.id
    && exists n :: 0 <= n <= |node.children| && FoldsAfter(r, node, n)
  }

  ghost predicate FoldsAfter(r: Rendered, node: Tree, n: nat)
    requires r.Kept? && n <= |node.children|
    decreases node, 0
  {
    && |r.children| == n + (if n < |node.children| then 1 else 0)
    && (forall i :: 0 <= i < n ==> Prunes(r.children[i], node.children[i]))
    && (n < |node.children| ==> r.children[n] == Summary(node.id, CountAll(node.children[n..])))
  }

  lemma {:induction false} DrawingPrunes(node: Tree, budget: int)
    requires budget >= 1
    ensures Prunes(Clone(node, budget).0, node)
    decreases node, 1
  {
    var r, cut := Clone(node, budget).0, CloneAll(node.children, budget - 1);
    AllPrune(node.children, budget - 1);
    assert FoldsAfter(r, node, |cut.children|);
  }

  lemma {:induction false} AllPrune(nodes: seq<Tree>, budget: int)
    requires budget >= 0
    ensures var cut := CloneAll(nodes, budget);
            && |cut.children| <= |nodes| && cut.hidden == CountAll(nodes[|cut.children|..])
            && (cut.remaining > 0 ==> |cut.children| == |nodes|)
            && (cut.hidden > 0 <==> |cut.children| < |nodes|)
            && forall i :: 0 <= i < |cut.children| ==> Prunes(cut.children[i], nodes[i])
    decreases nodes, 0
  {
    if nodes != [] {
      var front, last := nodes[..|nodes| - 1], nodes[|nodes| - 1];
      AllPrune(front, budget);
      var before := CloneAll(front, budget);
      if before.remaining > 0 {
        DrawingPrunes(last, before.remaining);
        hide Clone, Prunes;
        assert nodes[|nodes|..] == [];
      } else {
        hide Clone, Prunes;
        var n := |before.children|;
        assert nodes[n..][..|nodes| - n - 1] == front[n..];
      }
    }
  }

  // ---------- the path to a node

  function PathTo(node: Tree, id: string): Option<seq<Tree>>
    decreases node, 1
  {
    if node.id == id then Some([node])
    else
      var below := PathAmong(node.children, id);
      if below.Some? then Some([node] + below.value) else None
  }

  /** Through the first of the nodes that leads there. */
  function PathAmong(nodes: seq<Tree>, id: string): Option<seq<Tree>>
    decreases nodes, 0
  {
    if nodes == [] then None
    else
      var before := PathAmong(nodes[..|nodes| - 1], id);
      if before.Some? then before else PathTo(nodes[|nodes| - 1], id)
  }

  class PathFinder {
    var path: seq<Tree>

    constructor ()
      ensures path == []
    {
      path := [];
    }

    /** Leaves the path at the node when it is found, and as it was when it is not. */
    method Walk(node: Tree, id: string) returns (found: bool)
      modifies this
      ensures found <==> PathTo(node, id).Some?
      ensures path == old(path) + if found then PathTo(node, id).value else []
      decreases node
    {
      ghost var before := path;
      path := path + [node];
      if node.id == id {
        return true;
      }
      for i := 0 to |node.children|
        invariant PathAmong(node.children[..i], id).None? && path == before + [node]
      {
        assert node.children[..i + 1][..i] == node.children[..i];
        var below := Walk(node.children[i], id);
        if below {
          FoundAmong(node.children, i + 1, id);
          assert path == before + ([node] + PathTo(node.children[i], id).value);
          return true;
        }
      }
      assert node.children[..|node.children|] == node.children;
      path := path[..|path| - 1];
      return false;
    }
  }

  lemma {:induction false} FoundAmong(nodes: seq<Tree>, k: nat, id: string)
    requires k <= |nodes| && PathAmong(nodes[..k], id).Some?
    ensures PathAmong(nodes, id) == PathAmong(nodes[..k], id)
    decreases |nodes|
  {
    if k == |nodes| {
      assert nodes[..k] == nodes;
    } else {
      assert nodes[..|nodes| - 1][..k] == nodes[..k];
      FoundAmong(nodes[..|nodes| - 1], k, id);
    }
  }

  /** The root alone where there is no such node. */
  method FindPath(root: Tree, id: string) returns (path: seq<Tree>)
    ensures path == if PathTo(root, id).Some? then PathTo(root, id).value else [root]
  {
    var finder := new PathFinder();
    var found := finder.Walk(root, id);
    return if found then finder.path else [root];
  }

  /** From each node to one of its children, none of them but the last with the id. */
  ghost predicate GoesDown(path: seq<Tree>, id: string) {
    forall i :: 0 <= i < |path| - 1 ==> path[i].id != id && path[i + 1] in path[i].children
  }

  /** There is a path exactly when some node has the id; it goes down from the root, child by child, to such a node. */
  lemma {:induction false} PathLeadsThere(node: Tree, id: string)
    ensures var path := PathTo(node, id);
            && (path.Some? <==> id in Preorder(node))
            && (path.Some? ==>
                  && |path.value| > 0 && path.value[0] == node && path.value[|path.value| - 1].id == id
                  && GoesDown(path.value, id))
    decreases node, 1
  {
    if node.id != id {
      PathAmongLeadsThere(node.children, id);
      var below := PathAmong(node.children, id);
      if below.Some? {
        var path := [node] + below.value;
        assert forall i :: 0 < i < |path| ==> path[i] == below.value[i - 1];
      }
    }
  }

  lemma {:induction false} PathAmongLeadsThere(nodes: seq<Tree>, id: string)
    ensures var path := PathAmong(nodes, id);
            && (path.Some? <==> id in PreorderAll(nodes))
            && (path.Some? ==>
                  && |path.value| > 0 && path.value[0] in nodes && path.value[|path.value| - 1].id == id
                  && GoesDown(path.value, id))
    decreases nodes, 0
  {
    if nodes != [] {
      PathAmongLeadsThere(nodes[..|nodes| - 1], id);
      PathLeadsThere(nodes[|nodes| - 1], id);
      hide PathTo, Preorder, GoesDown;
    }
  }

  /** Among these nodes, this is the first with such a node below it or itself one. */
  ghost predicate IsFirst(nodes: seq<Tree>, node: Tree, id: string) {
    exists k :: 0 <= k < |nodes| && nodes[k] == node && id !in PreorderAll(nodes[..k])
  }

  /** Every step goes to the first child that leads to such a node. */
  ghost predicate TakesTheFirst(path: seq<Tree>, id: string) {
    forall i :: 0 <= i < |path| - 1 ==> IsFirst(path[i].children, path[i + 1], id)
  }

  /** Of several nodes with the id, the path goes to the first from the top down and from left to right. */
  lemma {:induction false} PathIsTheFirst(node: Tree, id: string)
    ensures PathTo(node, id).Some? ==> TakesTheFirst(PathTo(node, id).value, id)
    decreases node, 1
  {
    if node.id != id && PathAmong(node.children, id).Some? {
      var below := PathAmong(node.children, id).value;
      PathAmongIsTheFirst(node.children, id);
      hide PathTo, PathAmong, IsFirst;
      var path := [node] + below;
      forall i | 0 <= i < |path| - 1
        ensures IsFirst(path[i].children, path[i + 1], id)
      {
        assert path[i + 1] == below[i] && (i > 0 ==> path[i] == below[i - 1]);
      }
    }
  }

  lemma {:induction false} PathAmongIsTheFirst(nodes: seq<Tree>, id: string)
    ensures var path := PathAmong(nodes, id);
            path.Some? ==> path.value != [] && IsFirst(nodes, path.value[0], id) && TakesTheFirst(path.value, id)
    decreases nodes, 0
  {
    if nodes != [] {
      var n := |nodes| - 1;
      var front, last := nodes[..n], nodes[n];
      PathAmongIsTheFirst(front, id);
      PathAmongLeadsThere(front, id);
      PathIsTheFirst(last, id);
      PathLeadsThere(last, id);
      hide PathTo, TakesTheFirst, Preorder, PreorderAll, GoesDown;
      if PathAmong(front, id).Some? {
        var node := PathAmong(front, id).value[0];
        var k :| 0 <= k < |front| && front[k] == node && id !in PreorderAll(front[..k]);
        assert nodes[k] == node && nodes[..k] == front[..k];
      } else {
        assert nodes[n] == last && nodes[..n] == front;
      }
    }
  }
}
