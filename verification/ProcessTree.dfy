/**
 Turning a table of processes with parent links into a sorted forest
 (src/running_process/dashboard.py).

 Nodes are objects that hang under each other and whose child lists are filled and sorted
 in place. `parent_pid` may be absent, may name a process outside the table, may name the
 process itself, and the links may even run in a circle.
 */
module ProcessTree {
  import opened Wrappers
  import Insertion
  import Sets

  /** One row of the table; `info` stands for the fields that are only carried along. */
  datatype Process = Process(
    pid: int, parent: Option<int>, createdAt: Option<real>, registeredAt: Option<real>, info: string)

  datatype Tree = Tree(process: Process, children: seq<Tree>)

  // ---------------------------------------------------------- specification

  /** Later rows of the same pid replace earlier ones ... */
  function Table(processes: seq<Process>): map<int, Process> {
    if processes == [] then map[]
    else
      var n := |processes| - 1;
      Table(processes[..n])[processes[n].pid := processes[n]]
  }

  /** ... but keep the earlier one's place in the iteration order. */
  function Order(processes: seq<Process>): (order: seq<int>)
    ensures forall p :: p in order <==> p in Table(processes)
    ensures forall i, j :: 0 <= i < j < |order| ==> order[i] != order[j]
  {
    if processes == [] then []
    else
      var n := |processes| - 1;
      var order := Order(processes[..n]);
      if processes[n].pid in order then order else order + [processes[n].pid]
  }

  /** The link the builder follows: none when the parent is absent, outside the
      table, or the process itself. */
  function Link(nodes: map<int, Process>, p: int): (parent: Option<int>)
    requires p in nodes
    ensures parent.Some? ==> parent.value in nodes && parent.value != p
  {
    var parent := nodes[p].parent;
    if parent.Some? && parent.value in nodes && parent.value != p then parent else None
  }

  function ChildList(nodes: map<int, Process>, order: seq<int>, at: Option<int>): seq<Process>
    requires forall p :: p in order ==> p in nodes
  {
    if order == [] then []
    else
      var n := |order| - 1;
      ChildList(nodes, order[..n], at) + (if Link(nodes, order[n]) == at then [nodes[order[n]]] else [])
  }

  /** Python's `a or b`: a missing or zero time counts as absent. */
  function Time(p: Process): real {
    if p.createdAt.Some? && p.createdAt.value != 0.0 then p.createdAt.value
    else if p.registeredAt.Some? && p.registeredAt.value != 0.0 then p.registeredAt.value
    else 0.0
  }

  predicate NotAfter(a: Process, b: Process) {
    Time(a) < Time(b) || (Time(a) == Time(b) && a.pid <= b.pid)
  }

  predicate Ordered(rows: seq<Process>) {
    forall i, j :: 0 <= i < j < |rows| ==> NotAfter(rows[i], rows[j])
  }

  function Rows(forest: seq<Tree>): (rows: seq<Process>)
    ensures |rows| == |forest|
    ensures forall i :: 0 <= i < |forest| ==> rows[i] == forest[i].process
  {
    seq(|forest|, i requires 0 <= i < |forest| => forest[i].process)
  }

  /** The forest hanging at `at`: the siblings are the child list in sorted order,
      and below each of them hangs its own forest. */
  ghost predicate IsForest(nodes: map<int, Process>, order: seq<int>, at: Option<int>, forest: seq<Tree>)
    requires forall p :: p in order ==> p in nodes
    decreases forest
  {
    && multiset(Rows(forest)) == multiset(ChildList(nodes, order, at))
    && Ordered(Rows(forest))
    && forall t :: t in forest ==> IsForest(nodes, order, Some(t.process.pid), t.children)
  }

  function Occurrences(forest: seq<Tree>, p: int): nat
    decreases forest, 0
  {
    if forest == [] then 0 else OccurrencesInTree(forest[0], p) + Occurrences(forest[1..], p)
  }

  function OccurrencesInTree(t: Tree, p: int): nat
    decreases t, 1
  {
    (if t.process.pid == p then 1 else 0) + Occurrences(t.children, p)
  }

  /** The process reached after `n` links, if the links go that far. */
  function Ancestor(nodes: map<int, Process>, p: int, n: nat): (a: Option<int>)
    requires p in nodes
    ensures a.Some? ==> a.value in nodes
    decreases n
  {
    if n == 0 then Some(p)
    else
      var link := Link(nodes, p);
      if link.None? then None else Ancestor(nodes, link.value, n - 1)
  }

  /** Following the links leaves the table or ends at a self-parent. */
  ghost predicate Grounded(nodes: map<int, Process>, p: int)
    requires p in nodes
  {
    exists n: nat :: Ancestor(nodes, p, n).None?
  }

  /** Following the links comes back to a process it has passed. */
  ghost predicate EntersCycle(nodes: map<int, Process>, p: int)
    requires p in nodes
  {
    exists i: nat, j: nat :: i < j && Ancestor(nodes, p, i).Some? && Ancestor(nodes, p, i) == Ancestor(nodes, p, j)
  }

  // ------------------------------------------------------------- the builder

  /** A dictionary of the source: the fields of a row, and a child list that grows and is
      sorted in place. Nodes hang under each other by reference. */
  class Node {
    const process: Process
    var children: seq<Node>

    constructor (process: Process)
      ensures this.process == process && children == []
    {
      this.process, children := process, [];
    }
  }

  function Processes(list: seq<Node>): (rows: seq<Process>)
    ensures |rows| == |list|
    ensures forall i :: 0 <= i < |list| ==> rows[i] == list[i].process
  {
    seq(|list|, i requires 0 <= i < |list| => list[i].process)
  }

  predicate NodeNotAfter(a: Node, b: Node) {
    NotAfter(a.process, b.process)
  }

  lemma ProcessesExtended(list: seq<Node>, node: Node)
    ensures Processes(list + [node]) == Processes(list) + [node.process]
  {
  }

  lemma ProcessesInserted(list: seq<Node>, node: Node, at: nat)
    requires at <= |list|
    ensures multiset(Processes(Insertion.Inserted(list, node, at))) == multiset(Processes(list)) + multiset{node.process}
  {
    assert Processes(Insertion.Inserted(list, node, at)) == Insertion.Inserted(Processes(list), node.process, at);
    Insertion.InsertedMembers(Processes(list), node.process, at);
  }

  /** `list.sort` with the source's key. */
  method SortSiblings(list: seq<Node>) returns (sorted: seq<Node>)
    ensures multiset(Processes(sorted)) == multiset(Processes(list))
    ensures Ordered(Processes(sorted))
    ensures forall node :: node in sorted ==> node in list
  {
    sorted := [];
    for k := 0 to |list|
      invariant multiset(Processes(sorted)) == multiset(Processes(list[..k]))
      invariant Insertion.SortedBy(sorted, NodeNotAfter)
      invariant forall node :: node in sorted ==> node in list
    {
      assert list[..k + 1] == list[..k] + [list[k]];
      ProcessesExtended(list[..k], list[k]);
      sorted := InsertSibling(sorted, list[k]);
    }
    assert list[..|list|] == list;
  }

  method InsertSibling(sorted: seq<Node>, node: Node) returns (longer: seq<Node>)
    requires Insertion.SortedBy(sorted, NodeNotAfter)
    ensures Insertion.SortedBy(longer, NodeNotAfter)
    ensures multiset(Processes(longer)) == multiset(Processes(sorted)) + multiset{node.process}
    ensures forall x :: x in longer <==> x in sorted || x == node
  {
    ghost var at: nat;
    longer, at := Insertion.Insert(sorted, node, NodeNotAfter);
    ProcessesInserted(sorted, node, at);
    Insertion.InsertedMembers(sorted, node, at);
  }

  /** `path` leads from a root down to its last process. */
  ghost predicate IsPath(nodes: map<int, Process>, path: seq<int>) {
    path == [] ||
    var n := |path| - 1;
    path[n] in nodes && Link(nodes, path[n]) == End(path[..n]) && IsPath(nodes, path[..n])
  }

  function End(path: seq<int>): Option<int> {
    if path == [] then None else Some(path[|path| - 1])
  }

  lemma {:induction false} PathAt(nodes: map<int, Process>, path: seq<int>, i: nat)
    requires IsPath(nodes, path) && i < |path|
    ensures path[i] in nodes && Link(nodes, path[i]) == End(path[..i]) && IsPath(nodes, path[..i])
    decreases |path|
  {
    var n := |path| - 1;
    if i < n {
      PathAt(nodes, path[..n], i);
      assert path[..n][..i] == path[..i];
    }
  }

  /** A path never meets itself, whatever the table holds: this is why the
      recursion below a root ends even when other processes form a circle. */
  lemma {:induction false} PathIsSimple(nodes: map<int, Process>, path: seq<int>, p: int)
    requires IsPath(nodes, path) && p in nodes && Link(nodes, p) == End(path)
    ensures p !in path
    decreases |path|
  {
    if p in path {
      var i :| 0 <= i < |path| && path[i] == p;
      PathAt(nodes, path, i);
      var n := |path| - 1;
      PathIsSimple(nodes, path[..n], path[n]);
    }
  }

  lemma PathGrows(nodes: map<int, Process>, path: seq<int>, p: int)
    requires IsPath(nodes, path) && p in nodes && Link(nodes, p) == End(path)
    ensures p !in path && IsPath(nodes, path + [p])
  {
    PathIsSimple(nodes, path, p);
    assert (path + [p])[..|path|] == path;
  }

  ghost function Unvisited(nodes: map<int, Process>, path: seq<int>): set<int> {
    nodes.Keys - (set p | p in path)
  }

  /** The recursive call stays on a path and leaves fewer processes to visit. */
  lemma DescendIsSafe(nodes: map<int, Process>, path: seq<int>, p: int)
    requires IsPath(nodes, path) && p in nodes && Link(nodes, p) == End(path)
    ensures IsPath(nodes, path + [p]) && End(path + [p]) == Some(p)
    ensures Unvisited(nodes, path + [p]) < Unvisited(nodes, path)
  {
    PathGrows(nodes, path, p);
    assert p in Unvisited(nodes, path) && p in path + [p];
    assert forall q :: q in path ==> q in path + [p];
  }

  ghost predicate IsTable(nodes: map<int, Process>, order: seq<int>) {
    && (forall p :: p in order <==> p in nodes)
    && (forall i, j :: 0 <= i < j < |order| ==> order[i] != order[j])
    && (forall p :: p in nodes ==> nodes[p].pid == p)
  }

  /** One node per row of the table, and every child list holds the nodes of exactly the
      processes that are linked there, in some order. */
  ghost predicate Wired(table: map<int, Process>, order: seq<int>, nodes: map<int, Node>)
    requires forall p :: p in order ==> p in table
    reads nodes.Values
  {
    && OneNodeEach(table, nodes)
    && (forall p {:trigger HangsAt(table, order, nodes, p)} :: p in nodes ==> HangsAt(table, order, nodes, p))
  }

  ghost predicate HangsAt(table: map<int, Process>, order: seq<int>, nodes: map<int, Node>, p: int)
    requires (forall p :: p in order ==> p in table) && p in nodes
    reads nodes.Values
  {
    Hangs(table, order, nodes, Some(p), nodes[p].children)
  }

  predicate IsNode(nodes: map<int, Node>, node: Node) {
    node.process.pid in nodes && nodes[node.process.pid] == node
  }

  ghost predicate Hangs(table: map<int, Process>, order: seq<int>, nodes: map<int, Node>, at: Option<int>, list: seq<Node>)
    requires forall p :: p in order ==> p in table
  {
    && (forall i :: 0 <= i < |list| ==> IsNode(nodes, list[i]))
    && multiset(Processes(list)) == multiset(ChildList(table, order, at))
  }

  /** A node of the tree that is linked to `at`. */
  ghost predicate IsBelow(table: map<int, Process>, nodes: map<int, Node>, at: Option<int>, node: Node) {
    IsNode(nodes, node) && node.process.pid in table && Link(table, node.process.pid) == at
  }

  lemma HangsInAnyOrder(table: map<int, Process>, order: seq<int>, nodes: map<int, Node>, at: Option<int>,
                        list: seq<Node>, sorted: seq<Node>)
    requires IsTable(table, order) && Hangs(table, order, nodes, at, list)
    requires multiset(Processes(sorted)) == multiset(Processes(list)) && forall node :: node in sorted ==> node in list
    ensures Hangs(table, order, nodes, at, sorted)
  {
    forall i | 0 <= i < |sorted| ensures IsNode(nodes, sorted[i]) {
      assert sorted[i] in list;
    }
  }

  lemma HangingIsLinked(table: map<int, Process>, order: seq<int>, nodes: map<int, Node>, at: Option<int>, list: seq<Node>)
    requires IsTable(table, order) && Hangs(table, order, nodes, at, list)
    ensures forall i :: 0 <= i < |list| ==> IsBelow(table, nodes, at, list[i])
  {
    forall i | 0 <= i < |list| ensures IsBelow(table, nodes, at, list[i]) {
      assert Processes(list)[i] in multiset(Processes(list));
      ChildListMember(table, order, at, list[i].process);
    }
  }

  /** The processes whose child lists are sorted. */
  ghost function SortedLists(nodes: map<int, Node>): set<int>
    reads nodes.Values
  {
    set p | p in nodes && Ordered(Processes(nodes[p].children))
  }

  /** `done` holds the processes below each of its processes. */
  ghost predicate Closed(table: map<int, Process>, order: seq<int>, done: set<int>)
    requires forall p :: p in order ==> p in table
  {
    forall p, row :: p in done && row in ChildList(table, order, Some(p)) ==> row.pid in done
  }

  /** `_sort_tree_nodes`: sorts one sibling list in place, then each list below it. The list
      keeps its nodes, lists that were sorted stay sorted, and all lists below are. */
  method SortTreeNodes(ghost table: map<int, Process>, ghost order: seq<int>, ghost nodes: map<int, Node>,
                       siblings: seq<Node>, ghost path: seq<int>) returns (sorted: seq<Node>, ghost done: set<int>)
    requires IsTable(table, order) && Wired(table, order, nodes)
    requires IsPath(table, path) && Hangs(table, order, nodes, End(path), siblings)
    modifies nodes.Values
    ensures Wired(table, order, nodes)
    ensures Hangs(table, order, nodes, End(path), sorted) && Ordered(Processes(sorted))
    ensures old(SortedLists(nodes)) <= SortedLists(nodes)
    ensures forall i :: 0 <= i < |sorted| ==> sorted[i].process.pid in done
    ensures Closed(table, order, done) && done <= SortedLists(nodes)
    decreases Unvisited(table, path), 1
  {
    sorted := SortSiblings(siblings);
    done := {};
    HangsInAnyOrder(table, order, nodes, End(path), siblings, sorted);
    HangingIsLinked(table, order, nodes, End(path), sorted);
    for k := 0 to |sorted|
      invariant Wired(table, order, nodes)
      invariant old(SortedLists(nodes)) <= SortedLists(nodes)
      invariant forall i :: 0 <= i < k ==> sorted[i].process.pid in done
      invariant Closed(table, order, done) && done <= SortedLists(nodes)
    {
      done := SortBelow(table, order, nodes, sorted[k], path, done);
    }
  }

  /** The body of the loop: the list of one node is sorted and put back. */
  method SortBelow(ghost table: map<int, Process>, ghost order: seq<int>, ghost nodes: map<int, Node>,
                   node: Node, ghost path: seq<int>, ghost done: set<int>) returns (ghost more: set<int>)
    requires IsTable(table, order) && Wired(table, order, nodes)
    requires IsPath(table, path) && IsBelow(table, nodes, End(path), node)
    requires Closed(table, order, done) && done <= SortedLists(nodes)
    modifies nodes.Values
    ensures Wired(table, order, nodes)
    ensures old(SortedLists(nodes)) <= SortedLists(nodes)
    ensures done <= more && node.process.pid in more
    ensures Closed(table, order, more) && more <= SortedLists(nodes)
    decreases Unvisited(table, path), 0
  {
    ghost var p := node.process.pid;
    DescendIsSafe(table, path, p);
    assert HangsAt(table, order, nodes, p);
    var below: seq<Node>;
    below, more := SortTreeNodes(table, order, nodes, node.children, path + [p]);
    BelowIsClosed(table, order, nodes, more, p, below);
    PutBack(table, order, nodes, node, below);
    ClosedTogether(table, order, done, more, p);
    more := done + more + {p};
  }

  /** Replacing a list by a sorted one of the same processes. */
  method PutBack(ghost table: map<int, Process>, ghost order: seq<int>, ghost nodes: map<int, Node>, node: Node, below: seq<Node>)
    requires IsTable(table, order) && Wired(table, order, nodes)
    requires IsNode(nodes, node)
    requires Hangs(table, order, nodes, Some(node.process.pid), below) && Ordered(Processes(below))
    modifies node
    ensures Wired(table, order, nodes) && node.process.pid in SortedLists(nodes)
    ensures old(SortedLists(nodes)) <= SortedLists(nodes)
  {
    ghost var before := node.process.pid;
    forall p | p in nodes && p != before ensures nodes[p] != node && HangsAt(table, order, nodes, p) {
    }
    node.children := below;
    forall p | p in nodes ensures HangsAt(table, order, nodes, p) {
      assert p != before ==> nodes[p].children == old(nodes[p].children);
    }
  }

  lemma ClosedTogether(table: map<int, Process>, order: seq<int>, done: set<int>, more: set<int>, p: int)
    requires forall p :: p in order ==> p in table
    requires Closed(table, order, done) && Closed(table, order, more)
    requires forall row :: row in ChildList(table, order, Some(p)) ==> row.pid in more
    ensures Closed(table, order, done + more + {p})
  {
  }

  lemma BelowIsClosed(table: map<int, Process>, order: seq<int>, nodes: map<int, Node>, more: set<int>, p: int, below: seq<Node>)
    requires IsTable(table, order) && Hangs(table, order, nodes, Some(p), below)
    requires forall i :: 0 <= i < |below| ==> below[i].process.pid in more
    ensures forall row :: row in ChildList(table, order, Some(p)) ==> row.pid in more
  {
    forall row | row in ChildList(table, order, Some(p)) ensures row.pid in more {
      assert row in multiset(ChildList(table, order, Some(p)));
      assert row in multiset(Processes(below));
      var i :| 0 <= i < |below| && Processes(below)[i] == row;
    }
  }

  /** The nodes of a list, with all that hangs below them, are this forest. */
  ghost predicate Shows(nodes: map<int, Node>, list: seq<Node>, forest: seq<Tree>)
    reads nodes.Values
    decreases forest
  {
    && |forest| == |list|
    && forall i :: 0 <= i < |list| ==>
         && IsNode(nodes, list[i])
         && forest[i].process == list[i].process
         && Shows(nodes, list[i].children, forest[i].children)
  }

  /** Below a finished process everything is finished. */
  lemma ClosedLeadsOn(table: map<int, Process>, order: seq<int>, nodes: map<int, Node>, done: set<int>, p: int)
    requires IsTable(table, order) && Wired(table, order, nodes) && Closed(table, order, done)
    requires p in done && p in nodes
    ensures forall i :: 0 <= i < |nodes[p].children| ==> nodes[p].children[i].process.pid in done
  {
    var list := nodes[p].children;
    assert HangsAt(table, order, nodes, p);
    forall i | 0 <= i < |list| ensures list[i].process.pid in done {
      assert Processes(list)[i] in multiset(Processes(list));
      assert list[i].process in multiset(ChildList(table, order, Some(p)));
    }
  }

  /** What the lists below one node are. */
  lemma ReadTree(table: map<int, Process>, order: seq<int>, nodes: map<int, Node>, p: int, path: seq<int>, done: set<int>)
    returns (tree: Tree)
    requires IsTable(table, order) && Wired(table, order, nodes) && Closed(table, order, done) && done <= SortedLists(nodes)
    requires p in done && p in nodes && IsPath(table, path) && p in table && Link(table, p) == End(path)
    ensures tree.process == table[p]
    ensures Shows(nodes, nodes[p].children, tree.children) && IsForest(table, order, Some(p), tree.children)
    decreases Unvisited(table, path), 0
  {
    DescendIsSafe(table, path, p);
    assert HangsAt(table, order, nodes, p);
    ClosedLeadsOn(table, order, nodes, done, p);
    var below := ReadForest(table, order, nodes, nodes[p].children, path + [p], done);
    tree := Tree(table[p], below);
  }

  ghost predicate ReadsAs(table: map<int, Process>, order: seq<int>, nodes: map<int, Node>, node: Node, tree: Tree)
    requires IsTable(table, order)
    reads nodes.Values
  {
    && IsNode(nodes, node)
    && tree.process == node.process
    && Shows(nodes, node.children, tree.children)
    && IsForest(table, order, Some(node.process.pid), tree.children)
  }

  /** Sorted lists, followed down, are a forest of the table. */
  lemma ReadForest(table: map<int, Process>, order: seq<int>, nodes: map<int, Node>,
                   list: seq<Node>, path: seq<int>, done: set<int>) returns (forest: seq<Tree>)
    requires IsTable(table, order) && Wired(table, order, nodes) && Closed(table, order, done) && done <= SortedLists(nodes)
    requires IsPath(table, path) && Hangs(table, order, nodes, End(path), list) && Ordered(Processes(list))
    requires forall i :: 0 <= i < |list| ==> list[i].process.pid in done
    ensures Shows(nodes, list, forest) && IsForest(table, order, End(path), forest)
    decreases Unvisited(table, path), 1
  {
    forest := [];
    HangingIsLinked(table, order, nodes, End(path), list);
    for k := 0 to |list|
      invariant |forest| == k
      invariant forall i :: 0 <= i < k ==> ReadsAs(table, order, nodes, list[i], forest[i])
    {
      var p := list[k].process.pid;
      var tree := ReadTree(table, order, nodes, p, path, done);
      assert ReadsAs(table, order, nodes, list[k], tree);
      forest := forest + [tree];
    }
    Assemble(table, order, nodes, list, End(path), forest);
  }

  lemma Assemble(table: map<int, Process>, order: seq<int>, nodes: map<int, Node>,
                 list: seq<Node>, at: Option<int>, forest: seq<Tree>)
    requires IsTable(table, order) && Hangs(table, order, nodes, at, list) && Ordered(Processes(list))
    requires |forest| == |list| && forall i :: 0 <= i < |list| ==> ReadsAs(table, order, nodes, list[i], forest[i])
    ensures Shows(nodes, list, forest) && IsForest(table, order, at, forest)
  {
    assert Rows(forest) == Processes(list);
    forall t | t in forest ensures IsForest(table, order, Some(t.process.pid), t.children) {
      var i :| 0 <= i < |forest| && forest[i] == t;
      assert ReadsAs(table, order, nodes, list[i], forest[i]);
    }
  }

  /** The tree of a table: nodes that hang under each other as a forest. In it every process
      whose links end appears exactly once, and a process whose links run into a circle
      does not appear. */
  method BuildProcessTree(processes: seq<Process>)
    returns (roots: seq<Node>, ghost nodes: map<int, Node>, ghost forest: seq<Tree>)
    ensures Shows(nodes, roots, forest) && fresh(nodes.Values)
    ensures IsForest(Table(processes), Order(processes), None, forest)
    ensures forall row :: row in Rows(forest) <==>
              && row.pid in Table(processes) && Table(processes)[row.pid] == row
              && (row.parent.None? || row.parent.value !in Table(processes) || row.parent.value == row.pid)
    ensures forall p :: p in Table(processes) ==>
              Occurrences(forest, p) == if Grounded(Table(processes), p) then 1 else 0
  {
    var made, order := MakeNodes(processes);
    TableKeys(processes);
    ghost var table := Table(processes);
    roots := LinkChildren(table, order, made);
    LinkedIsWired(table, order, made);
    ghost var done: set<int>;
    roots, done := SortTreeNodes(table, order, made, roots, []);
    nodes := made;
    forest := ReadForest(table, order, nodes, roots, [], done);
    forall p | p in table ensures Occurrences(forest, p) == if Grounded(table, p) then 1 else 0 {
      AppearsOnceOrNever(table, order, forest, p);
    }
    TopRowsExactly(table, order, forest);
  }

  lemma TopRowsExactly(table: map<int, Process>, order: seq<int>, forest: seq<Tree>)
    requires IsTable(table, order) && IsForest(table, order, None, forest)
    ensures forall row :: row in Rows(forest) <==>
              && row.pid in table && table[row.pid] == row
              && (row.parent.None? || row.parent.value !in table || row.parent.value == row.pid)
  {
    forall row ensures row in Rows(forest) <==> row in ChildList(table, order, None) {
      assert row in Rows(forest) <==> row in multiset(Rows(forest));
      assert row in ChildList(table, order, None) <==> row in multiset(ChildList(table, order, None));
    }
    forall row ensures row in ChildList(table, order, None) <==>
              && row.pid in table && table[row.pid] == row
              && (row.parent.None? || row.parent.value !in table || row.parent.value == row.pid)
    {
      RootsExactly(table, order, row);
    }
  }

  lemma TableGrows(processes: seq<Process>, k: nat)
    requires k < |processes|
    ensures Table(processes[..k + 1]) == Table(processes[..k])[processes[k].pid := processes[k]]
    ensures Order(processes[..k + 1]) == if processes[k].pid in Table(processes[..k]) then Order(processes[..k])
                                         else Order(processes[..k]) + [processes[k].pid]
  {
    assert processes[..k + 1][..k] == processes[..k];
  }

  /** One node for each pid, in the place of its first row and with the fields of its last. */
  method MakeNodes(processes: seq<Process>) returns (nodes: map<int, Node>, order: seq<int>)
    ensures order == Order(processes) && OneNodeEach(Table(processes), nodes)
    ensures forall p :: p in nodes ==> nodes[p].children == []
    ensures fresh(nodes.Values)
  {
    nodes, order := map[], [];
    assert processes[..0] == [];
    for k := 0 to |processes|
      invariant order == Order(processes[..k]) && nodes.Keys == Table(processes[..k]).Keys
      invariant forall p :: p in nodes ==> nodes[p].process == Table(processes[..k])[p] && nodes[p].children == []
      invariant forall p :: p in nodes ==> fresh(nodes[p])
    {
      TableGrows(processes, k);
      if processes[k].pid !in nodes {
        order := order + [processes[k].pid];
      }
      var node := new Node(processes[k]);
      nodes := nodes[processes[k].pid := node];
    }
    assert processes[..|processes|] == processes;
  }

  /** The loop that hangs every node under its parent or among the roots. */
  method LinkChildren(ghost table: map<int, Process>, order: seq<int>, nodes: map<int, Node>) returns (roots: seq<Node>)
    requires IsTable(table, order) && OneNodeEach(table, nodes)
    requires forall p :: p in nodes ==> nodes[p].children == []
    modifies nodes.Values
    ensures AllLinked(table, order, nodes) && Linked(table, order, nodes, None, roots)
  {
    roots := [];
    assert order[..0] == [];
    for k := 0 to |order|
      invariant AllLinked(table, order[..k], nodes) && Linked(table, order[..k], nodes, None, roots)
    {
      assert order[k] in order;
      roots := LinkNode(table, order, k, nodes, roots);
    }
    assert order[..|order|] == order;
  }

  method LinkNode(ghost table: map<int, Process>, order: seq<int>, k: nat, nodes: map<int, Node>, roots: seq<Node>)
    returns (more: seq<Node>)
    requires IsTable(table, order) && OneNodeEach(table, nodes) && k < |order| && order[k] in nodes
    requires AllLinked(table, order[..k], nodes) && Linked(table, order[..k], nodes, None, roots)
    modifies nodes.Values
    ensures AllLinked(table, order[..k + 1], nodes) && Linked(table, order[..k + 1], nodes, None, more)
  {
    var node := nodes[order[k]];
    ghost var link := Link(table, order[k]);
    LinkOne(table, order, k, nodes, None, roots);
    forall p | p in nodes
      ensures Linked(table, order[..k + 1], nodes, Some(p),
                     if link == Some(p) then nodes[p].children + [node] else nodes[p].children)
    {
      assert LinkedAt(table, order[..k], nodes, p);
      LinkOne(table, order, k, nodes, Some(p), nodes[p].children);
    }
    var parent := node.process.parent;
    more := roots;
    if parent.Some? && parent.value in nodes && parent.value != order[k] {
      nodes[parent.value].children := nodes[parent.value].children + [node];
      forall p | p in nodes && p != parent.value ensures nodes[p].children == old(nodes[p].children) {
        assert nodes[p] != nodes[parent.value];
      }
    } else {
      more := roots + [node];
    }
    forall p | p in nodes ensures LinkedAt(table, order[..k + 1], nodes, p) {
    }
  }

  ghost predicate OneNodeEach(table: map<int, Process>, nodes: map<int, Node>) {
    nodes.Keys == table.Keys && forall p {:trigger nodes[p]} :: p in nodes ==> nodes[p].process == table[p]
  }

  /** The list holds, in order, the nodes of the processes linked there so far. */
  ghost predicate Linked(table: map<int, Process>, order: seq<int>, nodes: map<int, Node>, at: Option<int>, list: seq<Node>)
    requires forall p :: p in order ==> p in table
  {
    && (forall i :: 0 <= i < |list| ==> IsNode(nodes, list[i]))
    && Processes(list) == ChildList(table, order, at)
  }

  ghost predicate LinkedAt(table: map<int, Process>, order: seq<int>, nodes: map<int, Node>, p: int)
    requires (forall p :: p in order ==> p in table) && p in nodes
    reads nodes.Values
  {
    Linked(table, order, nodes, Some(p), nodes[p].children)
  }

  ghost predicate AllLinked(table: map<int, Process>, order: seq<int>, nodes: map<int, Node>)
    requires forall p :: p in order ==> p in table
    reads nodes.Values
  {
    forall p {:trigger LinkedAt(table, order, nodes, p)} :: p in nodes ==> LinkedAt(table, order, nodes, p)
  }

  lemma LinkedIsWired(table: map<int, Process>, order: seq<int>, nodes: map<int, Node>)
    requires IsTable(table, order) && OneNodeEach(table, nodes) && AllLinked(table, order, nodes)
    ensures Wired(table, order, nodes)
  {
    forall p | p in nodes ensures HangsAt(table, order, nodes, p) {
      assert LinkedAt(table, order, nodes, p);
    }
  }

  lemma LinkOne(table: map<int, Process>, order: seq<int>, k: nat, nodes: map<int, Node>, at: Option<int>, list: seq<Node>)
    requires IsTable(table, order) && k < |order| && OneNodeEach(table, nodes)
    requires Linked(table, order[..k], nodes, at, list)
    ensures Linked(table, order[..k + 1], nodes, at, if Link(table, order[k]) == at then list + [nodes[order[k]]] else list)
  {
    assert order[..k + 1][..k] == order[..k];
    assert order[k] in order;
    ProcessesExtended(list, nodes[order[k]]);
  }

  // ---------------------------------------------------------------- theorems

  lemma {:induction false} TableKeys(processes: seq<Process>)
    ensures forall p :: p in Table(processes) ==> Table(processes)[p].pid == p
  {
    if processes != [] {
      TableKeys(processes[..|processes| - 1]);
    }
  }

  lemma {:induction false} ChildListMember(nodes: map<int, Process>, order: seq<int>, at: Option<int>, row: Process)
    requires IsTable(nodes, order)
    requires row in multiset(ChildList(nodes, order, at))
    ensures row.pid in nodes && nodes[row.pid] == row && Link(nodes, row.pid) == at
  {
    ChildListHolds(nodes, order, at, row);
  }

  lemma {:induction false} ChildListHolds(nodes: map<int, Process>, order: seq<int>, at: Option<int>, row: Process)
    requires forall p :: p in order ==> p in nodes && nodes[p].pid == p
    requires row in ChildList(nodes, order, at)
    ensures row.pid in nodes && nodes[row.pid] == row && Link(nodes, row.pid) == at
  {
    var n := |order| - 1;
    if row in ChildList(nodes, order[..n], at) {
      ChildListHolds(nodes, order[..n], at, row);
    } else {
      assert row == nodes[order[n]] && order[n] in order;
    }
  }

  /** The time a process is sorted by: its creation, or else its registration, where zero
      counts as absent; or zero. */
  predicate IsSortTime(p: Process, t: real) {
    || (p.createdAt == Some(t) && t != 0.0)
    || (p.createdAt in {None, Some(0.0)} && p.registeredAt == Some(t))
    || (p.createdAt in {None, Some(0.0)} && p.registeredAt == None && t == 0.0)
  }

  /** Siblings stand in the order of that time, and of their pids where it is the same. */
  lemma SiblingOrder(rows: seq<Process>, i: nat, j: nat, ti: real, tj: real)
    requires Ordered(rows) && i < j < |rows| && IsSortTime(rows[i], ti) && IsSortTime(rows[j], tj)
    ensures ti < tj || (ti == tj && rows[i].pid <= rows[j].pid)
  {
    assert NotAfter(rows[i], rows[j]);
  }

  lemma {:induction false} ChildListComplete(nodes: map<int, Process>, order: seq<int>, at: Option<int>, p: int)
    requires forall q :: q in order ==> q in nodes
    requires p in order && Link(nodes, p) == at
    ensures nodes[p] in ChildList(nodes, order, at)
  {
    var n := |order| - 1;
    if p in order[..n] {
      ChildListComplete(nodes, order[..n], at, p);
    } else {
      assert order == order[..n] + [order[n]];
    }
  }

  /** The roots are the processes whose parent is absent, outside the table, or themselves ... */
  lemma RootsExactly(nodes: map<int, Process>, order: seq<int>, row: Process)
    requires IsTable(nodes, order)
    ensures row in ChildList(nodes, order, None) <==>
              && row.pid in nodes && nodes[row.pid] == row
              && (row.parent.None? || row.parent.value !in nodes || row.parent.value == row.pid)
  {
    if row in ChildList(nodes, order, None) {
      ChildListHolds(nodes, order, None, row);
    }
    if row.pid in nodes && nodes[row.pid] == row && Link(nodes, row.pid) == None {
      ChildListComplete(nodes, order, None, row.pid);
    }
  }

  /** ... and below a process stand exactly those that name it as their parent. */
  lemma ChildrenExactly(nodes: map<int, Process>, order: seq<int>, q: int, row: Process)
    requires IsTable(nodes, order) && q in nodes
    ensures row in ChildList(nodes, order, Some(q)) <==>
              row.pid in nodes && nodes[row.pid] == row && row.parent == Some(q) && row.pid != q
  {
    if row in ChildList(nodes, order, Some(q)) {
      ChildListHolds(nodes, order, Some(q), row);
    }
    if row.pid in nodes && nodes[row.pid] == row && row.parent == Some(q) && row.pid != q {
      ChildListComplete(nodes, order, Some(q), row.pid);
    }
  }

  /** Of several rows with one pid the last one counts. */
  lemma {:induction false} TableKeepsLast(processes: seq<Process>, i: nat)
    requires i < |processes| && forall j :: i < j < |processes| ==> processes[j].pid != processes[i].pid
    ensures processes[i].pid in Table(processes) && Table(processes)[processes[i].pid] == processes[i]
  {
    var n := |processes| - 1;
    if i < n {
      TableKeepsLast(processes[..n], i);
    }
  }

  /** And the first one gives its place. */
  lemma {:induction false} OrderKeepsFirst(processes: seq<Process>, i: nat, j: nat) returns (a: nat, b: nat)
    requires i < j < |processes| && processes[i].pid != processes[j].pid
    requires forall k :: 0 <= k < j ==> processes[k].pid != processes[j].pid
    ensures a < b < |Order(processes)| && Order(processes)[a] == processes[i].pid && Order(processes)[b] == processes[j].pid
    decreases |processes|
  {
    var n := |processes| - 1;
    var before := Order(processes[..n]);
    if j < n {
      a, b := OrderKeepsFirst(processes[..n], i, j);
    } else {
      TableHas(processes[..n], i);
      TableOnlyHas(processes[..n], processes[j].pid);
      a :| 0 <= a < |before| && before[a] == processes[i].pid;
      b := |before|;
    }
  }

  lemma {:induction false} TableHas(processes: seq<Process>, i: nat)
    requires i < |processes|
    ensures processes[i].pid in Table(processes)
  {
    if i < |processes| - 1 {
      TableHas(processes[..|processes| - 1], i);
    }
  }

  lemma {:induction false} TableOnlyHas(processes: seq<Process>, p: int)
    requires forall k :: 0 <= k < |processes| ==> processes[k].pid != p
    ensures p !in Table(processes)
  {
    if processes != [] {
      TableOnlyHas(processes[..|processes| - 1], p);
    }
  }

  /** Each process stands in the one list its link names, once. */
  lemma {:induction false} ChildListOnce(nodes: map<int, Process>, order: seq<int>, at: Option<int>, p: int)
    requires forall q :: q in order ==> q in nodes && nodes[q].pid == q
    requires forall i, j :: 0 <= i < j < |order| ==> order[i] != order[j]
    requires p in nodes && nodes[p].pid == p
    ensures multiset(ChildList(nodes, order, at))[nodes[p]] == if p in order && Link(nodes, p) == at then 1 else 0
  {
    if order != [] {
      var n := |order| - 1;
      assert order == order[..n] + [order[n]];
      ChildListOnce(nodes, order[..n], at, p);
    }
  }

  lemma RowsSplit(forest: seq<Tree>)
    requires forest != []
    ensures multiset(Rows(forest)) == multiset{forest[0].process} + multiset(Rows(forest[1..]))
  {
    assert Rows(forest) == [forest[0].process] + Rows(forest[1..]);
  }

  /** Every tree of a forest is its own row of the table with its own forest below. */
  ghost predicate AllTrees(nodes: map<int, Process>, order: seq<int>, forest: seq<Tree>)
    requires IsTable(nodes, order)
  {
    forall t :: t in forest ==>
      && t.process.pid in nodes && nodes[t.process.pid] == t.process
      && IsForest(nodes, order, Some(t.process.pid), t.children)
  }

  lemma ForestTrees(nodes: map<int, Process>, order: seq<int>, at: Option<int>, forest: seq<Tree>)
    requires IsTable(nodes, order) && IsForest(nodes, order, at, forest)
    ensures AllTrees(nodes, order, forest)
    ensures forall t :: t in forest ==> t.process.pid in nodes && Link(nodes, t.process.pid) == at
  {
    forall t | t in forest
      ensures t.process.pid in nodes && nodes[t.process.pid] == t.process && Link(nodes, t.process.pid) == at
    {
      var i :| 0 <= i < |forest| && forest[i] == t;
      assert Rows(forest)[i] == t.process;
      assert t.process in multiset(Rows(forest));
      ChildListMember(nodes, order, at, t.process);
    }
  }

  /** A process occurs once for each time it is a sibling at the top, and once for
      each occurrence of the process it is linked to. */
  lemma {:induction false} OccurrencesFollowLink(nodes: map<int, Process>, order: seq<int>, forest: seq<Tree>, p: int)
    requires IsTable(nodes, order) && p in nodes
    requires AllTrees(nodes, order, forest)
    ensures Occurrences(forest, p) == multiset(Rows(forest))[nodes[p]]
                                    + (if Link(nodes, p).Some? then Occurrences(forest, Link(nodes, p).value) else 0)
    decreases forest
  {
    if forest != [] {
      var t := forest[0];
      ForestTrees(nodes, order, Some(t.process.pid), t.children);
      OccurrencesFollowLink(nodes, order, t.children, p);
      ChildListOnce(nodes, order, Some(t.process.pid), p);
      RowsSplit(forest);
      OccurrencesFollowLink(nodes, order, forest[1..], p);
    }
  }

  /** Whatever occurs below a grounded process is grounded. */
  lemma {:induction false} OccurringIsGrounded(nodes: map<int, Process>, order: seq<int>, forest: seq<Tree>,
                                               at: Option<int>, p: int)
    requires IsTable(nodes, order) && p in nodes
    requires AllTrees(nodes, order, forest)
    requires forall t :: t in forest ==> Link(nodes, t.process.pid) == at
    requires at.Some? ==> at.value in nodes && Grounded(nodes, at.value)
    requires Occurrences(forest, p) > 0
    ensures Grounded(nodes, p)
    decreases forest
  {
    var t := forest[0];
    var top := t.process.pid;
    GroundedThroughLink(nodes, top);
    if top == p {
    } else if Occurrences(t.children, p) > 0 {
      ForestTrees(nodes, order, Some(top), t.children);
      OccurringIsGrounded(nodes, order, t.children, Some(top), p);
    } else {
      OccurringIsGrounded(nodes, order, forest[1..], at, p);
    }
  }

  lemma GroundedThroughLink(nodes: map<int, Process>, p: int)
    requires p in nodes
    ensures Grounded(nodes, p) <==> Link(nodes, p).None? || Grounded(nodes, Link(nodes, p).value)
  {
    var link := Link(nodes, p);
    if link.None? {
      assert Ancestor(nodes, p, 1).None?;
    } else if Grounded(nodes, p) {
      var n: nat :| Ancestor(nodes, p, n).None?;
      assert Ancestor(nodes, link.value, n - 1).None?;
    } else if Grounded(nodes, link.value) {
      var n: nat :| Ancestor(nodes, link.value, n).None?;
      assert Ancestor(nodes, p, n + 1).None?;
    }
  }

  lemma {:induction false} GroundedAppears(nodes: map<int, Process>, order: seq<int>, forest: seq<Tree>, p: int, n: nat)
    requires IsTable(nodes, order) && p in nodes
    requires IsForest(nodes, order, None, forest)
    requires Ancestor(nodes, p, n).None?
    ensures Occurrences(forest, p) == 1
    decreases n
  {
    ForestTrees(nodes, order, None, forest);
    OccurrencesFollowLink(nodes, order, forest, p);
    ChildListOnce(nodes, order, None, p);
    var link := Link(nodes, p);
    if link.Some? {
      GroundedAppears(nodes, order, forest, link.value, n - 1);
    }
  }

  /** The forest of a table holds each grounded process once and no other. */
  lemma AppearsOnceOrNever(nodes: map<int, Process>, order: seq<int>, forest: seq<Tree>, p: int)
    requires IsTable(nodes, order) && p in nodes
    requires IsForest(nodes, order, None, forest)
    ensures Occurrences(forest, p) == if Grounded(nodes, p) then 1 else 0
  {
    if Grounded(nodes, p) {
      var n: nat :| Ancestor(nodes, p, n).None?;
      GroundedAppears(nodes, order, forest, p, n);
    } else if Occurrences(forest, p) > 0 {
      ForestTrees(nodes, order, None, forest);
      OccurringIsGrounded(nodes, order, forest, None, p);
    }
  }

  lemma {:induction false} AncestorAdds(nodes: map<int, Process>, p: int, m: nat, n: nat)
    requires p in nodes
    ensures Ancestor(nodes, p, m + n)
         == if Ancestor(nodes, p, m).None? then None else Ancestor(nodes, Ancestor(nodes, p, m).value, n)
    decreases m
  {
    if m > 0 && Link(nodes, p).Some? {
      AncestorAdds(nodes, Link(nodes, p).value, m - 1, n);
    }
  }

  /** The links of a process either end or run into a circle, never both. */
  lemma GroundedOrCircular(nodes: map<int, Process>, p: int)
    requires p in nodes
    ensures EntersCycle(nodes, p) <==> !Grounded(nodes, p)
  {
    if EntersCycle(nodes, p) {
      var i: nat, j: nat :| i < j && Ancestor(nodes, p, i).Some? && Ancestor(nodes, p, i) == Ancestor(nodes, p, j);
      forall n: nat ensures Ancestor(nodes, p, n).Some? {
        CycleGoesOn(nodes, p, i, j, n);
      }
    } else if !Grounded(nodes, p) {
      Pigeonhole(nodes, p, |nodes| + 1);
    }
  }

  lemma {:induction false} CycleGoesOn(nodes: map<int, Process>, p: int, i: nat, j: nat, n: nat)
    requires p in nodes && i < j
    requires Ancestor(nodes, p, i).Some? && Ancestor(nodes, p, i) == Ancestor(nodes, p, j)
    ensures Ancestor(nodes, p, n).Some?
    decreases n
  {
    if n <= j {
      AncestorAdds(nodes, p, n, j - n);
    } else {
      CycleGoesOn(nodes, p, i, j, n - (j - i));
      AncestorAdds(nodes, p, i, n - j);
      AncestorAdds(nodes, p, j, n - j);
      assert i + (n - j) == n - (j - i) && j + (n - j) == n;
    }
  }

  /** Links that neither end nor repeat would visit more processes than there are. */
  lemma {:induction false} Pigeonhole(nodes: map<int, Process>, p: int, n: nat)
    requires p in nodes && !Grounded(nodes, p) && !EntersCycle(nodes, p)
    ensures n <= |nodes|
  {
    var visited: set<int> := {};
    for k := 0 to n
      invariant |visited| == k && visited <= nodes.Keys
      invariant forall q :: q in visited ==> exists i: nat :: i < k && Ancestor(nodes, p, i) == Some(q)
    {
      var q := Ancestor(nodes, p, k).value;
      assert q !in visited;
      visited := visited + {q};
      assert Ancestor(nodes, p, k) == Some(q);
    }
    Sets.SubsetSize(visited, nodes.Keys);
  }
}
