/**
 * The behaviour-tree machinery of crates/rg_ai/src/behavior_tree.rs.
 *
 * A `BehaviorTree` is an arena of nodes; node 0 is the root.  An agent walks
 * the tree one node at a time.  While a node's action runs, the agent holds
 * a `Behavior` (the action's state, the pending command, the node, its
 * number of children and what its last child returned).  Between two
 * actions it holds a `PassBehavior` naming the node to run next, and its
 * `BehaviorStack` keeps the saved states of the actions it will return to.
 * Each fixed step runs remove-stale and transition, then reset-flag, then
 * instantiate.  The actions' process systems (module Actions) are added
 * to the per-frame schedule instead; the model takes one process step
 * between two transitions.
 *
 * Actions are boxed reflection values in the source; here they are the
 * built-in actions of crates/rg_ai/src/actions.rs, and "represents A" is
 * equality of their `Kind`.
 */
module BehaviorTrees {
  import opened Wrappers

  /** The built-in actions with their state; a sleep is a count of nanoseconds. */
  datatype Action =
    | SequenceUntilFailure(index: nat)
    | SequenceUntilSuccess(index: nat)
    | AlwaysSucceed
    | AlwaysFail
    | InvertResult
    | Sleep(duration: nat)
    | LogMessage(message: string)

  /** The action types; one instantiation system runs per type. */
  datatype ActionKind =
    | SequenceUntilFailureKind
    | SequenceUntilSuccessKind
    | AlwaysSucceedKind
    | AlwaysFailKind
    | InvertResultKind
    | SleepKind
    | LogMessageKind

  function Kind(a: Action): ActionKind {
    match a
    case SequenceUntilFailure(_) => SequenceUntilFailureKind
    case SequenceUntilSuccess(_) => SequenceUntilSuccessKind
    case AlwaysSucceed => AlwaysSucceedKind
    case AlwaysFail => AlwaysFailKind
    case InvertResult => InvertResultKind
    case Sleep(_) => SleepKind
    case LogMessage(_) => LogMessageKind
  }

  /** `NodeId::ROOT`. */
  const Root: nat := 0

  /** A node: its action, its parent and its children, by id. */
  datatype Node = Node(action: Action, parent: Option<nat>, children: seq<nat>)

  datatype BehaviorResult = Success | Failure

  datatype BehaviorCommand = Continue | Exit(result: BehaviorResult) | RunChild(index: nat)

  /** The component an agent holds between two actions. */
  datatype PassBehavior = PassBehavior(nodeId: nat, numChildren: nat, childResult: Option<BehaviorResult>)

  /**
   * The links of a tree agree: parents and children are nodes of the tree,
   * a node lists a child iff the child names it as its parent, and no child
   * is listed twice.
   */
  predicate WellLinked(nodes: seq<Node>) {
    (forall i | 0 <= i < |nodes| && nodes[i].parent.Some? ::
      nodes[i].parent.value < |nodes| && i in nodes[nodes[i].parent.value].children) &&
    (forall i, k | 0 <= i < |nodes| && 0 <= k < |nodes[i].children| ::
      nodes[i].children[k] < |nodes| && nodes[nodes[i].children[k]].parent == Some(i)) &&
    (forall i, k, l | 0 <= i < |nodes| && 0 <= k < l < |nodes[i].children| ::
      nodes[i].children[k] != nodes[i].children[l])
  }

  /** In a well-linked tree a node is the child of at most one node. */
  lemma AtMostOneParent(nodes: seq<Node>, i: nat, j: nat, c: nat)
    requires WellLinked(nodes) && i < |nodes| && j < |nodes|
    requires c in nodes[i].children && c in nodes[j].children
    ensures i == j
  {
    var k :| 0 <= k < |nodes[i].children| && nodes[i].children[k] == c;
    var l :| 0 <= l < |nodes[j].children| && nodes[j].children[l] == c;
    assert nodes[c].parent == Some(i);
  }

  /**
   * Linking a parentless node c under p keeps a tree well linked: p's list
   * gains c at its end, c's parent becomes p, and nothing else changes.
   */
  lemma LinkKeepsWellLinked(before: seq<Node>, after: seq<Node>, p: nat, c: nat)
    requires WellLinked(before) && p < |before| && c < |before| && before[c].parent.None?
    requires |after| == |before|
    requires after[p].children == before[p].children + [c] && after[c].parent == Some(p)
    requires forall i | 0 <= i < |before| && i != p :: after[i].children == before[i].children
    requires forall i | 0 <= i < |before| && i != c :: after[i].parent == before[i].parent
    ensures WellLinked(after)
  {
    forall i | 0 <= i < |after| && after[i].parent.Some?
      ensures after[i].parent.value < |after| && i in after[after[i].parent.value].children
    {
      if i != c {
        var q := before[i].parent.value;
        assert i in before[q].children;
        var k :| 0 <= k < |before[q].children| && before[q].children[k] == i;
        assert after[q].children[k] == i;
      } else {
        assert after[p].children[|before[p].children|] == c;
      }
    }
    forall i, k | 0 <= i < |after| && 0 <= k < |after[i].children|
      ensures after[i].children[k] < |after| && after[after[i].children[k]].parent == Some(i)
    {
      if i == p && k == |before[p].children| {
        assert after[i].children[k] == c;
      } else {
        assert after[i].children[k] == before[i].children[k];
        NotParentless(before, i, k, c);
      }
    }
    forall i, k, l | 0 <= i < |after| && 0 <= k < l < |after[i].children|
      ensures after[i].children[k] != after[i].children[l]
    {
      if i == p && l == |before[p].children| {
        NotParentless(before, i, k, c);
      }
    }
  }

  /** A listed child has a parent, so it is not the parentless node c. */
  lemma NotParentless(nodes: seq<Node>, i: nat, k: nat, c: nat)
    requires WellLinked(nodes) && i < |nodes| && k < |nodes[i].children|
    requires c < |nodes| && nodes[c].parent.None?
    ensures nodes[i].children[k] != c && nodes[i].children[k] < |nodes|
  {
  }

  /** The tree asset: its nodes, in the order they were added. */
  class BehaviorTree {
    var nodes: seq<Node>

    /** `BehaviorTree::new`: no nodes. */
    constructor()
      ensures nodes == []
    {
      nodes := [];
    }

    predicate Valid()
      reads this
    {
      WellLinked(nodes)
    }

    /**
     * `add_node`: appends a node made from an action, with no parent and no
     * children, and returns its id, the number of nodes before the call.
     */
    method AddNode(action: Action) returns (id: nat)
      modifies this
      ensures id == old(|nodes|) && nodes == old(nodes) + [Node(action, None, [])]
      ensures old(Valid()) ==> Valid()
    {
      id := |nodes|;
      nodes := nodes + [Node(action, None, [])];
      assert forall i | 0 <= i < |nodes| - 1 :: nodes[i] == old(nodes[i]);
    }

    /**
     * `add_child`: the child must have no parent yet (the source asserts
     * it); the child is appended to the parent's list, then its parent is
     * set.  Every other node is unchanged and the links stay consistent.
     */
    method AddChild(parentId: nat, childId: nat)
      requires parentId < |nodes| && childId < |nodes| && nodes[childId].parent.None?
      modifies this
      ensures |nodes| == old(|nodes|)
      ensures nodes[parentId].children == old(nodes[parentId].children) + [childId]
      ensures nodes[childId].parent == Some(parentId)
      ensures forall i | 0 <= i < |nodes| :: nodes[i].action == old(nodes[i].action)
      ensures forall i | 0 <= i < |nodes| && i != parentId :: nodes[i].children == old(nodes[i].children)
      ensures forall i | 0 <= i < |nodes| && i != childId :: nodes[i].parent == old(nodes[i].parent)
      ensures old(Valid()) ==> Valid()
    {
      nodes := nodes[parentId := nodes[parentId].(children := nodes[parentId].children + [childId])];
      nodes := nodes[childId := nodes[childId].(parent := Some(parentId))];
      if old(Valid()) {
        LinkKeepsWellLinked(old(nodes), nodes, parentId, childId);
      }
    }
  }

  /** The running state of an agent's current action. */
  class Behavior {
    var action: Action
    var command: BehaviorCommand
    const nodeId: nat
    const numChildren: nat
    const childResult: Option<BehaviorResult>

    /** A behaviour made from a pass: the given action, command Continue. */
    constructor(action: Action, pass: PassBehavior)
      ensures this.action == action && command == Continue
      ensures nodeId == pass.nodeId && numChildren == pass.numChildren && childResult == pass.childResult
    {
      this.action := action;
      command := Continue;
      nodeId := pass.nodeId;
      numChildren := pass.numChildren;
      childResult := pass.childResult;
    }

    /** `has_returned_from_child`. */
    predicate HasReturnedFromChild()
      ensures HasReturnedFromChild() <==> childResult == Some(Success) || childResult == Some(Failure)
    {
      assert childResult.Some? ==> childResult.value.Success? || childResult.value.Failure?;
      childResult.Some?
    }

    /** `child_failed`. */
    predicate ChildFailed()
      ensures ChildFailed() ==> childResult.Some? && childResult != Some(Success)
    {
      childResult == Some(Failure)
    }

    /** `child_succeeded` as the source writes it: it tests for a failure. */
    predicate ChildSucceededAsWritten() {
      childResult == Some(Failure)
    }

    /** `child_succeeded` as its name promises. */
    predicate ChildSucceeded() {
      childResult == Some(Success)
    }

    /** `run_child`: only the pending command changes. */
    method RunChild(index: nat)
      modifies this
      ensures command == BehaviorCommand.RunChild(index) && action == old(action)
    {
      command := BehaviorCommand.RunChild(index);
    }

    /** `success`: only the pending command changes. */
    method ReportSuccess()
      modifies this
      ensures command == Exit(Success) && action == old(action)
    {
      command := Exit(Success);
    }

    /** `failure`: only the pending command changes. */
    method ReportFailure()
      modifies this
      ensures command == Exit(Failure) && action == old(action)
    {
      command := Exit(Failure);
    }
  }

  /**
   * A returned child either failed or succeeded, never both, and a child
   * that has not returned did neither.
   */
  lemma ChildOutcomes(b: Behavior)
    ensures b.HasReturnedFromChild() <==> b.ChildFailed() || b.ChildSucceeded()
    ensures !(b.ChildFailed() && b.ChildSucceeded())
  {
    if b.childResult.Some? {
      assert b.childResult.value == Success || b.childResult.value == Failure;
    }
  }

  /**
   * As written, `child_succeeded` holds for a child that failed and not for
   * one that succeeded.
   */
  lemma ChildSucceededAsWrittenIsFailure(b: Behavior)
    ensures b.childResult == Some(Failure) ==> b.ChildSucceededAsWritten() && !b.ChildSucceeded()
    ensures b.childResult == Some(Success) ==> !b.ChildSucceededAsWritten() && b.ChildSucceeded()
    ensures b.ChildSucceededAsWritten() <==> b.ChildFailed()
  {
  }

  /** The agent's stack of saved actions. */
  class BehaviorStack {
    var stack: seq<Action>

    constructor(stack: seq<Action>)
      ensures this.stack == stack
    {
      this.stack := stack;
    }
  }

  /** Set once an action has been instantiated in the current tick. */
  class InstantiatedFlag {
    var instantiated: bool

    constructor(instantiated: bool)
      ensures this.instantiated == instantiated
    {
      this.instantiated := instantiated;
    }
  }

  function Last<T>(s: seq<T>): T
    requires |s| > 0
  {
    s[|s| - 1]
  }

  /** A path from the root down the tree: each node's parent is the node before it. */
  predicate IsPath(nodes: seq<Node>, path: seq<nat>) {
    |path| > 0 && path[0] == Root &&
    (forall k | 0 <= k < |path| :: path[k] < |nodes|) &&
    (forall k | 0 < k < |path| :: nodes[path[k]].parent == Some(path[k - 1]))
  }

  /** The stack holds one action per node of the path, of that node's action type. */
  predicate Mirrors(nodes: seq<Node>, path: seq<nat>, stack: seq<Action>) {
    |stack| == |path| &&
    forall k | 0 <= k < |path| :: path[k] < |nodes| && Kind(stack[k]) == Kind(nodes[path[k]].action)
  }

  /**
   * An agent between two actions: the pass names the last node of a root
   * path with its number of children, and the stack mirrors the whole path,
   * its top being the action about to run.
   */
  predicate Passing(nodes: seq<Node>, path: seq<nat>, pass: PassBehavior, stack: seq<Action>) {
    IsPath(nodes, path) && pass.nodeId == Last(path) &&
    pass.numChildren == |nodes[pass.nodeId].children| && Mirrors(nodes, path, stack)
  }

  /**
   * An agent running an action: the behaviour sits at the last node of a
   * root path, its action is of that node's type, and the stack mirrors the
   * path's ancestors, the actions the agent will return to.
   */
  predicate Running(nodes: seq<Node>, path: seq<nat>, b: Behavior, stack: seq<Action>)
    reads b
  {
    IsPath(nodes, path) && b.nodeId == Last(path) &&
    b.numChildren == |nodes[b.nodeId].children| &&
    Kind(b.action) == Kind(nodes[b.nodeId].action) && Mirrors(nodes, path[..|path| - 1], stack)
  }

  /**
   * `initialize_agents` for one agent: nothing while the tree is not
   * loaded; otherwise a stack holding the root's action, a cleared flag and
   * a pass to the root.  That pass starts the agent in the `Passing` state.
   */
  method InitializeAgent(tree: BehaviorTree?) returns (agent: Option<(BehaviorStack, InstantiatedFlag, PassBehavior)>)
    requires tree != null ==> |tree.nodes| > 0
    ensures agent.None? <==> tree == null
    ensures agent.Some? ==>
      fresh(agent.value.0) && fresh(agent.value.1) &&
      agent.value.0.stack == [tree.nodes[Root].action] && !agent.value.1.instantiated &&
      agent.value.2 == PassBehavior(Root, |tree.nodes[Root].children|, None) &&
      Passing(tree.nodes, [Root], agent.value.2, agent.value.0.stack)
  {
    if tree == null {
      return None;
    }
    var node := tree.nodes[Root];
    var stack := new BehaviorStack([node.action]);
    var flag := new InstantiatedFlag(false);
    agent := Some((stack, flag, PassBehavior(Root, |node.children|, None)));
  }

  /** `reset_instantiated_flag` for one agent. */
  method ResetInstantiatedFlag(flag: InstantiatedFlag)
    modifies flag
    ensures !flag.instantiated
  {
    flag.instantiated := false;
  }

  /**
   * `remove_stale_agents::<A>` for one agent, A being `kind`: an agent that
   * carries a behaviour of type A but no longer a tree handle loses its
   * behaviour, its stack and its flag; every other agent keeps all three.
   * Afterwards no agent without a tree runs a behaviour of type A.
   */
  method RemoveStaleAgent(kind: ActionKind, hasTree: bool, b: Behavior?, bs: BehaviorStack?, flag: InstantiatedFlag?)
    returns (b': Behavior?, bs': BehaviorStack?, flag': InstantiatedFlag?)
    ensures b != null && Kind(b.action) == kind && !hasTree ==> b' == null && bs' == null && flag' == null
    ensures b == null || Kind(b.action) != kind || hasTree ==> b' == b && bs' == bs && flag' == flag
    ensures b' != null && Kind(b'.action) == kind ==> hasTree
  {
    if b != null && Kind(b.action) == kind && !hasTree {
      return null, null, null;
    }
    return b, bs, flag;
  }

  /**
   * `instantiate_behaviors::<A>` for one agent, A being `kind`: when no
   * action was instantiated this tick and the stack's top is of type A, the
   * top is popped into a fresh behaviour with command Continue that takes
   * the pass's node, child count and child result, and the flag is set;
   * otherwise nothing changes.  A passing agent becomes a running one.
   */
  method InstantiateBehavior(kind: ActionKind, pass: PassBehavior, bs: BehaviorStack, flag: InstantiatedFlag,
                             ghost nodes: seq<Node>, ghost path: seq<nat>)
    returns (b: Behavior?)
    modifies bs, flag
    ensures old(flag.instantiated) || old(bs.stack) == [] || Kind(Last(old(bs.stack))) != kind ==>
      b == null && bs.stack == old(bs.stack) && flag.instantiated == old(flag.instantiated)
    ensures !old(flag.instantiated) && old(bs.stack) != [] && Kind(Last(old(bs.stack))) == kind ==>
      b != null && fresh(b) && flag.instantiated &&
      bs.stack == old(bs.stack)[..|old(bs.stack)| - 1] &&
      b.action == Last(old(bs.stack)) && b.command == Continue &&
      b.nodeId == pass.nodeId && b.numChildren == pass.numChildren && b.childResult == pass.childResult
    ensures b != null && Passing(nodes, path, pass, old(bs.stack)) ==> Running(nodes, path, b, bs.stack)
  {
    if flag.instantiated || bs.stack == [] || Kind(Last(bs.stack)) != kind {
      return null;
    }
    flag.instantiated := true;
    var action := Last(bs.stack);
    bs.stack := bs.stack[..|bs.stack| - 1];
    b := new Behavior(action, pass);
  }

  /**
   * `transition_behaviors::<A>` for one agent.  A Continue command, or a
   * tree that is not loaded, leaves the agent as it is.  Exit on an empty
   * stack happens only at the root: it pushes the root's fresh action and
   * passes to the root again with no child result.  Exit on a non-empty
   * stack passes to the node's parent, which exists, with the result.
   * RunChild saves the running action, pushes the child's fresh action and
   * passes to the child.  A running agent becomes a passing one.
   */
  method TransitionBehavior(tree: BehaviorTree?, b: Behavior, bs: BehaviorStack, ghost path: seq<nat>)
    returns (pass: Option<PassBehavior>, ghost path': seq<nat>)
    requires tree != null && !b.command.Continue? ==> WellLinked(tree.nodes) && Running(tree.nodes, path, b, bs.stack)
    requires tree != null && b.command.RunChild? && b.nodeId < |tree.nodes| ==>
      b.command.index < |tree.nodes[b.nodeId].children|
    modifies bs
    ensures tree == null || b.command.Continue? ==> pass.None? && bs.stack == old(bs.stack)
    ensures tree != null && b.command.Exit? && old(bs.stack) == [] ==>
      b.nodeId == Root && bs.stack == [tree.nodes[Root].action] &&
      pass == Some(PassBehavior(b.nodeId, b.numChildren, None))
    ensures tree != null && b.command.Exit? && old(bs.stack) != [] ==>
      tree.nodes[b.nodeId].parent.Some? && bs.stack == old(bs.stack) &&
      var parentId := tree.nodes[b.nodeId].parent.value;
      pass == Some(PassBehavior(parentId, |tree.nodes[parentId].children|, Some(b.command.result)))
    ensures tree != null && b.command.RunChild? ==>
      var childId := tree.nodes[b.nodeId].children[b.command.index];
      bs.stack == old(bs.stack) + [b.action, tree.nodes[childId].action] &&
      pass == Some(PassBehavior(childId, |tree.nodes[childId].children|, None))
    ensures pass.Some? ==> Passing(tree.nodes, path', pass.value, bs.stack)
  {
    path' := path;
    if b.command.Continue? || tree == null {
      return None, path';
    }
    var nodes := tree.nodes;
    var node := nodes[b.nodeId];
    match b.command
    case Exit(result) =>
      if bs.stack == [] {
        bs.stack := bs.stack + [nodes[b.nodeId].action];
        pass := Some(PassBehavior(b.nodeId, b.numChildren, None));
      } else {
        ParentOnPath(nodes, path);
        var parentId := node.parent.value;
        path' := path[..|path| - 1];
        pass := Some(PassBehavior(parentId, |nodes[parentId].children|, Some(result)));
      }
    case RunChild(index) =>
      bs.stack := bs.stack + [b.action];
      var childId := node.children[index];
      var child := nodes[childId];
      bs.stack := bs.stack + [child.action];
      path' := path + [childId];
      pass := Some(PassBehavior(childId, |child.children|, None));
  }

  /** On a path of two or more nodes, the last one's parent is the one before it. */
  lemma ParentOnPath(nodes: seq<Node>, path: seq<nat>)
    requires IsPath(nodes, path) && |path| >= 2
    ensures nodes[Last(path)].parent == Some(path[|path| - 2])
    ensures IsPath(nodes, path[..|path| - 1]) && Last(path[..|path| - 1]) == path[|path| - 2]
  {
  }
}
