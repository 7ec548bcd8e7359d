/** The decision score of a Python syntax tree (scripts/run_quality_gate.py): a visitor that
    mutates its counters agrees with a fold over the tree. */
module Complexity {
  import opened Prelude
  import opened Sequences

  /** The node kinds the visitor reacts to, with the lengths of the child lists it counts.
      Every other kind, lambdas and `except*` included, is Other. */
  datatype Kind =
    | FunctionDef | AsyncFunctionDef
    | If | IfExp | For | AsyncFor | While
    | Try(handlers: nat, hasElse: bool, hasFinally: bool)
    | BoolOp(values: nat)
    | Match(cases: nat)
    | Comprehension(ifs: nat)
    | Other

  datatype Node = Node(kind: Kind, children: seq<Node>)

  /** What one node adds to the score. */
  function Weight(kind: Kind): (w: int)
    ensures w >= 0
    ensures w == 0 <==>
            kind.FunctionDef? || kind.AsyncFunctionDef? || kind.Other? || kind == Try(0, false, false)
  {
    match kind
    case If | IfExp | For | AsyncFor | While => 1
    case Try(handlers, hasElse, hasFinally) => handlers + (if hasElse then 1 else 0) + (if hasFinally then 1 else 0)
    case BoolOp(values) => Max(1, values - 1)
    case Match(cases) => Max(1, cases)
    case Comprehension(ifs) => 1 + ifs
    case FunctionDef | AsyncFunctionDef | Other => 0
  }

  predicate IsFunction(kind: Kind) {
    kind.FunctionDef? || kind.AsyncFunctionDef?
  }

  /** All nodes of a tree, parents before children. */
  function Nodes(node: Node): seq<Kind>
    decreases node, 0
  {
    [node.kind] + NodesOf(node.children)
  }

  function NodesOf(nodes: seq<Node>): seq<Kind>
    decreases nodes, 1
  {
    if nodes == [] then [] else NodesOf(nodes[..|nodes| - 1]) + Nodes(nodes[|nodes| - 1])
  }

  /** The sum of the weights of all nodes. */
  function TreeWeight(node: Node): int {
    Total(Weight, Nodes(node))
  }

  function ForestWeight(nodes: seq<Node>): int {
    Total(Weight, NodesOf(nodes))
  }

  function FunctionNodes(nodes: seq<Node>): nat {
    Count(IsFunction, NodesOf(nodes))
  }

  lemma NodesSnoc(nodes: seq<Node>, node: Node)
    ensures NodesOf(nodes + [node]) == NodesOf(nodes) + Nodes(node)
    ensures ForestWeight(nodes + [node]) == ForestWeight(nodes) + TreeWeight(node)
    ensures FunctionNodes(nodes + [node]) == FunctionNodes(nodes) + Count(IsFunction, Nodes(node))
  {
    assert (nodes + [node])[..|nodes|] == nodes;
    TotalAppend(Weight, NodesOf(nodes), Nodes(node));
    CountAppend(IsFunction, NodesOf(nodes), Nodes(node));
  }

  lemma NodeParts(node: Node)
    ensures TreeWeight(node) == Weight(node.kind) + ForestWeight(node.children)
    ensures Count(IsFunction, Nodes(node)) == (if IsFunction(node.kind) then 1 else 0) + FunctionNodes(node.children)
  {
    var head := [node.kind];
    assert head[..0] == [];
    TotalAppend(Weight, head, NodesOf(node.children));
    CountAppend(IsFunction, head, NodesOf(node.children));
  }

  // ----- the visitor -----

  class Visitor {
    var score: int
    var functionCount: nat

    constructor ()
      ensures score == 1 && functionCount == 0
    {
      score, functionCount := 1, 0;
    }

    method Bump(amount: int)
      modifies this
      ensures score == old(score) + Max(0, amount)
      ensures functionCount == old(functionCount)
    {
      score := score + Max(0, amount);
    }

    method Visit(node: Node)
      modifies this
      ensures score == old(score) + TreeWeight(node)
      ensures functionCount == old(functionCount) + Count(IsFunction, Nodes(node))
      decreases node, 1
    {
      match node.kind {
        case FunctionDef => functionCount := functionCount + 1;
        case AsyncFunctionDef => functionCount := functionCount + 1;
        case If => Bump(1);
        case IfExp => Bump(1);
        case For => Bump(1);
        case AsyncFor => Bump(1);
        case While => Bump(1);
        case Try(handlers, hasElse, hasFinally) =>
          Bump(handlers + (if hasElse then 1 else 0) + (if hasFinally then 1 else 0));
        case BoolOp(values) => Bump(Max(1, values - 1));
        case Match(cases) => Bump(Max(1, cases));
        case Comprehension(ifs) => Bump(1 + ifs);
        case Other =>
      }
      GenericVisit(node);
      NodeParts(node);
    }

    method GenericVisit(node: Node)
      modifies this
      ensures score == old(score) + ForestWeight(node.children)
      ensures functionCount == old(functionCount) + FunctionNodes(node.children)
      decreases node, 0
    {
      var children := node.children;
      for i := 0 to |children|
        invariant score == old(score) + ForestWeight(children[..i])
        invariant functionCount == old(functionCount) + FunctionNodes(children[..i])
      {
        Visit(children[i]);
        NodesSnoc(children[..i], children[i]);
        PrefixStep(children, i);
      }
      assert children[..|children|] == children;
    }
  }

  // ----- what the script reports -----

  datatype Complexity = Complexity(score: int, functionCount: nat)

  function ComplexityOf(body: seq<Node>): Complexity {
    Complexity(Max(1, 1 + ForestWeight(body)), FunctionNodes(body))
  }

  /** The score of a module with the given top-level statements. */
  method ComputeComplexity(body: seq<Node>) returns (c: Complexity)
    ensures c == ComplexityOf(body)
  {
    var visitor := new Visitor();
    visitor.Visit(Node(Other, body));
    NodeParts(Node(Other, body));
    c := Complexity(Max(1, visitor.score), visitor.functionCount);
  }

  lemma {:induction false} ForestWeightNonNegative(kinds: seq<Kind>)
    ensures Total(Weight, kinds) >= 0
  {
    if kinds != [] {
      ForestWeightNonNegative(kinds[..|kinds| - 1]);
    }
  }

  /** The clamp never acts: the score is one plus the sum of the weights of all nodes. */
  lemma ScoreIsSum(body: seq<Node>)
    ensures ComplexityOf(body).score == 1 + ForestWeight(body) >= 1
  {
    ForestWeightNonNegative(NodesOf(body));
  }

  lemma {:induction false} NodesAppend(a: seq<Node>, b: seq<Node>)
    ensures NodesOf(a + b) == NodesOf(a) + NodesOf(b)
  {
    if b == [] {
      assert a + b == a;
    } else {
      assert (a + b)[..|a + b| - 1] == a + b[..|b| - 1];
      NodesAppend(a, b[..|b| - 1]);
    }
  }

  /** Concatenating two modules adds their scores, less the base point counted twice. */
  lemma ScoreOfConcatenation(a: seq<Node>, b: seq<Node>)
    ensures ComplexityOf(a + b).score == ComplexityOf(a).score + ComplexityOf(b).score - 1
    ensures ComplexityOf(a + b).functionCount == ComplexityOf(a).functionCount + ComplexityOf(b).functionCount
  {
    NodesAppend(a, b);
    TotalAppend(Weight, NodesOf(a), NodesOf(b));
    CountAppend(IsFunction, NodesOf(a), NodesOf(b));
    ScoreIsSum(a);
    ScoreIsSum(b);
    ScoreIsSum(a + b);
  }

  lemma ForestAround(a: seq<Node>, x: Node, b: seq<Node>)
    ensures ForestWeight(a + [x] + b) == ForestWeight(a + b) + TreeWeight(x)
    ensures FunctionNodes(a + [x] + b) == FunctionNodes(a + b) + Count(IsFunction, Nodes(x))
  {
    NodesAppend(a + [x], b);
    NodesSnoc(a, x);
    NodesAppend(a, b);
    TotalAppend(Weight, NodesOf(a + [x]), NodesOf(b));
    TotalAppend(Weight, NodesOf(a), NodesOf(b));
    CountAppend(IsFunction, NodesOf(a + [x]), NodesOf(b));
    CountAppend(IsFunction, NodesOf(a), NodesOf(b));
  }

  /** The order of siblings is irrelevant. */
  lemma {:induction false} SiblingsCommute(s: seq<Node>, t: seq<Node>)
    requires multiset(s) == multiset(t)
    ensures ForestWeight(s) == ForestWeight(t) && FunctionNodes(s) == FunctionNodes(t)
    decreases |s|
  {
    assert |s| == |multiset(s)| == |t|;
    if s != [] {
      var last := s[|s| - 1];
      var init, a, b := TakeOut(s, t);
      SiblingsCommute(init, a + b);
      NodesSnoc(init, last);
      ForestAround(a, last, b);
    }
  }

  // ----- editing a subtree -----

  /** A path of child positions that leads to a node. */
  predicate HasPath(node: Node, path: seq<nat>) {
    path == [] || (path[0] < |node.children| && HasPath(node.children[path[0]], path[1..]))
  }

  function Subtree(node: Node, path: seq<nat>): Node
    requires HasPath(node, path)
  {
    if path == [] then node else Subtree(node.children[path[0]], path[1..])
  }

  function Replace(node: Node, path: seq<nat>, graft: Node): Node
    requires HasPath(node, path)
  {
    if path == [] then graft
    else node.(children := node.children[path[0] := Replace(node.children[path[0]], path[1..], graft)])
  }

  /** Replacing a subtree anywhere shifts the score, and the function count, by exactly the
      difference between the new subtree and the old one. */
  lemma {:induction false} ReplaceShifts(node: Node, path: seq<nat>, graft: Node)
    requires HasPath(node, path)
    ensures TreeWeight(Replace(node, path, graft)) - TreeWeight(node)
            == TreeWeight(graft) - TreeWeight(Subtree(node, path))
    ensures Count(IsFunction, Nodes(Replace(node, path, graft))) - Count(IsFunction, Nodes(node))
         == Count(IsFunction, Nodes(graft)) - Count(IsFunction, Nodes(Subtree(node, path)))
    decreases path
  {
    if path != [] {
      var i, cs := path[0], node.children;
      var edited := Replace(cs[i], path[1..], graft);
      ReplaceShifts(cs[i], path[1..], graft);
      assert cs == cs[..i] + [cs[i]] + cs[i + 1..];
      assert cs[i := edited] == cs[..i] + [edited] + cs[i + 1..];
      ForestAround(cs[..i], cs[i], cs[i + 1..]);
      ForestAround(cs[..i], edited, cs[i + 1..]);
      NodeParts(node);
      NodeParts(node.(children := cs[i := edited]));
    }
  }

  /** Reordering the children of any node of the tree leaves score and function count alone. */
  lemma ShuffleAnywhere(node: Node, path: seq<nat>, children: seq<Node>)
    requires HasPath(node, path) && multiset(children) == multiset(Subtree(node, path).children)
    ensures var shuffled := Replace(node, path, Subtree(node, path).(children := children));
            && TreeWeight(shuffled) == TreeWeight(node)
            && Count(IsFunction, Nodes(shuffled)) == Count(IsFunction, Nodes(node))
  {
    var old_, new_ := Subtree(node, path), Subtree(node, path).(children := children);
    SiblingsCommute(children, old_.children);
    NodeParts(old_);
    NodeParts(new_);
    ReplaceShifts(node, path, new_);
  }

  // ----- what each construct costs -----

  lemma ModuleOfOne(kind: Kind, children: seq<Node>)
    ensures ComplexityOf([Node(kind, children)]).score == ComplexityOf(children).score + Weight(kind)
    ensures ComplexityOf([Node(kind, children)]).functionCount
         == ComplexityOf(children).functionCount + (if IsFunction(kind) then 1 else 0)
  {
    var node := Node(kind, children);
    assert [] + [node] == [node] && NodesOf([]) == [];
    NodesSnoc([], node);
    NodeParts(node);
    ScoreIsSum([node]);
    ScoreIsSum(children);
  }

  /** An empty module scores one and holds no function; a construct around a body adds to the score
      of the body one point for a branch or a loop, one per handler, `else` and `finally` of a
      `try`, one per operator of a boolean chain, one per case of a `match` but at least one, one
      and one per filter of a comprehension, and nothing otherwise; only definitions of functions
      count as functions. With the law for concatenation this determines the score of every module. */
  lemma ConstructCost(kind: Kind, body: seq<Node>)
    ensures ComplexityOf([]) == Complexity(1, 0)
    ensures var cost := ComplexityOf([Node(kind, body)]).score - ComplexityOf(body).score;
            && (kind in {If, IfExp, For, AsyncFor, While} ==> cost == 1)
            && (forall handlers: nat :: kind == Try(handlers, false, false) ==> cost == handlers)
            && (forall handlers: nat :: kind == Try(handlers, true, false) ==> cost == handlers + 1)
            && (forall handlers: nat :: kind == Try(handlers, false, true) ==> cost == handlers + 1)
            && (forall handlers: nat :: kind == Try(handlers, true, true) ==> cost == handlers + 2)
            && (forall values: nat :: kind == BoolOp(values) ==> cost == if values >= 2 then values - 1 else 1)
            && (forall cases: nat :: kind == Match(cases) ==> cost == if cases >= 1 then cases else 1)
            && (forall ifs: nat :: kind == Comprehension(ifs) ==> cost == ifs + 1)
            && (kind in {FunctionDef, AsyncFunctionDef, Other} ==> cost == 0)
    ensures ComplexityOf([Node(kind, body)]).functionCount - ComplexityOf(body).functionCount
         == if kind in {FunctionDef, AsyncFunctionDef} then 1 else 0
  {
    ModuleOfOne(kind, body);
    ScoreIsSum([]);
    assert NodesOf([]) == [];
  }
}
