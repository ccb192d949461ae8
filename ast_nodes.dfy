/**
  The syntax tree of SIML documents: one constructor per node class, each
  carrying the source line and indent every node has, and `Children`, the
  ordered list of direct sub-nodes a tree walk visits.
 */
module AstNodes {
  import opened Wrappers

  /** A numeric literal keeps whether it was written as an integer or a float. */
  datatype Numeral = IntNumeral(i: int) | FloatNumeral(f: real)

  /** One `key: value` entry of a dictionary literal. */
  datatype DictEntry = DictEntry(key: string, value: Node)

  /** One argument of a call, optionally named. */
  datatype CallArg = CallArg(name: Option<string>, value: Node)

  datatype Node =
    | BaseNode(line: int, indent: int)
    | StringNode(line: int, indent: int, text: string)
    | NumberNode(line: int, indent: int, number: Numeral)
    | BooleanNode(line: int, indent: int, truth: bool)
    | DictLiteralNode(line: int, indent: int, entries: seq<DictEntry>)
    | ListLiteralNode(line: int, indent: int, elements: seq<Node>)
    | IfNode(line: int, indent: int, condition: Node, thenBody: seq<Node>, elseBody: seq<Node>)
    | ForNode(line: int, indent: int, variable: string, iterable: Node, body: seq<Node>)
    | NotNode(line: int, indent: int, operand: Node)
    | SimulationNode(line: int, indent: int, config: Option<Node>, agents: seq<Node>, modules: seq<Node>)
    | ModuleNode(line: int, indent: int, name: string, state: seq<Node>, actions: seq<Node>,
                 rules: seq<Node>, templates: seq<Node>)
    | StateVarNode(line: int, indent: int, name: string, value: Node)
    | ActionNode(line: int, indent: int, name: string, params: seq<string>, body: seq<Node>)
    | RuleNode(line: int, indent: int, trigger: string, body: seq<Node>)
    | GenerateNode(line: int, indent: int, template: string, multiplier: Option<Node>)
    | AssignmentNode(line: int, indent: int, target: string, value: Node)
    | CallNode(line: int, indent: int, callee: string, args: seq<CallArg>)
    | BinaryExprNode(line: int, indent: int, left: Node, operator: string, right: Node)
    | NullNode(line: int, indent: int)
    | IdentifierNode(line: int, indent: int, name: string)
    | AgentNode(line: int, indent: int, name: string, iteratorVar: Option<string>, iterableName: Option<string>,
                llmConfig: Option<Node>, context: Option<Node>, canCall: seq<string>)
    | TemplateNode(line: int, indent: int, name: string, scema: Node)

  /** The literal and name nodes, which keep the default of having no children. */
  predicate IsLeaf(n: Node) {
    n.BaseNode? || n.StringNode? || n.NumberNode? || n.BooleanNode? || n.NullNode? || n.IdentifierNode?
  }

  /** The value of each dictionary entry, in order; keys are dropped. */
  function EntryValues(entries: seq<DictEntry>): (r: seq<Node>)
    ensures |r| == |entries|
    ensures forall k :: 0 <= k < |r| ==> r[k] == entries[k].value
  {
    seq(|entries|, k requires 0 <= k < |entries| => entries[k].value)
  }

  /** The value of each call argument, in order; argument names are dropped. */
  function ArgValues(args: seq<CallArg>): (r: seq<Node>)
    ensures |r| == |args|
    ensures forall k :: 0 <= k < |r| ==> r[k] == args[k].value
  {
    seq(|args|, k requires 0 <= k < |args| => args[k].value)
  }

  /** An optional sub-node as a list of zero or one node. */
  function Present(o: Option<Node>): (r: seq<Node>)
    ensures |r| <= 1
    ensures r == [] <==> o.None?
    ensures o.Some? ==> r[0] == o.value
  {
    if o.Some? then [o.value] else []
  }

  /**
    The direct sub-nodes of a node, in the order the node class lists
    them. Each child is a strict part of its parent, so a walk that
    descends through `Children` always ends.
   */
  function Children(n: Node): (r: seq<Node>)
    ensures forall c :: c in r ==> c < n
  {
    match n
    case BaseNode(_, _) => []
    case StringNode(_, _, _) => []
    case NumberNode(_, _, _) => []
    case BooleanNode(_, _, _) => []
    case DictLiteralNode(_, _, entries) =>
      assert forall k :: 0 <= k < |entries| ==> entries[k].value < entries[k];
      EntryValues(entries)
    case ListLiteralNode(_, _, elements) => elements
    case IfNode(_, _, condition, thenBody, elseBody) => [condition] + thenBody + elseBody
    case ForNode(_, _, _, iterable, body) => [iterable] + body
    case NotNode(_, _, operand) => [operand]
    case SimulationNode(_, _, config, agents, modules) => Present(config) + agents + modules
    case ModuleNode(_, _, _, state, actions, rules, templates) => state + actions + rules + templates
    case StateVarNode(_, _, _, value) => [value]
    case ActionNode(_, _, _, _, body) => body
    case RuleNode(_, _, _, body) => body
    case GenerateNode(_, _, _, multiplier) => Present(multiplier)
    case AssignmentNode(_, _, _, value) => [value]
    case CallNode(_, _, _, args) =>
      assert forall k :: 0 <= k < |args| ==> args[k].value < args[k];
      ArgValues(args)
    case BinaryExprNode(_, _, left, _, right) => [left, right]
    case NullNode(_, _) => []
    case IdentifierNode(_, _, _) => []
    case AgentNode(_, _, _, _, _, llmConfig, context, _) => Present(llmConfig) + Present(context)
    case TemplateNode(_, _, _, scema) => [scema]
  }

  /** Literal and name nodes have no children. */
  lemma LeavesHaveNoChildren(n: Node)
    requires IsLeaf(n)
    ensures Children(n) == []
  {
  }

  /** A conditional lists its condition, then the then-branch, then the else-branch. */
  lemma IfChildrenOrder(n: Node)
    requires n.IfNode?
    ensures var r := Children(n);
      && |r| == 1 + |n.thenBody| + |n.elseBody|
      && r[0] == n.condition
      && r[1..1 + |n.thenBody|] == n.thenBody
      && r[1 + |n.thenBody|..] == n.elseBody
  {
  }

  /** A loop lists its iterable, then its body; the loop variable is a name, not a child. */
  lemma ForChildrenOrder(n: Node)
    requires n.ForNode?
    ensures var r := Children(n);
      && |r| == 1 + |n.body|
      && r[0] == n.iterable
      && r[1..] == n.body
  {
  }

  /**
    A simulation lists its configuration first, and only when there is one,
    then its agents, then its modules.
   */
  lemma SimulationChildrenOrder(n: Node)
    requires n.SimulationNode?
    ensures var r := Children(n);
      var c := if n.config.Some? then 1 else 0;
      && |r| == c + |n.agents| + |n.modules|
      && (n.config.Some? ==> r[0] == n.config.value)
      && r[c..c + |n.agents|] == n.agents
      && r[c + |n.agents|..] == n.modules
  {
  }

  /**
    An agent has at most two children: its LLM configuration, then its
    context, each only when present.
   */
  lemma AgentChildrenOrder(n: Node)
    requires n.AgentNode?
    ensures var r := Children(n);
      && |r| == (if n.llmConfig.Some? then 1 else 0) + (if n.context.Some? then 1 else 0)
      && |r| <= 2
      && (n.llmConfig.Some? ==> r[0] == n.llmConfig.value)
      && (n.context.Some? ==> r[|r| - 1] == n.context.value)
  {
  }

  /** A generate step has no children exactly when it has no multiplier, and otherwise only the multiplier. */
  lemma GenerateChildren(n: Node)
    requires n.GenerateNode?
    ensures Children(n) == [] <==> n.multiplier.None?
    ensures n.multiplier.Some? ==> Children(n) == [n.multiplier.value]
  {
  }

  /** A dictionary literal's children are its entry values, one per entry, in order. */
  lemma DictChildrenAreValues(n: Node)
    requires n.DictLiteralNode?
    ensures |Children(n)| == |n.entries|
    ensures forall k :: 0 <= k < |n.entries| ==> Children(n)[k] == n.entries[k].value
  {
  }

  /** A call's children are its argument values, one per argument, in order. */
  lemma CallChildrenAreValues(n: Node)
    requires n.CallNode?
    ensures |Children(n)| == |n.args|
    ensures forall k :: 0 <= k < |n.args| ==> Children(n)[k] == n.args[k].value
  {
  }

  /** A module lists its state variables, actions, rules and templates, in that order. */
  lemma ModuleChildrenOrder(n: Node)
    requires n.ModuleNode?
    ensures var r := Children(n);
      var a := |n.state|;
      var b := a + |n.actions|;
      var c := b + |n.rules|;
      && |r| == c + |n.templates|
      && r[..a] == n.state
      && r[a..b] == n.actions
      && r[b..c] == n.rules
      && r[c..] == n.templates
  {
  }

  /** A list literal's children are its elements, as they are. */
  lemma ListChildren(n: Node)
    requires n.ListLiteralNode?
    ensures Children(n) == n.elements
  {
  }

  /** A negation has exactly one child, its operand. */
  lemma NotChildren(n: Node)
    requires n.NotNode?
    ensures |Children(n)| == 1 && Children(n)[0] == n.operand
  {
  }

  /** A state variable has exactly one child, its initial value; the name is not a child. */
  lemma StateVarChildren(n: Node)
    requires n.StateVarNode?
    ensures |Children(n)| == 1 && Children(n)[0] == n.value
  {
  }

  /** An action's children are its body; its name and parameters are not children. */
  lemma ActionChildren(n: Node)
    requires n.ActionNode?
    ensures Children(n) == n.body
  {
  }

  /** A rule's children are its body; its trigger is not a child. */
  lemma RuleChildren(n: Node)
    requires n.RuleNode?
    ensures Children(n) == n.body
  {
  }

  /** An assignment has exactly one child, the assigned value; the target is not a child. */
  lemma AssignmentChildren(n: Node)
    requires n.AssignmentNode?
    ensures |Children(n)| == 1 && Children(n)[0] == n.value
  {
  }

  /** A binary expression has two children, left operand first; the operator is not a child. */
  lemma BinaryExprChildren(n: Node)
    requires n.BinaryExprNode?
    ensures |Children(n)| == 2 && Children(n)[0] == n.left && Children(n)[1] == n.right
  {
  }

  /** A template has exactly one child, its schema. */
  lemma TemplateChildren(n: Node)
    requires n.TemplateNode?
    ensures |Children(n)| == 1 && Children(n)[0] == n.scema
  {
  }
}
