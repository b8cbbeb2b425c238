/**
 The graph (agent/graph.py): its tables, as `build_graph` fills them in, and a run over them as a state
 machine, one step per node execution.
 */
module Graph {
  import opened Wrappers
  import opened AgentState
  import opened Nodes

  datatype Node = Analyzer | Generator | Validator | Executor | Formatter

  datatype Target = To(node: Node) | End

  /** Where a node's edges lead from a status; None where the tables have no entry. */
  function Route(node: Node, status: Status): Option<Target> {
    match (node, status)
    case (Analyzer, Generating) => Some(To(Generator))
    case (Analyzer, AskingClarification) => Some(End)
    case (Analyzer, Error) => Some(End)
    case (Generator, _) => Some(To(Validator))
    case (Validator, Executing) => Some(To(Executor))
    case (Validator, Error) => Some(End)
    case (Executor, Formatting) => Some(To(Formatter))
    case (Executor, Generating) => Some(To(Generator))
    case (Executor, Error) => Some(End)
    case (Formatter, _) => Some(End)
    case _ => None
  }

  datatype Phase = At(node: Node) | Finished | Aborted | Stuck

  /** A point in a run: what comes next, the shared state, and the nodes executed so far. */
  datatype Point = Point(phase: Phase, st: State, trace: seq<Event>)

  function Start(st: State): Point {
    Point(At(Analyzer), st, [])
  }

  function Execute(cfg: Config, node: Node, st: State, trace: seq<Event>): Visit {
    match node
    case Analyzer => QuestionAnalyzer(cfg, st)
    case Generator => SqlGenerator(cfg, st, trace)
    case Validator => SqlValidator(st)
    case Executor => SqlExecutor(cfg, st, trace)
    case Formatter => AnswerFormatter(cfg, st, trace)
  }

  function PhaseOf(target: Option<Target>): Phase {
    match target
    case None => Stuck
    case Some(End) => Finished
    case Some(To(node)) => At(node)
  }

  /** Executes the node a run is at, merges its update and follows its edges; an exception ends the run. */
  function Step(cfg: Config, p: Point): Point
    requires p.phase.At?
  {
    match Execute(cfg, p.phase.node, p.st, p.trace)
    case Raised(event) => Point(Aborted, p.st, p.trace + [event])
    case Returned(event, update) =>
      var st := Apply(p.st, update);
      Point(PhaseOf(Route(p.phase.node, st.status)), st, p.trace + [event])
  }

  // ---- Termination: retries left, then the node's place in the pipeline ----

  function RetriesLeft(limits: Limits, st: State): nat {
    if limits.maxRetries > st.retryCount then limits.maxRetries - st.retryCount else 0
  }

  function Rank(phase: Phase): nat {
    match phase
    case At(Analyzer) => 5
    case At(Generator) => 4
    case At(Validator) => 3
    case At(Executor) => 2
    case At(Formatter) => 1
    case _ => 0
  }

  /** Only the executor counts a retry, and then it goes back for another query. */
  predicate MovesRetries(cfg: Config, node: Node, st: State, update: Update) {
    if update.retryCount == Keep then node != Executor || update.status != Generating
    else
      && node == Executor && update.status == Generating
      && update.retryCount == Put(st.retryCount + 1) && st.retryCount < cfg.limits.maxRetries
  }

  lemma ExecuteMovesRetries(cfg: Config, node: Node, st: State, trace: seq<Event>)
    ensures var visit := Execute(cfg, node, st, trace);
            visit.Returned? ==> MovesRetries(cfg, node, st, visit.update)
  {
    match node {
      case Analyzer =>
      case Generator =>
      case Validator =>
      case Executor =>
      case Formatter =>
    }
  }

  lemma StepDescends(cfg: Config, p: Point)
    requires p.phase.At?
    ensures var q := Step(cfg, p);
            var left, left' := RetriesLeft(cfg.limits, p.st), RetriesLeft(cfg.limits, q.st);
            left' < left || (left' == left && Rank(q.phase) < Rank(p.phase))
  {
    ExecuteMovesRetries(cfg, p.phase.node, p.st, p.trace);
  }

  function Run(cfg: Config, p: Point): Point
    decreases RetriesLeft(cfg.limits, p.st), Rank(p.phase)
  {
    if p.phase.At? then
      StepDescends(cfg, p);
      Run(cfg, Step(cfg, p))
    else
      p
  }

  // ---- The tables ----

  const EDGES: map<Node, Target> := map[Generator := To(Validator), Formatter := End]

  const BRANCHES: map<Node, map<Status, Target>> := map[
    Analyzer := map[Generating := To(Generator), AskingClarification := End, Error := End],
    Validator := map[Executing := To(Executor), Error := End],
    Executor := map[Formatting := To(Formatter), Generating := To(Generator), Error := End]]

  /** Follows an unconditional edge if there is one, else the table keyed on the status. */
  function Follow(edges: map<Node, Target>, branches: map<Node, map<Status, Target>>, node: Node, status: Status)
    : Option<Target>
  {
    if node in edges then Some(edges[node])
    else if node in branches && status in branches[node] then Some(branches[node][status])
    else None
  }

  lemma TablesAreRoute(node: Node, status: Status)
    ensures Follow(EDGES, BRANCHES, node, status) == Route(node, status)
  {
  }

  class Workflow {
    var nodes: set<Node>
    var entry: Option<Node>
    var edges: map<Node, Target>
    var branches: map<Node, map<Status, Target>>

    constructor ()
      ensures nodes == {} && entry == None && edges == map[] && branches == map[]
    {
      nodes := {};
      entry := None;
      edges := map[];
      branches := map[];
    }

    method AddNode(node: Node)
      modifies this`nodes
      ensures nodes == old(nodes) + {node}
    {
      nodes := nodes + {node};
    }

    method SetEntryPoint(node: Node)
      modifies this`entry
      ensures entry == Some(node)
    {
      entry := Some(node);
    }

    method AddEdge(source: Node, target: Target)
      modifies this`edges
      ensures edges == old(edges)[source := target]
    {
      edges := edges[source := target];
    }

    method AddConditionalEdges(source: Node, targets: map<Status, Target>)
      modifies this`branches
      ensures branches == old(branches)[source := targets]
    {
      branches := branches[source := targets];
    }

    function Next(node: Node, status: Status): Option<Target>
      reads this
    {
      Follow(edges, branches, node, status)
    }

    /** The tables are those of the question-answering graph. */
    ghost predicate Wired()
      reads this
    {
      && nodes == {Analyzer, Generator, Validator, Executor, Formatter}
      && entry == Some(Analyzer)
      && edges == EDGES
      && branches == BRANCHES
    }

    /** One node execution, routed through the tables. */
    method Advance(cfg: Config, p: Point) returns (q: Point)
      requires Wired() && p.phase.At?
      ensures q == Step(cfg, p)
    {
      var node := p.phase.node;
      var visit;
      match node {
        case Generator => visit := RunSqlGenerator(cfg, p.st, p.trace);
        case _ => visit := Execute(cfg, node, p.st, p.trace);
      }
      match visit {
        case Raised(event) =>
          q := Point(Aborted, p.st, p.trace + [event]);
        case Returned(event, update) =>
          var st := Apply(p.st, update);
          TablesAreRoute(node, st.status);
          q := Point(PhaseOf(Next(node, st.status)), st, p.trace + [event]);
      }
    }

    /** `ainvoke`: runs node after node until an edge leads to the end, a node raises, or no edge applies. */
    method Invoke(cfg: Config, initial: State) returns (p: Point)
      requires Wired()
      ensures p == Run(cfg, Start(initial))
      ensures !p.phase.At?
    {
      p := Point(if entry.Some? then At(entry.value) else Stuck, initial, []);
      while p.phase.At?
        invariant Run(cfg, p) == Run(cfg, Start(initial))
        decreases RetriesLeft(cfg.limits, p.st), Rank(p.phase)
      {
        StepDescends(cfg, p);
        p := Advance(cfg, p);
      }
    }
  }

  method BuildGraph() returns (workflow: Workflow)
    ensures fresh(workflow) && workflow.Wired()
  {
    workflow := new Workflow();
    workflow.AddNode(Analyzer);
    workflow.AddNode(Generator);
    workflow.AddNode(Validator);
    workflow.AddNode(Executor);
    workflow.AddNode(Formatter);
    workflow.SetEntryPoint(Analyzer);
    workflow.AddConditionalEdges(
      Analyzer, map[Generating := To(Generator), AskingClarification := End, Error := End]);
    workflow.AddEdge(Generator, To(Validator));
    workflow.AddConditionalEdges(Validator, map[Executing := To(Executor), Error := End]);
    workflow.AddConditionalEdges(
      Executor, map[Formatting := To(Formatter), Generating := To(Generator), Error := End]);
    workflow.AddEdge(Formatter, End);
  }
}
