/**
 * The slice of a compiled LangGraph `StateGraph` that both workflows use:
 * a conditional entry point chooses the first node, each node's update is
 * merged into the state, and the node's outgoing edge names the next node or
 * END. At most `RecursionLimit` node runs are allowed; a run that would need
 * more fails (None), as LangGraph raises `GraphRecursionError`.
 */
module GraphRuntime {
  import opened Wrappers

  /** Where control goes next. */
  datatype Step<N> = Go(node: N) | Stop

  /** LangGraph's default `recursion_limit`. */
  const RecursionLimit: nat := 25

  /** The final state and the nodes that ran, in order. */
  function Run<S, N>(s: S, at: Step<N>, apply: (N, S) -> S, edge: N -> Step<N>, fuel: nat): Option<(S, seq<N>)>
    decreases fuel
  {
    match at
    case Stop => Some((s, []))
    case Go(n) =>
      if fuel == 0 then None
      else match Run(apply(n, s), edge(n), apply, edge, fuel - 1)
        case None => None
        case Some(res) => Some((res.0, [n] + res.1))
  }

  /** A node whose only edge goes to END runs once, and its update is the
      whole effect of the run. */
  lemma RunSingleNode<S, N>(s: S, n: N, apply: (N, S) -> S, edge: N -> Step<N>, fuel: nat)
    requires fuel >= 1 && edge(n) == Stop
    ensures Run(s, Go(n), apply, edge, fuel) == Some((apply(n, s), [n]))
  {
    assert Run(apply(n, s), edge(n), apply, edge, fuel - 1) == Some((apply(n, s), []));
    assert [n] + [] == [n];
  }

  /** Each step spends one unit of the limit: the trace is never longer than
      the fuel. */
  lemma {:induction false} RunTraceBounded<S, N>(s: S, at: Step<N>, apply: (N, S) -> S, edge: N -> Step<N>, fuel: nat)
    ensures Run(s, at, apply, edge, fuel).Some? ==> |Run(s, at, apply, edge, fuel).value.1| <= fuel
    decreases fuel
  {
    match at
    case Stop =>
    case Go(n) =>
      if fuel > 0 {
        RunTraceBounded(apply(n, s), edge(n), apply, edge, fuel - 1);
      }
  }
}
