/** Each edge operation reports exactly what its ordered validation chain
    reports: success when every check holds, otherwise the reason of the
    first failing check. */
module Chains {
  import opened Entities
  import opened Precedence
  import opened GraphModel

  lemma {:induction false} StateEdgeFollowsChain(g: Graph, e: Obj<StateEdge>)
    ensures AddStateEdge(g, e).out == FirstFailing(StateEdgeChecks(g, e))
  {
    var c := StateEdgeChecks(g, e);
    var m := e.val.moduleId;
    var s := e.val.sensorId;
    if m in g.sensors { FirstFailingReports(c, 0); }
    else if s in g.modules { FirstFailingReports(c, 1); }
    else if m !in g.modules { FirstFailingReports(c, 2); }
    else if s !in g.sensors { FirstFailingReports(c, 3); }
    else if e.val.moduleRet !in g.modules[m].value.returnValues { FirstFailingReports(c, 4); }
    else if e.val.sensorKey !in g.sensors[s].value.stateKeys { FirstFailingReports(c, 5); }
    else if Includes(g.modules[m].stateEdges, e) { FirstFailingReports(c, 6); }
  }

  lemma {:induction false} NetworkEdgeFollowsChain(g: Graph, e: Obj<NetworkEdge>)
    ensures AddNetworkEdge(g, e).out == FirstFailing(NetworkEdgeChecks(g, e))
  {
    var c := NetworkEdgeChecks(g, e);
    var m := e.val.moduleId;
    if m in g.sensors { FirstFailingReports(c, 0); }
    else if m !in g.modules { FirstFailingReports(c, 1); }
    else if Includes(g.modules[m].networkEdges, e) { FirstFailingReports(c, 2); }
  }

  lemma {:induction false} DataEdgeFollowsChain(g: Graph, e: Obj<DataEdge>)
    ensures AddDataEdge(g, e).out == FirstFailing(DataEdgeChecks(g, e))
  {
    var c := DataEdgeChecks(g, e);
    var t := e.val.moduleId;
    var o := e.val.outId;
    if t in g.sensors { FirstFailingReports(c, 0); }
    else if t !in g.modules { FirstFailingReports(c, 1); }
    else if e.val.moduleParam !in g.modules[t].value.params { FirstFailingReports(c, 2); }
    else if ResolveSource(g, o) == NoSource { FirstFailingReports(c, 3); }
    else if e.val.outRet !in SourceReturns(g, o) { FirstFailingReports(c, 4); }
    else if Includes(SourceEdges(g, o), e) { FirstFailingReports(c, 5); }
  }
}
