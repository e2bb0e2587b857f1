/** A caller's session: any sequence of registrations and edge requests
    applied to a graph, one after the other. */
module Sessions {
  import opened Entities
  import opened GraphModel
  import opened GraphInvariants

  datatype Request =
    | RegisterSensor(sensor: Sensor)
    | RegisterModule(mod: Module)
    | RequestStateEdge(stateEdge: Obj<StateEdge>)
    | RequestNetworkEdge(networkEdge: Obj<NetworkEdge>)
    | RequestDataEdge(dataEdge: Obj<DataEdge>)

  /** The graph after one request, whatever it returned. */
  function Apply(g: Graph, req: Request): Graph
  {
    match req
    case RegisterSensor(s) => AddSensor(g, s).next
    case RegisterModule(m) => AddModule(g, m).next
    case RequestStateEdge(e) => AddStateEdge(g, e).next
    case RequestNetworkEdge(e) => AddNetworkEdge(g, e).next
    case RequestDataEdge(e) => AddDataEdge(g, e).next
  }

  /** The graph after a whole sequence of requests. */
  function Run(g: Graph, reqs: seq<Request>): Graph
    decreases |reqs|
  {
    if |reqs| == 0 then g else Run(Apply(g, reqs[0]), reqs[1..])
  }

  /** Every single operation keeps the invariant and only grows the graph. */
  lemma ApplyKeepsValid(g: Graph, req: Request)
    requires Valid(g)
    ensures Valid(Apply(g, req)) && Grows(g, Apply(g, req))
  {
    match req
    case RegisterSensor(s) => AddSensorKeepsValid(g, s);
    case RegisterModule(m) => AddModuleKeepsValid(g, m);
    case RequestStateEdge(e) => AddStateEdgeKeepsValid(g, e);
    case RequestNetworkEdge(e) => AddNetworkEdgeKeepsValid(g, e);
    case RequestDataEdge(e) => AddDataEdgeKeepsValid(g, e);
  }

  /** Any session started from a valid graph ends in a valid graph that
      extends the one it started from. */
  lemma {:induction false} RunKeepsValid(g: Graph, reqs: seq<Request>)
    requires Valid(g)
    ensures Valid(Run(g, reqs)) && Grows(g, Run(g, reqs))
    decreases |reqs|
  {
    if |reqs| > 0 {
      var g1 := Apply(g, reqs[0]);
      ApplyKeepsValid(g, reqs[0]);
      RunKeepsValid(g1, reqs[1..]);
      GrowsTransitive(g, g1, Run(g1, reqs[1..]));
    }
  }

  /** Every graph a caller can build from the empty one is valid. */
  lemma ReachableValid(reqs: seq<Request>)
    ensures Valid(Run(EmptyGraph, reqs))
  {
    EmptyGraphValid();
    RunKeepsValid(EmptyGraph, reqs);
  }

  /** Once an id is registered, no later request frees it: registering a
      sensor or a module under that id fails for the rest of the session. */
  lemma RegisteredIdStaysTaken(g: Graph, s: Sensor, reqs: seq<Request>, s': Sensor, m': Module)
    requires Valid(g)
    requires AddSensor(g, s).out
    requires s'.id == s.id && m'.id == s.id
    ensures !AddSensor(Run(AddSensor(g, s).next, reqs), s').out
    ensures !AddModule(Run(AddSensor(g, s).next, reqs), m').out
  {
    var g1 := AddSensor(g, s).next;
    AddSensorKeepsValid(g, s);
    RunKeepsValid(g1, reqs);
    ExistsPersists(g1, Run(g1, reqs), s.id);
  }

  /** The same for an id first registered as a module. */
  lemma RegisteredModuleIdStaysTaken(g: Graph, m: Module, reqs: seq<Request>, s': Sensor, m': Module)
    requires Valid(g)
    requires AddModule(g, m).out
    requires s'.id == m.id && m'.id == m.id
    ensures !AddSensor(Run(AddModule(g, m).next, reqs), s').out
    ensures !AddModule(Run(AddModule(g, m).next, reqs), m').out
  {
    var g1 := AddModule(g, m).next;
    AddModuleKeepsValid(g, m);
    RunKeepsValid(g1, reqs);
    ExistsPersists(g1, Run(g1, reqs), m.id);
  }
}
