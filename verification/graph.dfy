/** The `Graph` class: an entity registry (two keyed tables sharing one
    namespace with the reserved network id) and the three edge operations.

    Every operation is a pure function from the graph before the call to a
    `Step` holding the returned value and the graph after it. */
module GraphModel {
  import opened Entities
  import opened Precedence

  /** A sensor and its outgoing data edges. */
  datatype SensorEntry = SensorEntry(value: Sensor, edges: seq<Obj<DataEdge>>)

  /** A module and the edges stored on it: outgoing data edges, and its
      state and network edges. */
  datatype ModuleEntry = ModuleEntry(
    value: Module,
    dataEdges: seq<Obj<DataEdge>>,
    stateEdges: seq<Obj<StateEdge>>,
    networkEdges: seq<Obj<NetworkEdge>>)

  datatype Graph = Graph(sensors: map<Id, SensorEntry>, modules: map<Id, ModuleEntry>)

  /** What an operation returns, and the graph it leaves behind. */
  datatype Step<R> = Step(out: R, next: Graph)

  /** The freshly constructed graph. */
  const EmptyGraph: Graph := Graph(map[], map[])

  /** `_exists`: the id names a sensor, a module, or the network node. The
      reserved id always exists; any other id exists exactly when a data-edge
      source lookup would find it. */
  predicate Exists(g: Graph, id: Id)
    ensures id == NetworkNodeId ==> Exists(g, id)
    ensures Exists(g, id) <==> id == NetworkNodeId || ResolveSource(g, id) != NoSource
  {
    id in g.sensors || id in g.modules || id == NetworkNodeId
  }

  // ---------------------------------------------------------------- registry

  /** `add_sensor`: registers `s` with no edges unless its id is taken. */
  function AddSensor(g: Graph, s: Sensor): (r: Step<bool>)
    ensures r.out <==> !Exists(g, s.id)
    ensures !r.out ==> r.next == g
    ensures r.out ==>
      && r.next.modules == g.modules
      && r.next.sensors.Keys == g.sensors.Keys + {s.id}
      && r.next.sensors[s.id] == SensorEntry(s, [])
      && forall id | id in g.sensors :: r.next.sensors[id] == g.sensors[id]
  {
    if Exists(g, s.id) then Step(false, g)
    else Step(true, g.(sensors := g.sensors[s.id := SensorEntry(s, [])]))
  }

  /** `add_module`: registers `m` with no edges unless its id is taken. */
  function AddModule(g: Graph, m: Module): (r: Step<bool>)
    ensures r.out <==> !Exists(g, m.id)
    ensures !r.out ==> r.next == g
    ensures r.out ==>
      && r.next.sensors == g.sensors
      && r.next.modules.Keys == g.modules.Keys + {m.id}
      && r.next.modules[m.id] == ModuleEntry(m, [], [], [])
      && forall id | id in g.modules :: r.next.modules[id] == g.modules[id]
  {
    if Exists(g, m.id) then Step(false, g)
    else Step(true, g.(modules := g.modules[m.id := ModuleEntry(m, [], [], [])]))
  }

  // ------------------------------------------------------------- state edges

  /** The validation chain of `add_state_edge`, in order. Each condition is
      guarded so that it only looks up an entity an earlier check found. */
  function StateEdgeChecks(g: Graph, e: Obj<StateEdge>): seq<Check>
  {
    var m := e.val.moduleId;
    var s := e.val.sensorId;
    [ Check(m !in g.sensors, StateOutputIsSensor),
      Check(s !in g.modules, StateInputIsModule),
      Check(m in g.modules, OutputModuleMissing),
      Check(s in g.sensors, InputSensorMissing),
      Check(m in g.modules ==> e.val.moduleRet in g.modules[m].value.returnValues, OutputReturnMissing),
      Check(s in g.sensors ==> e.val.sensorKey in g.sensors[s].value.stateKeys, InputStateKeyMissing),
      Check(m in g.modules ==> !Includes(g.modules[m].stateEdges, e), StateEdgeExists) ]
  }

  /** `add_state_edge`: on success the edge is appended to its module's
      state edges and nothing else changes; on failure nothing changes. */
  function AddStateEdge(g: Graph, e: Obj<StateEdge>): (r: Step<Outcome>)
    ensures r.out.Err? ==> r.next == g
    ensures r.out.Ok? ==>
      var m := e.val.moduleId;
      && m in g.modules
      && r.next.sensors == g.sensors
      && r.next.modules.Keys == g.modules.Keys
      && r.next.modules[m] == g.modules[m].(stateEdges := g.modules[m].stateEdges + [e])
      && forall id | id in g.modules && id != m :: r.next.modules[id] == g.modules[id]
  {
    var m := e.val.moduleId;
    var s := e.val.sensorId;
    if m in g.sensors then Step(Err(StateOutputIsSensor), g)
    else if s in g.modules then Step(Err(StateInputIsModule), g)
    else if m !in g.modules then Step(Err(OutputModuleMissing), g)
    else if s !in g.sensors then Step(Err(InputSensorMissing), g)
    else if e.val.moduleRet !in g.modules[m].value.returnValues then Step(Err(OutputReturnMissing), g)
    else if e.val.sensorKey !in g.sensors[s].value.stateKeys then Step(Err(InputStateKeyMissing), g)
    else if Includes(g.modules[m].stateEdges, e) then Step(Err(StateEdgeExists), g)
    else
      var entry := g.modules[m];
      Step(Ok, g.(modules := g.modules[m := entry.(stateEdges := entry.stateEdges + [e])]))
  }

  // ----------------------------------------------------------- network edges

  /** The validation chain of `add_network_edge`, in order. */
  function NetworkEdgeChecks(g: Graph, e: Obj<NetworkEdge>): seq<Check>
  {
    var m := e.val.moduleId;
    [ Check(m !in g.sensors, NetworkOutputIsSensor),
      Check(m in g.modules, OutputModuleMissing),
      Check(m in g.modules ==> !Includes(g.modules[m].networkEdges, e), NetworkEdgeExists) ]
  }

  /** `add_network_edge`: on success the edge is appended to its module's
      network edges and nothing else changes; on failure nothing changes. */
  function AddNetworkEdge(g: Graph, e: Obj<NetworkEdge>): (r: Step<Outcome>)
    ensures r.out.Err? ==> r.next == g
    ensures r.out.Ok? ==>
      var m := e.val.moduleId;
      && m in g.modules
      && r.next.sensors == g.sensors
      && r.next.modules.Keys == g.modules.Keys
      && r.next.modules[m] == g.modules[m].(networkEdges := g.modules[m].networkEdges + [e])
      && forall id | id in g.modules && id != m :: r.next.modules[id] == g.modules[id]
  {
    var m := e.val.moduleId;
    if m in g.sensors then Step(Err(NetworkOutputIsSensor), g)
    else if m !in g.modules then Step(Err(OutputModuleMissing), g)
    else if Includes(g.modules[m].networkEdges, e) then Step(Err(NetworkEdgeExists), g)
    else
      var entry := g.modules[m];
      Step(Ok, g.(modules := g.modules[m := entry.(networkEdges := entry.networkEdges + [e])]))
  }

  // -------------------------------------------------------------- data edges

  /** Where the source of a data edge is found: the module table is
      consulted before the sensor table. */
  datatype Source = FromModule | FromSensor | NoSource

  function ResolveSource(g: Graph, id: Id): (src: Source)
    ensures src == NoSource <==> id !in g.modules && id !in g.sensors
    ensures src == FromModule <==> id in g.modules
    ensures src == FromSensor <==> id in g.sensors && id !in g.modules
  {
    if id in g.modules then FromModule
    else if id in g.sensors then FromSensor
    else NoSource
  }

  /** The return names of the entity a data edge leaves from. */
  function SourceReturns(g: Graph, id: Id): seq<string>
    requires ResolveSource(g, id) != NoSource
  {
    if id in g.modules then g.modules[id].value.returnValues
    else g.sensors[id].value.returnValues
  }

  /** The outgoing data edges stored on the entity a data edge leaves from. */
  function SourceEdges(g: Graph, id: Id): seq<Obj<DataEdge>>
    requires ResolveSource(g, id) != NoSource
  {
    if id in g.modules then g.modules[id].dataEdges
    else g.sensors[id].edges
  }

  /** The validation chain of `add_data_edge`, in order. */
  function DataEdgeChecks(g: Graph, e: Obj<DataEdge>): seq<Check>
  {
    var t := e.val.moduleId;
    var o := e.val.outId;
    var found := ResolveSource(g, o) != NoSource;
    [ Check(t !in g.sensors, DataInputIsSensor),
      Check(t in g.modules, InputModuleMissing),
      Check(t in g.modules ==> e.val.moduleParam in g.modules[t].value.params, InputParamMissing),
      Check(found, OutputEntityMissing),
      Check(found ==> e.val.outRet in SourceReturns(g, o), OutputReturnMissing),
      Check(found ==> !Includes(SourceEdges(g, o), e), DataEdgeExists) ]
  }

  /** `add_data_edge`: on success the edge is appended to the outgoing list
      of its source only (a module's `data_edges`, else a sensor's `edges`);
      the target module is not touched. On failure nothing changes. */
  function AddDataEdge(g: Graph, e: Obj<DataEdge>): (r: Step<Outcome>)
    ensures r.out.Err? ==> r.next == g
    ensures r.out.Ok? && e.val.outId in g.modules ==>
      var o := e.val.outId;
      && r.next.sensors == g.sensors
      && r.next.modules.Keys == g.modules.Keys
      && r.next.modules[o] == g.modules[o].(dataEdges := g.modules[o].dataEdges + [e])
      && forall id | id in g.modules && id != o :: r.next.modules[id] == g.modules[id]
    ensures r.out.Ok? && e.val.outId !in g.modules ==>
      var o := e.val.outId;
      && o in g.sensors
      && r.next.modules == g.modules
      && r.next.sensors.Keys == g.sensors.Keys
      && r.next.sensors[o] == g.sensors[o].(edges := g.sensors[o].edges + [e])
      && forall id | id in g.sensors && id != o :: r.next.sensors[id] == g.sensors[id]
  {
    var t := e.val.moduleId;
    var o := e.val.outId;
    if t in g.sensors then Step(Err(DataInputIsSensor), g)
    else if t !in g.modules then Step(Err(InputModuleMissing), g)
    else if e.val.moduleParam !in g.modules[t].value.params then Step(Err(InputParamMissing), g)
    else if o in g.modules then
      var src := g.modules[o];
      if e.val.outRet !in src.value.returnValues then Step(Err(OutputReturnMissing), g)
      else if Includes(src.dataEdges, e) then Step(Err(DataEdgeExists), g)
      else Step(Ok, g.(modules := g.modules[o := src.(dataEdges := src.dataEdges + [e])]))
    else if o in g.sensors then
      var src := g.sensors[o];
      if e.val.outRet !in src.value.returnValues then Step(Err(OutputReturnMissing), g)
      else if Includes(src.edges, e) then Step(Err(DataEdgeExists), g)
      else Step(Ok, g.(sensors := g.sensors[o := src.(edges := src.edges + [e])]))
    else Step(Err(OutputEntityMissing), g)
  }
}
