/** Properties of the registry and the edge operations that relate several
    calls, or that state an operation's outcome without its check chain. */
module GraphProperties {
  import opened Entities
  import opened Precedence
  import opened GraphModel
  import opened GraphInvariants
  import opened Chains

  // ---------------------------------------------------------------- registry

  /** Re-registering an id is a no-op: the second call returns false and
      leaves the graph exactly as the first call left it. */
  lemma ReRegisterIsNoop(g: Graph, s: Sensor, s': Sensor, m': Module)
    requires s'.id == s.id && m'.id == s.id
    ensures var g1 := AddSensor(g, s).next;
      && AddSensor(g1, s') == Step(false, g1)
      && AddModule(g1, m') == Step(false, g1)
  {
  }

  /** The same for an id first registered as a module. */
  lemma ReRegisterModuleIsNoop(g: Graph, m: Module, s': Sensor, m': Module)
    requires s'.id == m.id && m'.id == m.id
    ensures var g1 := AddModule(g, m).next;
      && AddSensor(g1, s') == Step(false, g1)
      && AddModule(g1, m') == Step(false, g1)
  {
  }

  /** Under the namespace invariant a data-edge source is found in exactly
      one table, so consulting modules before sensors decides nothing. */
  lemma SourceResolutionUnambiguous(g: Graph, id: Id)
    requires Namespace(g)
    ensures ResolveSource(g, id) == FromSensor <==> id in g.sensors
    ensures ResolveSource(g, id) == FromModule <==> id in g.modules
    ensures id == NetworkNodeId ==> ResolveSource(g, id) == NoSource
  {
  }

  // ------------------------------------------------------------- state edges

  /** A state edge is rejected with a reason exactly when that reason's
      check is the first failing one of the chain. */
  lemma StateEdgePrecedence(g: Graph, e: Obj<StateEdge>, reason: Reason)
    ensures AddStateEdge(g, e).out == Err(reason) <==>
      exists i :: FailsFirst(StateEdgeChecks(g, e), i) && StateEdgeChecks(g, e)[i].reason == reason
  {
    var c := StateEdgeChecks(g, e);
    StateEdgeFollowsChain(g, e);
    if exists i :: FailsFirst(c, i) && c[i].reason == reason {
      var i :| FailsFirst(c, i) && c[i].reason == reason;
      FirstFailingReports(c, i);
    }
  }

  /** The first check wins: an output id that names a sensor is reported
      as such even when the input id also names a module. */
  lemma StateOutputSensorReportedFirst(g: Graph, e: Obj<StateEdge>)
    requires e.val.moduleId in g.sensors && e.val.sensorId in g.modules
    ensures AddStateEdge(g, e) == Step(Err(StateOutputIsSensor), g)
  {
  }

  /** A state edge is accepted exactly when every check of the chain holds. */
  lemma StateEdgeAcceptedIff(g: Graph, e: Obj<StateEdge>)
    ensures AddStateEdge(g, e).out.Ok? <==>
      var m := e.val.moduleId;
      var s := e.val.sensorId;
      && m !in g.sensors && s !in g.modules
      && m in g.modules && s in g.sensors
      && e.val.moduleRet in g.modules[m].value.returnValues
      && e.val.sensorKey in g.sensors[s].value.stateKeys
      && !Includes(g.modules[m].stateEdges, e)
  {
    var c := StateEdgeChecks(g, e);
    StateEdgeFollowsChain(g, e);
  }

  // ----------------------------------------------------------- network edges

  /** A network edge is accepted exactly when its module id is not a sensor,
      names a module, and the edge object is not yet on that module. */
  lemma NetworkEdgeAcceptedIff(g: Graph, e: Obj<NetworkEdge>)
    ensures AddNetworkEdge(g, e).out.Ok? <==>
      && e.val.moduleId !in g.sensors
      && e.val.moduleId in g.modules
      && !Includes(g.modules[e.val.moduleId].networkEdges, e)
  {
  }

  // -------------------------------------------------------------- data edges

  /** A data edge is accepted exactly when its target is an existing
      non-sensor module with that parameter, its source resolves (module
      first, then sensor) and returns `outRet`, and the edge object is not
      yet on the source's outgoing list. */
  lemma DataEdgeAcceptedIff(g: Graph, e: Obj<DataEdge>)
    ensures AddDataEdge(g, e).out.Ok? <==>
      var t := e.val.moduleId;
      var o := e.val.outId;
      && t !in g.sensors
      && t in g.modules
      && e.val.moduleParam in g.modules[t].value.params
      && ResolveSource(g, o) != NoSource
      && e.val.outRet in SourceReturns(g, o)
      && !Includes(SourceEdges(g, o), e)
  {
  }

  /** The reserved network id is never a data-edge source: once the target
      checks pass, naming it as the source is "output entity does not exist". */
  lemma NetworkNodeIsNoDataSource(g: Graph, e: Obj<DataEdge>)
    requires Namespace(g)
    requires e.val.outId == NetworkNodeId
    requires e.val.moduleId in g.modules
    requires e.val.moduleParam in g.modules[e.val.moduleId].value.params
    ensures AddDataEdge(g, e) == Step(Err(OutputEntityMissing), g)
  {
  }

  /** An accepted data edge is stored on its source only: the target module's
      entry is unchanged (unless the edge is a self-loop), and for a sensor
      source no module entry changes at all. */
  lemma DataEdgeTargetUntouched(g: Graph, e: Obj<DataEdge>)
    requires Valid(g)
    requires AddDataEdge(g, e).out.Ok?
    ensures e.val.moduleId in g.modules
    ensures e.val.outId != e.val.moduleId ==>
      AddDataEdge(g, e).next.modules[e.val.moduleId] == g.modules[e.val.moduleId]
    ensures e.val.outId in g.sensors ==> AddDataEdge(g, e).next.modules == g.modules
  {
  }

  /** Submitting the same data edge object twice: the first call stores it
      once on its source, the second is rejected as a duplicate and changes
      nothing. */
  lemma DataEdgeTwice(g: Graph, e: Obj<DataEdge>)
    requires AddDataEdge(g, e).out.Ok?
    ensures var g1 := AddDataEdge(g, e).next;
      && ResolveSource(g1, e.val.outId) != NoSource
      && Occurrences(SourceEdges(g1, e.val.outId), e) == 1
      && AddDataEdge(g1, e) == Step(Err(DataEdgeExists), g1)
  {
    var g1 := AddDataEdge(g, e).next;
    var o := e.val.outId;
    var before := SourceEdges(g, o);
    assert SourceEdges(g1, o) == before + [e];
    OccurrencesAppend(before, e, e);
    assert Includes(SourceEdges(g1, o), e) by {
      assert SourceEdges(g1, o)[|before|].ref == e.ref;
    }
  }

  /** Duplicates are detected by object identity, not by contents: a second
      object with the same fields as a stored edge is accepted too, and the
      source then holds two field-equal edges. */
  lemma FieldEqualCopyAccepted(g: Graph, e: Obj<DataEdge>, copy: Obj<DataEdge>)
    requires Valid(g)
    requires AddDataEdge(g, e).out.Ok?
    requires copy.val == e.val && copy.ref != e.ref
    requires !Includes(SourceEdges(g, e.val.outId), copy)
    ensures var g1 := AddDataEdge(g, e).next;
      && AddDataEdge(g1, copy).out.Ok?
      && SourceEdges(AddDataEdge(g1, copy).next, e.val.outId) == SourceEdges(g, e.val.outId) + [e, copy]
  {
    var g1 := AddDataEdge(g, e).next;
    var o := e.val.outId;
    var before := SourceEdges(g, o);
    assert SourceEdges(g1, o) == before + [e];
    assert before + [e] + [copy] == before + [e, copy];
  }

  // ---------------------------------------------------------------- scenario

  /** Register sensor "s1" (returns "temp") and module "m1" (param "x"),
      connect s1.temp -> m1.x, then submit the same edge object again. */
  lemma SensorToModuleScenario()
    ensures
      var s1 := Sensor("s1", [], ["temp"]);
      var m1 := Module("m1", ["x"], ["y"], false);
      var d := Obj(1, DataEdge(true, "s1", "temp", "m1", "x"));
      var a := AddSensor(EmptyGraph, s1);
      var b := AddModule(a.next, m1);
      var c := AddDataEdge(b.next, d);
      && a.out && b.out && c.out == Ok
      && c.next.sensors["s1"].edges == [d]
      && c.next.modules["m1"] == ModuleEntry(m1, [], [], [])
      && AddDataEdge(c.next, d) == Step(Err(DataEdgeExists), c.next)
  {
    var s1 := Sensor("s1", [], ["temp"]);
    var m1 := Module("m1", ["x"], ["y"], false);
    var d := Obj(1, DataEdge(true, "s1", "temp", "m1", "x"));
    var g1 := AddSensor(EmptyGraph, s1).next;
    var g2 := AddModule(g1, m1).next;
    assert "s1" != "m1" && "s1" != NetworkNodeId && "m1" != NetworkNodeId;
    assert "m1" !in g2.sensors && "s1" !in g2.modules;
    assert Includes([d], d) by { assert [d][0].ref == d.ref; }
  }
}
