/** The registry invariant (one disjoint namespace, the reserved id never
    stored), well-formedness of every stored edge, and the append-only growth
    that every operation performs. */
module GraphInvariants {
  import opened Entities
  import opened GraphModel

  /** Sensor ids and module ids are disjoint and neither contains the
      reserved network id. */
  ghost predicate Namespace(g: Graph)
  {
    && g.sensors.Keys !! g.modules.Keys
    && NetworkNodeId !in g.sensors
    && NetworkNodeId !in g.modules
  }

  /** Every table entry is keyed by its own entity's id. */
  ghost predicate KeyedById(g: Graph)
  {
    && (forall id | id in g.sensors :: g.sensors[id].value.id == id)
    && (forall id | id in g.modules :: g.modules[id].value.id == id)
  }

  /** A state edge stored on module `owner` leaves from `owner`'s returns and
      lands on an existing sensor's state key. */
  ghost predicate StateEdgeOk(g: Graph, owner: Id, e: Obj<StateEdge>)
  {
    && e.val.moduleId == owner
    && owner in g.modules
    && e.val.moduleRet in g.modules[owner].value.returnValues
    && e.val.sensorId in g.sensors
    && e.val.sensorKey in g.sensors[e.val.sensorId].value.stateKeys
  }

  /** A data edge lands on a parameter of an existing module. */
  ghost predicate DataTargetOk(g: Graph, e: Obj<DataEdge>)
  {
    && e.val.moduleId in g.modules
    && e.val.moduleParam in g.modules[e.val.moduleId].value.params
  }

  /** Every stored edge references existing entities and names slots
      present in their schemas; every edge is stored on the entity it
      leaves from. */
  ghost predicate EdgesWellFormed(g: Graph)
  {
    && (forall id, i | id in g.modules && 0 <= i < |g.modules[id].stateEdges| ::
          StateEdgeOk(g, id, g.modules[id].stateEdges[i]))
    && (forall id, i | id in g.modules && 0 <= i < |g.modules[id].networkEdges| ::
          g.modules[id].networkEdges[i].val.moduleId == id)
    && (forall id, i | id in g.modules && 0 <= i < |g.modules[id].dataEdges| ::
          && g.modules[id].dataEdges[i].val.outId == id
          && g.modules[id].dataEdges[i].val.outRet in g.modules[id].value.returnValues
          && DataTargetOk(g, g.modules[id].dataEdges[i]))
    && (forall id, i | id in g.sensors && 0 <= i < |g.sensors[id].edges| ::
          && g.sensors[id].edges[i].val.outId == id
          && g.sensors[id].edges[i].val.outRet in g.sensors[id].value.returnValues
          && DataTargetOk(g, g.sensors[id].edges[i]))
  }

  /** No edge object is stored twice in the same list. */
  ghost predicate NoDuplicateEdges(g: Graph)
  {
    && (forall id | id in g.modules ::
          && DistinctRefs(g.modules[id].dataEdges)
          && DistinctRefs(g.modules[id].stateEdges)
          && DistinctRefs(g.modules[id].networkEdges))
    && (forall id | id in g.sensors :: DistinctRefs(g.sensors[id].edges))
  }

  ghost predicate Valid(g: Graph)
  {
    Namespace(g) && KeyedById(g) && EdgesWellFormed(g) && NoDuplicateEdges(g)
  }

  /** `g'` is `g` with possibly more entities and longer edge lists: no
      entity is removed or amended, and every edge list only grows at its end. */
  ghost predicate Grows(g: Graph, g': Graph)
  {
    && g.sensors.Keys <= g'.sensors.Keys
    && g.modules.Keys <= g'.modules.Keys
    && (forall id | id in g.sensors ::
          && g'.sensors[id].value == g.sensors[id].value
          && g.sensors[id].edges <= g'.sensors[id].edges)
    && (forall id | id in g.modules ::
          && g'.modules[id].value == g.modules[id].value
          && g.modules[id].dataEdges <= g'.modules[id].dataEdges
          && g.modules[id].stateEdges <= g'.modules[id].stateEdges
          && g.modules[id].networkEdges <= g'.modules[id].networkEdges)
  }

  lemma GrowsTransitive(g1: Graph, g2: Graph, g3: Graph)
    requires Grows(g1, g2) && Grows(g2, g3)
    ensures Grows(g1, g3)
  {
  }

  /** An id that exists keeps existing as the graph grows. */
  lemma ExistsPersists(g: Graph, g': Graph, id: Id)
    requires Grows(g, g')
    ensures Exists(g, id) ==> Exists(g', id)
  {
  }

  lemma EmptyGraphValid()
    ensures Valid(EmptyGraph)
  {
  }

  /** Appending an object that is not yet in a duplicate-free list keeps it
      duplicate-free. */
  lemma AppendKeepsDistinct<T>(xs: seq<Obj<T>>, o: Obj<T>)
    requires DistinctRefs(xs) && !Includes(xs, o)
    ensures DistinctRefs(xs + [o])
  {
    var ys := xs + [o];
    forall i, j | 0 <= i < j < |ys| ensures ys[i].ref != ys[j].ref {
      if j == |xs| {
        assert ys[i] == xs[i];
      } else {
        assert ys[i] == xs[i] && ys[j] == xs[j];
      }
    }
  }

  // ------------------------------------------------------------ registration

  lemma AddSensorKeepsValid(g: Graph, s: Sensor)
    requires Valid(g)
    ensures Valid(AddSensor(g, s).next) && Grows(g, AddSensor(g, s).next)
  {
    var g' := AddSensor(g, s).next;
    if AddSensor(g, s).out {
      assert g'.sensors == g.sensors[s.id := SensorEntry(s, [])];
      assert EdgesWellFormed(g') by {
        forall id, i | id in g'.sensors && 0 <= i < |g'.sensors[id].edges|
          ensures DataTargetOk(g', g'.sensors[id].edges[i])
        {
          assert id in g.sensors;
          assert DataTargetOk(g, g.sensors[id].edges[i]);
        }
        forall id, i | id in g'.modules && 0 <= i < |g'.modules[id].stateEdges|
          ensures StateEdgeOk(g', id, g'.modules[id].stateEdges[i])
        {
          assert StateEdgeOk(g, id, g.modules[id].stateEdges[i]);
        }
      }
    }
  }

  lemma AddModuleKeepsValid(g: Graph, m: Module)
    requires Valid(g)
    ensures Valid(AddModule(g, m).next) && Grows(g, AddModule(g, m).next)
  {
    var g' := AddModule(g, m).next;
    if AddModule(g, m).out {
      assert g'.modules == g.modules[m.id := ModuleEntry(m, [], [], [])];
      assert EdgesWellFormed(g') by {
        forall id, i | id in g'.sensors && 0 <= i < |g'.sensors[id].edges|
          ensures DataTargetOk(g', g'.sensors[id].edges[i])
        {
          assert DataTargetOk(g, g.sensors[id].edges[i]);
        }
        forall id, i | id in g'.modules && 0 <= i < |g'.modules[id].dataEdges|
          ensures DataTargetOk(g', g'.modules[id].dataEdges[i])
        {
          assert id in g.modules;
          assert DataTargetOk(g, g.modules[id].dataEdges[i]);
        }
      }
    }
  }

  // ------------------------------------------------------------------- edges

  /** The entity tables of `g` and `g'` agree: same ids, same schemas. */
  ghost predicate SameEntities(g: Graph, g': Graph)
  {
    && g'.sensors.Keys == g.sensors.Keys
    && g'.modules.Keys == g.modules.Keys
    && (forall id | id in g.sensors :: g'.sensors[id].value == g.sensors[id].value)
    && (forall id | id in g.modules :: g'.modules[id].value == g.modules[id].value)
  }

  /** Edge well-formedness depends on the entity tables only. */
  lemma OkTransfers(g: Graph, g': Graph)
    requires SameEntities(g, g')
    ensures forall owner, e :: StateEdgeOk(g, owner, e) ==> StateEdgeOk(g', owner, e)
    ensures forall e :: DataTargetOk(g, e) ==> DataTargetOk(g', e)
  {
  }

  lemma AddStateEdgeKeepsValid(g: Graph, e: Obj<StateEdge>)
    requires Valid(g)
    ensures Valid(AddStateEdge(g, e).next) && Grows(g, AddStateEdge(g, e).next)
  {
    var r := AddStateEdge(g, e);
    var g' := r.next;
    if r.out.Ok? {
      var m := e.val.moduleId;
      var before := g.modules[m];
      assert g' == g.(modules := g.modules[m := before.(stateEdges := before.stateEdges + [e])]);
      assert StateEdgeOk(g, m, e) && !Includes(before.stateEdges, e);
      assert SameEntities(g, g');
      OkTransfers(g, g');
      AppendKeepsDistinct(before.stateEdges, e);
      forall id, i | id in g'.modules && 0 <= i < |g'.modules[id].stateEdges|
        ensures StateEdgeOk(g', id, g'.modules[id].stateEdges[i])
      {
        if id != m || i < |before.stateEdges| {
          assert g'.modules[id].stateEdges[i] == g.modules[id].stateEdges[i];
          assert StateEdgeOk(g, id, g.modules[id].stateEdges[i]);
        }
      }
      forall id, i | id in g'.modules && 0 <= i < |g'.modules[id].dataEdges|
        ensures DataTargetOk(g', g'.modules[id].dataEdges[i])
      {
        assert DataTargetOk(g, g.modules[id].dataEdges[i]);
      }
      forall id, i | id in g'.sensors && 0 <= i < |g'.sensors[id].edges|
        ensures DataTargetOk(g', g'.sensors[id].edges[i])
      {
        assert DataTargetOk(g, g.sensors[id].edges[i]);
      }
      assert EdgesWellFormed(g');
    }
  }

  lemma AddNetworkEdgeKeepsValid(g: Graph, e: Obj<NetworkEdge>)
    requires Valid(g)
    ensures Valid(AddNetworkEdge(g, e).next) && Grows(g, AddNetworkEdge(g, e).next)
  {
    var r := AddNetworkEdge(g, e);
    var g' := r.next;
    if r.out.Ok? {
      var m := e.val.moduleId;
      var before := g.modules[m];
      assert g' == g.(modules := g.modules[m := before.(networkEdges := before.networkEdges + [e])]);
      assert !Includes(before.networkEdges, e);
      assert SameEntities(g, g');
      OkTransfers(g, g');
      AppendKeepsDistinct(before.networkEdges, e);
      forall id, i | id in g'.modules && 0 <= i < |g'.modules[id].stateEdges|
        ensures StateEdgeOk(g', id, g'.modules[id].stateEdges[i])
      {
        assert StateEdgeOk(g, id, g.modules[id].stateEdges[i]);
      }
      forall id, i | id in g'.modules && 0 <= i < |g'.modules[id].networkEdges|
        ensures g'.modules[id].networkEdges[i].val.moduleId == id
      {
        if id != m || i < |before.networkEdges| {
          assert g'.modules[id].networkEdges[i] == g.modules[id].networkEdges[i];
        }
      }
      forall id, i | id in g'.modules && 0 <= i < |g'.modules[id].dataEdges|
        ensures DataTargetOk(g', g'.modules[id].dataEdges[i])
      {
        assert DataTargetOk(g, g.modules[id].dataEdges[i]);
      }
      forall id, i | id in g'.sensors && 0 <= i < |g'.sensors[id].edges|
        ensures DataTargetOk(g', g'.sensors[id].edges[i])
      {
        assert DataTargetOk(g, g.sensors[id].edges[i]);
      }
      assert EdgesWellFormed(g');
    }
  }

  lemma AddDataEdgeKeepsValid(g: Graph, e: Obj<DataEdge>)
    requires Valid(g)
    ensures Valid(AddDataEdge(g, e).next) && Grows(g, AddDataEdge(g, e).next)
  {
    var r := AddDataEdge(g, e);
    var g' := r.next;
    var o := e.val.outId;
    if r.out.Ok? {
      assert DataTargetOk(g, e);
      if o in g.modules {
        var before := g.modules[o];
        assert g' == g.(modules := g.modules[o := before.(dataEdges := before.dataEdges + [e])]);
        assert e.val.outRet in before.value.returnValues && !Includes(before.dataEdges, e);
        assert SameEntities(g, g');
        OkTransfers(g, g');
        AppendKeepsDistinct(before.dataEdges, e);
        forall id, i | id in g'.modules && 0 <= i < |g'.modules[id].stateEdges|
          ensures StateEdgeOk(g', id, g'.modules[id].stateEdges[i])
        {
          assert StateEdgeOk(g, id, g.modules[id].stateEdges[i]);
        }
        forall id, i | id in g'.modules && 0 <= i < |g'.modules[id].dataEdges|
          ensures g'.modules[id].dataEdges[i].val.outId == id
          ensures g'.modules[id].dataEdges[i].val.outRet in g'.modules[id].value.returnValues
          ensures DataTargetOk(g', g'.modules[id].dataEdges[i])
        {
          if id != o || i < |before.dataEdges| {
            assert g'.modules[id].dataEdges[i] == g.modules[id].dataEdges[i];
            assert DataTargetOk(g, g.modules[id].dataEdges[i]);
          }
        }
        forall id, i | id in g'.sensors && 0 <= i < |g'.sensors[id].edges|
          ensures DataTargetOk(g', g'.sensors[id].edges[i])
        {
          assert DataTargetOk(g, g.sensors[id].edges[i]);
        }
        assert EdgesWellFormed(g');
      } else {
        var before := g.sensors[o];
        assert g' == g.(sensors := g.sensors[o := before.(edges := before.edges + [e])]);
        assert e.val.outRet in before.value.returnValues && !Includes(before.edges, e);
        assert SameEntities(g, g');
        OkTransfers(g, g');
        AppendKeepsDistinct(before.edges, e);
        forall id, i | id in g'.modules && 0 <= i < |g'.modules[id].stateEdges|
          ensures StateEdgeOk(g', id, g'.modules[id].stateEdges[i])
        {
          assert StateEdgeOk(g, id, g.modules[id].stateEdges[i]);
        }
        forall id, i | id in g'.modules && 0 <= i < |g'.modules[id].dataEdges|
          ensures DataTargetOk(g', g'.modules[id].dataEdges[i])
        {
          assert DataTargetOk(g, g.modules[id].dataEdges[i]);
        }
        forall id, i | id in g'.sensors && 0 <= i < |g'.sensors[id].edges|
          ensures g'.sensors[id].edges[i].val.outId == id
          ensures g'.sensors[id].edges[i].val.outRet in g'.sensors[id].value.returnValues
          ensures DataTargetOk(g', g'.sensors[id].edges[i])
        {
          if id != o || i < |before.edges| {
            assert g'.sensors[id].edges[i] == g.sensors[id].edges[i];
            assert DataTargetOk(g, g.sensors[id].edges[i]);
          }
        }
        assert EdgesWellFormed(g');
      }
    }
  }
}
