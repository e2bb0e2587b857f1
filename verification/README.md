# Dataflow graph registry and edge engine

A Dafny model of the `Graph` class of karl-ui (`src/graph.ts`). The graph holds
**sensors** (data sources with state keys and return values) and **modules**
(transformation units with parameters and return values) in two keyed tables.
Together with the reserved id `"NET"` (the external network endpoint) the two
tables form one disjoint namespace. Three kinds of edge connect them:

- **state edges** run from a module's return value to a sensor's state key and
  are stored on the module;
- **network edges** declare a module's egress domain and are stored on the module;
- **data edges** run from a sensor's or module's return value to a module's
  parameter, and are stored on the *source* only (`data_edges` of a module
  source, `edges` of a sensor source). The module table is consulted first.

Each `add_*_edge` runs an ordered, short-circuiting chain of checks; the first
failing check decides the rejection reason and nothing changes. On success
exactly one list grows by one element.

Layout:

- `entities.dfy` (`Entities`): entity and edge records, object identity
  (`Obj`, `Includes`), the rejection `Reason` enum with its verbatim
  diagnostic text (`Message`), and `Outcome = Ok | Err(reason)`.
- `precedence.dfy` (`Precedence`): a check chain as a list of
  `(holds, reason)` pairs and `FirstFailing`, the reference semantics of an
  ordered if/else-if validation.
- `graph.dfy` (`GraphModel`): the graph state, `Exists`, the five operations
  as pure functions returning `Step(out, next)`, and each edge operation's
  check list.
- `chains.dfy` (`Chains`): each edge operation equals its check list's
  `FirstFailing`.
- `invariants.dfy` (`GraphInvariants`): the namespace invariant, stored-edge
  well-formedness, no duplicate edge objects, append-only growth, and their
  preservation by every operation.
- `session.dfy` (`Sessions`): arbitrary request sequences.
- `properties.dfy` (`GraphProperties`): properties relating several calls.

Duplicate detection compares object identity (`includes(edge)`), so every
edge is modelled as an `Obj` carrying an opaque reference, and only
re-submitting the same object is rejected. A field-equal copy is accepted
(`GraphProperties.FieldEqualCopyAccepted`), and two field-equal edges can then
sit on one source.

The first check of `add_data_edge` prints "state edge input cannot be a
sensor"; the model keeps that text verbatim (`Reason.DataInputIsSensor`).

## Model

| member | source | states |
|---|---|---|
| Entities.MessageInjective | src/graph.ts:102-181 | distinct rejection reasons print distinct diagnostic texts, so the enum is a faithful stand-in for the messages |
| Precedence.FirstFailing | src/graph.ts:103-125 | an ordered check chain succeeds iff every check holds, and otherwise reports the reason of a check that fails while all earlier ones hold |
| Precedence.FirstFailingReports | src/graph.ts:103-125 | conversely, whenever check i is the first failing one, the chain reports exactly check i's reason |
| GraphModel.Exists | src/graph.ts:68-72 | "NET" always exists; any other id exists exactly when it names a module or a sensor |
| GraphModel.ResolveSource | src/graph.ts:152-176 | a data-edge source id resolves to a module whenever it names one, to a sensor exactly when it names a sensor and no module, and to nothing otherwise |
| GraphModel.AddSensor | src/graph.ts:74-85 | succeeds iff the id names no sensor, no module and is not "NET"; on failure the graph is unchanged; on success exactly one sensor with an empty edge list is added and every other entry is unchanged |
| GraphModel.AddModule | src/graph.ts:87-100 | succeeds iff the id is unused; on failure nothing changes; on success exactly one module with empty data, state and network edge lists is added and nothing else changes |
| GraphModel.AddStateEdge | src/graph.ts:102-126 | a rejection leaves the graph unchanged; an acceptance appends the edge once to its module's state edges, and no other module entry and no sensor entry changes |
| GraphModel.AddNetworkEdge | src/graph.ts:128-142 | a rejection leaves the graph unchanged; an acceptance appends the edge once to its module's network edges and changes nothing else |
| GraphModel.AddDataEdge | src/graph.ts:144-181 | a rejection leaves the graph unchanged; an acceptance appends the edge once to the source's outgoing list (a module source's data edges, otherwise a sensor source's edges) and changes nothing else |
| Chains.StateEdgeFollowsChain | src/graph.ts:103-116 | add_state_edge reports the first failing of: output is a sensor, input is a module, module missing, sensor missing, return missing, state key missing, edge already present |
| Chains.NetworkEdgeFollowsChain | src/graph.ts:129-134 | add_network_edge reports the first failing of: output is a sensor, module missing, edge already present |
| Chains.DataEdgeFollowsChain | src/graph.ts:145-177 | add_data_edge reports the first failing of: target is a sensor, target module missing, parameter missing, source missing (modules looked up before sensors), return missing, edge already on the source |
| GraphInvariants.ExistsPersists | src/graph.ts:68-72 | an id that exists keeps existing as the graph grows (entities are never removed) |
| GraphInvariants.EmptyGraphValid | src/graph.ts:63-66 | the freshly constructed graph satisfies the invariant |
| GraphInvariants.AddSensorKeepsValid | src/graph.ts:74-85 | add_sensor keeps the namespace disjoint and free of "NET", keeps every stored edge well-formed and duplicate-free, and only grows the graph |
| GraphInvariants.AddModuleKeepsValid | src/graph.ts:87-100 | add_module keeps the invariant and only grows the graph |
| GraphInvariants.AddStateEdgeKeepsValid | src/graph.ts:102-126 | add_state_edge keeps the invariant: the stored edge references an existing module return and sensor state key and is not a duplicate object |
| GraphInvariants.AddNetworkEdgeKeepsValid | src/graph.ts:128-142 | add_network_edge keeps the invariant and only grows the graph |
| GraphInvariants.AddDataEdgeKeepsValid | src/graph.ts:144-181 | add_data_edge keeps the invariant: the stored edge sits on its source, names a return of the source and a parameter of an existing target module |
| Sessions.ApplyKeepsValid | src/graph.ts:68-181 | every operation, accepted or rejected, keeps the invariant and only appends |
| Sessions.RunKeepsValid | src/graph.ts:68-181 | any sequence of operations from a valid graph ends in a valid graph that extends the start |
| Sessions.ReachableValid | src/graph.ts:63-181 | every graph built from the empty graph satisfies the invariant |
| Sessions.RegisteredIdStaysTaken | src/graph.ts:68-90 | once an id is registered as a sensor, registering a sensor or module under it fails after any further requests |
| Sessions.RegisteredModuleIdStaysTaken | src/graph.ts:68-90 | once an id is registered as a module, registering a sensor or module under it fails after any further requests |
| GraphProperties.ReRegisterIsNoop | src/graph.ts:74-90 | after an id is registered as a sensor, registering a sensor or module under it again returns false and leaves the graph as it was |
| GraphProperties.ReRegisterModuleIsNoop | src/graph.ts:74-90 | after an id is registered as a module, registering a sensor or module under it again returns false and leaves the graph as it was |
| GraphProperties.SourceResolutionUnambiguous | src/graph.ts:152-155 | under the namespace invariant a data-edge source resolves to a sensor iff it is a sensor id and to a module iff it is a module id; "NET" resolves to nothing |
| GraphProperties.StateEdgePrecedence | src/graph.ts:103-116 | add_state_edge fails with a reason iff that reason's check is the first failing one |
| GraphProperties.StateOutputSensorReportedFirst | src/graph.ts:103-106 | when the module id is a sensor and the sensor id is a module, the reason is "state edge output cannot be a sensor" and nothing changes |
| GraphProperties.StateEdgeAcceptedIff | src/graph.ts:103-122 | add_state_edge succeeds iff all seven checks hold |
| GraphProperties.NetworkEdgeAcceptedIff | src/graph.ts:128-138 | add_network_edge succeeds iff the module id is not a sensor, names a module, and the edge object is not yet on it |
| GraphProperties.DataEdgeAcceptedIff | src/graph.ts:144-174 | add_data_edge succeeds iff the target is an existing non-sensor module with the parameter, the source resolves and has the return, and the edge object is not yet on the source |
| GraphProperties.NetworkNodeIsNoDataSource | src/graph.ts:152-177 | with the target checks passing, a data edge from "NET" fails with "output entity does not exist" and changes nothing |
| GraphProperties.DataEdgeTargetUntouched | src/graph.ts:160-173 | an accepted data edge leaves the target module's entry unchanged (unless source and target coincide), and leaves all modules unchanged for a sensor source |
| GraphProperties.DataEdgeTwice | src/graph.ts:155-173 | after an accepted data edge, the edge object occurs exactly once on its source and re-submitting it fails with "data edge already exists" and changes nothing |
| GraphProperties.FieldEqualCopyAccepted | src/graph.ts:158-172 | a different object with the same fields as a stored data edge is accepted, leaving two field-equal edges on the source |
| GraphProperties.SensorToModuleScenario | src/graph.ts:74-181 | registering a sensor and a module, connecting them and re-submitting the same edge yields true, true, true, then "data edge already exists" |

## Left out

- `render()` (src/graph.ts:183-234): it only builds DOM lists of the tables for display.
- `src/graph_html.ts` as a whole: SVG markers, drag handlers, node placement and line coordinates are GUI plumbing. Its `renderSensor`, `renderModule`, `renderDataEdge` and `renderStateEdge` calls inside the operations are dropped; their results have no effect on the graph's logic.
- The `html` field that `add_sensor` and `add_module` write onto the caller's object, and the `html` fields of the records: opaque display handles with no bearing on validation.
- The `console.error` diagnostics: only the reason is kept, as the returned `Reason`; `Message` gives its text. The trailing JSON dump of the rejected edge is not modelled.
- The boolean results of the edge operations are refined to `Ok` / `Err(reason)`; `Ok` is `true` and every `Err` is `false`.
- Plain-object quirks of JavaScript: the tables are ordinary finite maps. In the code, `this.modules[edge.out_id]` can hit prototype keys such as `"toString"`; assigning `this.sensors["__proto__"]` returns true but stores no own property, so that id can be "registered" again (where `GraphProperties.ReRegisterIsNoop` says the second call fails); and an entity id `"hasOwnProperty"` shadows the method, so every later `hasOwnProperty` call on that table throws.
- Aliasing: the code stores the caller's objects, so a caller that mutates a sensor, module or edge object after registering it changes the stored copy too. The model stores values; schemas are frozen at registration.
- `src/graph.ts` has no data-edge removal, no ledger of visual connector handles and no slot-offset formula, so none is modelled.
- The `stateless` flag of data edges and the `network` flag of modules are carried but never checked, as in the code.
