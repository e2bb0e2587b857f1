/** Entities, edges and rejection reasons of the dataflow graph.

    Sensors and modules are registered once and never amended. Edges are
    caller-owned objects: the graph compares them by identity, so every edge
    value carries an opaque reference next to its contents. */
module Entities {

  type Id = string

  /** Identity of a caller-supplied object (what `===` compares). */
  type Ref = nat

  /** The reserved identifier of the external network endpoint: always
      considered to exist, never stored. */
  const NetworkNodeId: Id := "NET"

  /** In both entity records `returnValues` is the `returns` field of the
      `Sensor` and `Module` interfaces in `src/graph.ts` (`returns` is a
      reserved word in Dafny). */
  datatype Sensor = Sensor(id: Id, stateKeys: seq<string>, returnValues: seq<string>)

  datatype Module = Module(id: Id, params: seq<string>, returnValues: seq<string>, network: bool)

  /** module -> sensor: a module's return value writes a sensor's state key. */
  datatype StateEdge = StateEdge(moduleId: Id, moduleRet: string, sensorId: Id, sensorKey: string)

  /** A module's declared egress domain. */
  datatype NetworkEdge = NetworkEdge(moduleId: Id, domain: string)

  /** A value flowing from a sensor's or module's return to a module's parameter. */
  datatype DataEdge = DataEdge(stateless: bool, outId: Id, outRet: string, moduleId: Id, moduleParam: string)

  /** A caller-owned object: its identity and its contents. */
  datatype Obj<T> = Obj(ref: Ref, val: T)

  /** `Array.prototype.includes` on an array of objects: true when an object
      with the same identity is already in the array. */
  predicate Includes<T>(xs: seq<Obj<T>>, o: Obj<T>)
  {
    exists i | 0 <= i < |xs| :: xs[i].ref == o.ref
  }

  /** Number of entries of `xs` that are the object `o`. */
  function Occurrences<T>(xs: seq<Obj<T>>, o: Obj<T>): (n: nat)
    ensures n <= |xs|
    ensures n == 0 <==> !Includes(xs, o)
  {
    if |xs| == 0 then 0
    else
      var rest := Occurrences(xs[1..], o);
      assert Includes(xs[1..], o) ==> Includes(xs, o) by {
        if Includes(xs[1..], o) {
          var i :| 0 <= i < |xs[1..]| && xs[1..][i].ref == o.ref;
          assert xs[i + 1].ref == o.ref;
        }
      }
      assert Includes(xs, o) && xs[0].ref != o.ref ==> Includes(xs[1..], o) by {
        if Includes(xs, o) && xs[0].ref != o.ref {
          var i :| 0 <= i < |xs| && xs[i].ref == o.ref;
          assert xs[1..][i - 1].ref == o.ref;
        }
      }
      (if xs[0].ref == o.ref then 1 else 0) + rest
  }

  /** Appending one object adds one to its own count and leaves every other
      object's count alone. */
  lemma {:induction false} OccurrencesAppend<T>(xs: seq<Obj<T>>, x: Obj<T>, o: Obj<T>)
    ensures Occurrences(xs + [x], o) == Occurrences(xs, o) + (if x.ref == o.ref then 1 else 0)
  {
    if |xs| > 0 {
      assert (xs + [x])[1..] == xs[1..] + [x];
      OccurrencesAppend(xs[1..], x, o);
    }
  }

  /** No object appears twice in `xs`. */
  predicate DistinctRefs<T>(xs: seq<Obj<T>>)
  {
    forall i, j | 0 <= i < j < |xs| :: xs[i].ref != xs[j].ref
  }

  /** Why an edge request was rejected; one constructor per diagnostic text. */
  datatype Reason =
    | StateOutputIsSensor
    | StateInputIsModule
    | OutputModuleMissing
    | InputSensorMissing
    | OutputReturnMissing
    | InputStateKeyMissing
    | StateEdgeExists
    | NetworkOutputIsSensor
    | NetworkEdgeExists
    | DataInputIsSensor
    | InputModuleMissing
    | InputParamMissing
    | OutputEntityMissing
    | DataEdgeExists

  /** The diagnostic text written for each reason, verbatim. The data-edge
      "target is a sensor" case reuses the state-edge wording. */
  function Message(r: Reason): string
  {
    match r
    case StateOutputIsSensor => "state edge output cannot be a sensor"
    case StateInputIsModule => "state edge input cannot be a module"
    case OutputModuleMissing => "output module does not exist"
    case InputSensorMissing => "input sensor does not exist"
    case OutputReturnMissing => "output return value does not exist"
    case InputStateKeyMissing => "input state key does not exist"
    case StateEdgeExists => "state edge already exists"
    case NetworkOutputIsSensor => "network edge output cannot be a sensor"
    case NetworkEdgeExists => "network edge already exists"
    case DataInputIsSensor => "state edge input cannot be a sensor"
    case InputModuleMissing => "input module does not exist"
    case InputParamMissing => "input param does not exist"
    case OutputEntityMissing => "output entity does not exist"
    case DataEdgeExists => "data edge already exists"
  }

  /** Distinct reasons print distinct texts, so the reason enum loses
      nothing the diagnostics tell apart. */
  lemma MessageInjective(r1: Reason, r2: Reason)
    ensures Message(r1) == Message(r2) ==> r1 == r2
  {
  }

  /** Result of an edge operation: `true`, or `false` with the reason. */
  datatype Outcome = Ok | Err(reason: Reason)
}
