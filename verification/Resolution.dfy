/** Handler tables as values: first-writer-wins insertion, the atomic resolution rules of the registry, and
    how long a resolution lasts. */
module Resolution {

  /** A Go function value: nil, or some function. */
  datatype Fn = NilFn | Fn(id: nat)

  type Table = map<string, Fn>

  /** Insertion that never replaces. */
  function AddNew<V>(m: map<string, V>, k: string, v: V): map<string, V> {
    if k in m then m else m[k := v]
  }

  /** What a registry holds: the handler tables of its services and virtual objects, and the run handlers of
      its workflows, by name. */
  datatype View = View(services: map<string, Table>, objects: map<string, Table>, runs: Table)

  const RUN := "run"

  function ResolveService(v: View, service: string, handler: string): (r: (Fn, bool)) {
    if service in v.services && handler in v.services[service] then (v.services[service][handler], true)
    else (NilFn, false)
  }

  predicate ObjectHas(v: View, name: string, handler: string) {
    name in v.objects && handler in v.objects[name]
  }

  /** Virtual object first; then, under the name "run" only, a workflow with a run handler set. */
  function ResolveKeyed(v: View, name: string, handler: string): (r: (Fn, bool)) {
    if ObjectHas(v, name, handler) then (v.objects[name][handler], true)
    else if handler == RUN && name in v.runs && v.runs[name] != NilFn then (v.runs[name], true)
    else (NilFn, false)
  }

  /** Everything the authoring API can do to what a registry resolves. Handler and Run calls on descriptors
      that are not registered change no view. */
  datatype Op =
    | RegisterService(name: string, table: Table)
    | RegisterObject(name: string, table: Table)
    | RegisterWorkflow(name: string, run: Fn)
    | ServiceHandler(name: string, handler: string, fn: Fn)
    | ObjectHandler(name: string, handler: string, fn: Fn)
    | WorkflowRun(name: string, fn: Fn)

  function Step(v: View, op: Op): View {
    match op
    case RegisterService(name, table) =>
      if name == "" then v else v.(services := AddNew(v.services, name, table))
    case RegisterObject(name, table) =>
      if name == "" then v else v.(objects := AddNew(v.objects, name, table))
    case RegisterWorkflow(name, run) =>
      if name == "" then v else v.(runs := AddNew(v.runs, name, run))
    case ServiceHandler(name, handler, fn) =>
      if name in v.services then v.(services := v.services[name := AddNew(v.services[name], handler, fn)]) else v
    case ObjectHandler(name, handler, fn) =>
      if name in v.objects then v.(objects := v.objects[name := AddNew(v.objects[name], handler, fn)]) else v
    case WorkflowRun(name, fn) => if name in v.runs then v.(runs := v.runs[name := fn]) else v
  }

  function Steps(v: View, ops: seq<Op>): View
    decreases ops
  {
    if ops == [] then v else Steps(Step(v, ops[0]), ops[1..])
  }

  /** A service handler that resolves resolves to the same function for ever. */
  lemma {:induction false} ServiceResolutionStable(v: View, ops: seq<Op>, service: string, handler: string)
    requires ResolveService(v, service, handler).1
    ensures ResolveService(Steps(v, ops), service, handler) == ResolveService(v, service, handler)
    decreases ops
  {
    if ops != [] {
      ServiceResolutionStable(Step(v, ops[0]), ops[1..], service, handler);
    }
  }

  /** So does a handler resolved in a virtual object, whatever workflow shares its name. */
  lemma {:induction false} ObjectResolutionStable(v: View, ops: seq<Op>, name: string, handler: string)
    requires ObjectHas(v, name, handler)
    ensures ResolveKeyed(Steps(v, ops), name, handler) == ResolveKeyed(v, name, handler)
    ensures ObjectHas(Steps(v, ops), name, handler)
    decreases ops
  {
    if ops != [] {
      ObjectResolutionStable(Step(v, ops[0]), ops[1..], name, handler);
    }
  }

  /** The operations that put a handler of this name into the virtual object of this name. */
  predicate Shadows(v: View, op: Op, name: string, handler: string) {
    !ObjectHas(v, name, handler) &&
    match op
    case RegisterObject(n, table) => n == name && n != "" && n !in v.objects && handler in table
    case ObjectHandler(n, h, fn) => n == name && h == handler && n in v.objects
    case _ => false
  }

  function ShadowFn(op: Op, handler: string): Fn
    requires op.RegisterObject? ==> handler in op.table
    requires op.RegisterObject? || op.ObjectHandler?
  {
    if op.RegisterObject? then op.table[handler] else op.fn
  }

  /** What changes a resolved "run": Run setting another function, nil included, while the workflow answers, or
      a virtual object of the same name starting to answer "run" with another one. */
  predicate ChangesRun(v: View, op: Op, name: string) {
    !ObjectHas(v, name, RUN) && name in v.runs &&
    (|| (op.WorkflowRun? && op.name == name && op.fn != v.runs[name])
     || (Shadows(v, op, name, RUN) && ShadowFn(op, RUN) != v.runs[name]))
  }

  /** A resolved "run" changes at an operation exactly when the operation is such an event. */
  lemma RunResolutionChangesExactly(v: View, op: Op, name: string)
    requires ResolveKeyed(v, name, RUN).1
    ensures ResolveKeyed(Step(v, op), name, RUN) != ResolveKeyed(v, name, RUN) <==> ChangesRun(v, op, name)
    ensures ChangesRun(v, op, name) ==>
              ResolveKeyed(Step(v, op), name, RUN)
              == if op.WorkflowRun? then (op.fn, op.fn != NilFn) else (ShadowFn(op, RUN), true)
  {
  }

  /** Once shadowed, "run" stays with the virtual object, whatever happens to the workflow. */
  lemma ShadowedForever(v: View, op: Op, ops: seq<Op>, name: string)
    requires Shadows(v, op, name, RUN)
    ensures ResolveKeyed(Steps(Step(v, op), ops), name, RUN) == (ShadowFn(op, RUN), true)
  {
    ObjectResolutionStable(Step(v, op), ops, name, RUN);
  }

  /** Over any sequence of operations, a resolved "run" stays the same up to the first such event and changes
      there; without one it stays the same to the end. */
  lemma {:induction false} RunResolutionStable(v: View, ops: seq<Op>, name: string) returns (i: nat)
    requires ResolveKeyed(v, name, RUN).1
    ensures i <= |ops|
    ensures forall j :: 0 <= j <= i ==> ResolveKeyed(Steps(v, ops[..j]), name, RUN) == ResolveKeyed(v, name, RUN)
    ensures forall j :: 0 <= j < i ==> !ChangesRun(Steps(v, ops[..j]), ops[j], name)
    ensures i < |ops| ==>
              && ChangesRun(Steps(v, ops[..i]), ops[i], name)
              && ResolveKeyed(Steps(v, ops[..i + 1]), name, RUN) != ResolveKeyed(v, name, RUN)
    decreases ops
  {
    if ops == [] {
      i := 0;
    } else {
      RunResolutionChangesExactly(v, ops[0], name);
      assert ops[..1] == [ops[0]] && Steps(Step(v, ops[0]), []) == Step(v, ops[0]);
      if ChangesRun(v, ops[0], name) {
        i := 0;
      } else {
        var n := RunResolutionStable(Step(v, ops[0]), ops[1..], name);
        i := n + 1;
        forall j | 0 < j <= |ops|
          ensures Steps(v, ops[..j]) == Steps(Step(v, ops[0]), ops[1..][..j - 1])
        {
          assert ops[..j][1..] == ops[1..][..j - 1];
        }
      }
    }
  }
}
