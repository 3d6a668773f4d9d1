/** The authoring descriptors (service.go, object.go, workflow.go) and the registry (register.go): objects
    that own maps, shared by reference. */
module Registry {
  import opened Prelude
  import opened Resolution

  datatype SdkError =
    | ErrInvalidService | ErrDuplicateService
    | ErrInvalidVirtualObject | ErrDuplicateVirtualObject
    | ErrInvalidWorkflow | ErrDuplicateWorkflow
    | ErrDuplicateHandler | ErrDuplicateQueryHandler | ErrDuplicateSignalHandler

  class Service {
    const name: string
    var handlers: Table

    constructor (name: string)
      ensures this.name == name && handlers == map[]
    {
      this.name, handlers := name, map[];
    }

    method Handler(handler: string, fn: Fn) returns (err: Option<SdkError>)
      modifies this
      ensures handlers == AddNew(old(handlers), handler, fn)
      ensures handlers == if handler in old(handlers) then old(handlers) else old(handlers)[handler := fn]
      ensures err == if handler in old(handlers) then Some(ErrDuplicateHandler) else None
    {
      if handler in handlers {
        return Some(ErrDuplicateHandler);
      }
      handlers := handlers[handler := fn];
      return None;
    }

    function Lookup(handler: string): (r: (Fn, bool))
      reads this
    {
      if handler in handlers then (handlers[handler], true) else (NilFn, false)
    }
  }

  class VirtualObject {
    const name: string
    var handlers: Table

    constructor (name: string)
      ensures this.name == name && handlers == map[]
    {
      this.name, handlers := name, map[];
    }

    method Handler(handler: string, fn: Fn) returns (err: Option<SdkError>)
      modifies this
      ensures handlers == AddNew(old(handlers), handler, fn)
      ensures handlers == if handler in old(handlers) then old(handlers) else old(handlers)[handler := fn]
      ensures err == if handler in old(handlers) then Some(ErrDuplicateHandler) else None
    {
      if handler in handlers {
        return Some(ErrDuplicateHandler);
      }
      handlers := handlers[handler := fn];
      return None;
    }

    function Lookup(handler: string): (r: (Fn, bool))
      reads this
    {
      if handler in handlers then (handlers[handler], true) else (NilFn, false)
    }
  }

  class Workflow {
    const name: string
    var run: Fn
    var queries: Table
    var signals: Table

    constructor (name: string)
      ensures this.name == name && run == NilFn && queries == map[] && signals == map[]
    {
      this.name, run, queries, signals := name, NilFn, map[], map[];
    }

    /** Run overwrites. */
    method Run(fn: Fn)
      modifies this
      ensures run == fn && queries == old(queries) && signals == old(signals)
    {
      run := fn;
    }

    method Query(query: string, fn: Fn) returns (err: Option<SdkError>)
      modifies this
      ensures queries == if query in old(queries) then old(queries) else old(queries)[query := fn]
      ensures run == old(run) && signals == old(signals)
      ensures err == if query in old(queries) then Some(ErrDuplicateQueryHandler) else None
    {
      if query in queries {
        return Some(ErrDuplicateQueryHandler);
      }
      queries := queries[query := fn];
      return None;
    }

    method Signal(signal: string, fn: Fn) returns (err: Option<SdkError>)
      modifies this
      ensures signals == if signal in old(signals) then old(signals) else old(signals)[signal := fn]
      ensures run == old(run) && queries == old(queries)
      ensures err == if signal in old(signals) then Some(ErrDuplicateSignalHandler) else None
    {
      if signal in signals {
        return Some(ErrDuplicateSignalHandler);
      }
      signals := signals[signal := fn];
      return None;
    }
  }

  ghost function ServiceTables(m: map<string, Service>): map<string, Table>
    reads m.Values
  {
    map n | n in m :: m[n].handlers
  }

  ghost function ObjectTables(m: map<string, VirtualObject>): map<string, Table>
    reads m.Values
  {
    map n | n in m :: m[n].handlers
  }

  ghost function RunTable(m: map<string, Workflow>): Table
    reads m.Values
  {
    map n | n in m :: m[n].run
  }

  class Registry {
    var services: map<string, Service>
    var virtualObjects: map<string, VirtualObject>
    var workflows: map<string, Workflow>

    /** Every descriptor stands under its own, non-empty name. */
    ghost predicate Valid()
      reads this
    {
      && (forall n :: n in services ==> n != "" && services[n].name == n)
      && (forall n :: n in virtualObjects ==> n != "" && virtualObjects[n].name == n)
      && (forall n :: n in workflows ==> n != "" && workflows[n].name == n)
    }

    /** What the registry resolves: the contents of the descriptors it refers to. */
    ghost function Current(): View
      reads this, services.Values, virtualObjects.Values, workflows.Values
    {
      View(ServiceTables(services), ObjectTables(virtualObjects), RunTable(workflows))
    }

    constructor ()
      ensures Valid() && services == map[] && virtualObjects == map[] && workflows == map[]
    {
      services, virtualObjects, workflows := map[], map[], map[];
    }

    method Register(svc: Service?) returns (err: Option<SdkError>)
      requires Valid()
      modifies this
      ensures Valid() && virtualObjects == old(virtualObjects) && workflows == old(workflows)
      ensures err == if svc == null || svc.name == "" then Some(ErrInvalidService)
                     else if svc.name in old(services) then Some(ErrDuplicateService) else None
      ensures services == if err == None then old(services)[svc.name := svc] else old(services)
      ensures svc != null ==> Current() == Step(old(Current()), RegisterService(svc.name, svc.handlers))
    {
      if svc == null {
        return Some(ErrInvalidService);
      }
      if svc.name == "" {
        return Some(ErrInvalidService);
      }
      if svc.name in services {
        return Some(ErrDuplicateService);
      }
      services := services[svc.name := svc];
      assert ServiceTables(services) == old(ServiceTables(services))[svc.name := svc.handlers];
      return None;
    }

    method RegisterVirtualObject(obj: VirtualObject?) returns (err: Option<SdkError>)
      requires Valid()
      modifies this
      ensures Valid() && services == old(services) && workflows == old(workflows)
      ensures err == if obj == null || obj.name == "" then Some(ErrInvalidVirtualObject)
                     else if obj.name in old(virtualObjects) then Some(ErrDuplicateVirtualObject) else None
      ensures virtualObjects == if err == None then old(virtualObjects)[obj.name := obj] else old(virtualObjects)
      ensures obj != null ==> Current() == Step(old(Current()), RegisterObject(obj.name, obj.handlers))
    {
      if obj == null {
        return Some(ErrInvalidVirtualObject);
      }
      if obj.name == "" {
        return Some(ErrInvalidVirtualObject);
      }
      if obj.name in virtualObjects {
        return Some(ErrDuplicateVirtualObject);
      }
      virtualObjects := virtualObjects[obj.name := obj];
      assert ObjectTables(virtualObjects) == old(ObjectTables(virtualObjects))[obj.name := obj.handlers];
      return None;
    }

    method RegisterWorkflow(wf: Workflow?) returns (err: Option<SdkError>)
      requires Valid()
      modifies this
      ensures Valid() && services == old(services) && virtualObjects == old(virtualObjects)
      ensures err == if wf == null || wf.name == "" then Some(ErrInvalidWorkflow)
                     else if wf.name in old(workflows) then Some(ErrDuplicateWorkflow) else None
      ensures workflows == if err == None then old(workflows)[wf.name := wf] else old(workflows)
      ensures wf != null ==> Current() == Step(old(Current()), Op.RegisterWorkflow(wf.name, wf.run))
    {
      if wf == null {
        return Some(ErrInvalidWorkflow);
      }
      if wf.name == "" {
        return Some(ErrInvalidWorkflow);
      }
      if wf.name in workflows {
        return Some(ErrDuplicateWorkflow);
      }
      workflows := workflows[wf.name := wf];
      assert RunTable(workflows) == old(RunTable(workflows))[wf.name := wf.run];
      return None;
    }

    method Lookup(serviceName: string) returns (svc: Service?, ok: bool)
      ensures ok <==> serviceName in services
      ensures ok ==> svc == services[serviceName]
      ensures !ok ==> svc == null
    {
      if serviceName in services {
        return services[serviceName], true;
      }
      return null, false;
    }

    method LookupVirtualObject(objectName: string) returns (obj: VirtualObject?, ok: bool)
      ensures ok <==> objectName in virtualObjects
      ensures ok ==> obj == virtualObjects[objectName]
      ensures !ok ==> obj == null
    {
      if objectName in virtualObjects {
        return virtualObjects[objectName], true;
      }
      return null, false;
    }

    method LookupWorkflow(workflowName: string) returns (wf: Workflow?, ok: bool)
      ensures ok <==> workflowName in workflows
      ensures ok ==> wf == workflows[workflowName]
      ensures !ok ==> wf == null
    {
      if workflowName in workflows {
        return workflows[workflowName], true;
      }
      return null, false;
    }

    method LookupHandler(serviceName: string, handlerName: string) returns (fn: Fn, ok: bool)
      ensures ok <==> serviceName in services && handlerName in services[serviceName].handlers
      ensures fn == if ok then services[serviceName].handlers[handlerName] else NilFn
      ensures (fn, ok) == ResolveService(Current(), serviceName, handlerName)
    {
      var svc, found := Lookup(serviceName);
      if !found {
        return NilFn, false;
      }
      var r := svc.Lookup(handlerName);
      return r.0, r.1;
    }

    method LookupKeyedHandler(objectName: string, handlerName: string) returns (fn: Fn, ok: bool)
      ensures var inObject := objectName in virtualObjects && handlerName in virtualObjects[objectName].handlers;
              var inWorkflow := handlerName == "run" && objectName in workflows && workflows[objectName].run != NilFn;
              && (ok <==> inObject || inWorkflow)
              && fn == if inObject then virtualObjects[objectName].handlers[handlerName]
                       else if inWorkflow then workflows[objectName].run
                       else NilFn
      ensures (fn, ok) == ResolveKeyed(Current(), objectName, handlerName)
    {
      var obj, found := LookupVirtualObject(objectName);
      if found {
        var r := obj.Lookup(handlerName);
        if r.1 {
          return r.0, true;
        }
      }
      if handlerName == RUN {
        var wf, registered := LookupWorkflow(objectName);
        if registered {
          if wf.run != NilFn {
            return wf.run, true;
          }
        }
      }
      return NilFn, false;
    }

    /** A Handler call on a service moves the registry's view exactly when that very service is the one
        registered under its name. */
    twostate lemma ServiceHandlerMovesView(svc: Service, handler: string, fn: Fn)
      requires old(Valid()) && unchanged(this)
      requires svc.handlers == AddNew(old(svc.handlers), handler, fn)
      requires forall n :: n in services && services[n] != svc ==> unchanged(services[n])
      requires unchanged(virtualObjects.Values) && unchanged(workflows.Values)
      ensures Current() == if svc.name in services && services[svc.name] == svc
                           then Step(old(Current()), ServiceHandler(svc.name, handler, fn)) else old(Current())
    {
      assert ObjectTables(virtualObjects) == old(ObjectTables(virtualObjects));
      assert RunTable(workflows) == old(RunTable(workflows));
    }

    twostate lemma ObjectHandlerMovesView(obj: VirtualObject, handler: string, fn: Fn)
      requires old(Valid()) && unchanged(this)
      requires obj.handlers == AddNew(old(obj.handlers), handler, fn)
      requires forall n :: n in virtualObjects && virtualObjects[n] != obj ==> unchanged(virtualObjects[n])
      requires unchanged(services.Values) && unchanged(workflows.Values)
      ensures Current() == if obj.name in virtualObjects && virtualObjects[obj.name] == obj
                           then Step(old(Current()), ObjectHandler(obj.name, handler, fn)) else old(Current())
    {
      assert ServiceTables(services) == old(ServiceTables(services));
      assert RunTable(workflows) == old(RunTable(workflows));
    }

    twostate lemma RunMovesView(wf: Workflow, fn: Fn)
      requires old(Valid()) && unchanged(this) && wf.run == fn
      requires forall n :: n in workflows && workflows[n] != wf ==> unchanged(workflows[n])
      requires unchanged(services.Values) && unchanged(virtualObjects.Values)
      ensures Current() == if wf.name in workflows && workflows[wf.name] == wf
                           then Step(old(Current()), WorkflowRun(wf.name, fn)) else old(Current())
    {
      assert ServiceTables(services) == old(ServiceTables(services));
      assert ObjectTables(virtualObjects) == old(ObjectTables(virtualObjects));
    }
  }
}
