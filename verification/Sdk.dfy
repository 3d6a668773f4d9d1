/** SDK construction from options, and the legacy builders whose handler map the built description shares
    (register.go, service.go, object.go). */
module Sdk {
  import opened Prelude
  import opened Resolution

  /** A Go map from handler names to functions: a heap object, shared by reference. */
  class HandlerMap {
    var m: Table

    constructor ()
      ensures m == map[]
    {
      m := map[];
    }
  }

  /** ServiceDescription and ObjectDescription; the map may be nil. */
  datatype Description = Description(name: string, handlers: HandlerMap?)

  datatype Opt = WithService(d: Description) | WithObject(d: Description)

  datatype BuildError = DuplicateService(name: string) | DuplicateObject(name: string)

  /** ServiceBuilder and ObjectBuilder. */
  class Builder {
    const name: string
    const handlers: HandlerMap

    constructor (name: string)
      ensures this.name == name && fresh(handlers) && handlers.m == map[]
    {
      this.name := name;
      this.handlers := new HandlerMap();
    }

    /** Handle overwrites. */
    method Handle(handler: string, fn: Fn)
      modifies handlers
      ensures handlers.m == old(handlers.m)[handler := fn]
    {
      handlers.m := handlers.m[handler := fn];
    }

    function Build(): Description { Description(name, handlers) }
  }

  // ---- what a list of options means ----

  datatype Config =
    Config(services: map<string, Description>, objects: map<string, Description>, err: Option<BuildError>)

  function Apply(c: Config, o: Opt): Config {
    match o
    case WithService(d) =>
      if d.name in c.services then c.(err := if c.err == None then Some(DuplicateService(d.name)) else c.err)
      else c.(services := c.services[d.name := d])
    case WithObject(d) =>
      if d.name in c.objects then c.(err := if c.err == None then Some(DuplicateObject(d.name)) else c.err)
      else c.(objects := c.objects[d.name := d])
  }

  function Fold(opts: seq<Opt>): Config {
    if opts == [] then Config(map[], map[], None) else Apply(Fold(opts[..|opts| - 1]), opts[|opts| - 1])
  }

  predicate SameEntry(a: Opt, b: Opt) { a.WithService? == b.WithService? && a.d.name == b.d.name }

  /** Option i repeats the kind and name of an earlier one. */
  ghost predicate Repeats(opts: seq<Opt>, i: nat)
    requires i < |opts|
  {
    exists j :: 0 <= j < i && SameEntry(opts[j], opts[i])
  }

  function ErrorFor(o: Opt): BuildError {
    if o.WithService? then DuplicateService(o.d.name) else DuplicateObject(o.d.name)
  }

  function EntryOf(c: Config, o: Opt): Option<Description> {
    var m := if o.WithService? then c.services else c.objects;
    if o.d.name in m then Some(m[o.d.name]) else None
  }

  /** A linear scan for the first description of the same kind and name. */
  function Scan(opts: seq<Opt>, o: Opt): Option<Description> {
    if opts == [] then None else if SameEntry(opts[0], o) then Some(opts[0].d) else Scan(opts[1..], o)
  }

  lemma {:induction false} ScanAppend(opts: seq<Opt>, last: Opt, o: Opt)
    ensures Scan(opts + [last], o)
         == if Scan(opts, o).Some? then Scan(opts, o) else if SameEntry(last, o) then Some(last.d) else None
  {
    if opts == [] {
      assert (opts + [last])[1..] == [];
    } else {
      assert (opts + [last])[1..] == opts[1..] + [last];
      ScanAppend(opts[1..], last, o);
    }
  }

  /** Is option j the first of this kind and name? */
  ghost predicate First(opts: seq<Opt>, j: nat, service: bool, name: string)
    requires j < |opts|
  {
    && opts[j].WithService? == service && opts[j].d.name == name
    && forall i :: 0 <= i < j ==> !(opts[i].WithService? == service && opts[i].d.name == name)
  }

  /** The scan finds the description of the first option of that kind and name. */
  lemma {:induction false} ScanFindsFirst(opts: seq<Opt>, o: Opt, j: nat)
    requires j < |opts| && First(opts, j, o.WithService?, o.d.name)
    ensures Scan(opts, o) == Some(opts[j].d)
  {
    if j > 0 {
      var rest := opts[1..];
      assert forall i :: 0 <= i < |rest| ==> rest[i] == opts[i + 1];
      assert !(opts[0].WithService? == o.WithService? && opts[0].d.name == o.d.name);
      ScanFindsFirst(rest, o, j - 1);
    }
  }

  /** It is Some exactly when there is such an option. */
  lemma {:induction false} ScanIsFirst(opts: seq<Opt>, o: Opt)
    ensures forall j :: 0 <= j < |opts| && First(opts, j, o.WithService?, o.d.name) ==> Scan(opts, o) == Some(opts[j].d)
    ensures Scan(opts, o).Some? ==> exists j :: 0 <= j < |opts| && First(opts, j, o.WithService?, o.d.name)
  {
    forall j | 0 <= j < |opts| && First(opts, j, o.WithService?, o.d.name)
      ensures Scan(opts, o) == Some(opts[j].d)
    {
      ScanFindsFirst(opts, o, j);
    }
    if Scan(opts, o).Some? {
      if SameEntry(opts[0], o) {
        assert First(opts, 0, o.WithService?, o.d.name);
      } else {
        ScanIsFirst(opts[1..], o);
        var j :| 0 <= j < |opts[1..]| && First(opts[1..], j, o.WithService?, o.d.name);
        assert forall i :: 0 < i < |opts| ==> opts[i] == opts[1..][i - 1];
        assert First(opts, j + 1, o.WithService?, o.d.name);
      }
    }
  }

  lemma {:induction false} ScanFinds(opts: seq<Opt>, o: Opt)
    ensures Scan(opts, o).Some? <==> exists j :: 0 <= j < |opts| && SameEntry(opts[j], o)
  {
    if opts != [] {
      ScanFinds(opts[1..], o);
      if j :| 0 <= j < |opts| && SameEntry(opts[j], o) {
        if j > 0 { assert opts[1..][j - 1] == opts[j]; }
      }
      if j :| 0 <= j < |opts[1..]| && SameEntry(opts[1..][j], o) {
        assert opts[j + 1] == opts[1..][j];
      }
    }
  }

  /** The maps the options leave behind agree with the linear scan, for either kind and every name. */
  lemma {:induction false} FoldIsScan(opts: seq<Opt>, o: Opt)
    ensures EntryOf(Fold(opts), o) == Scan(opts, o)
  {
    if opts != [] {
      var front, last := opts[..|opts| - 1], opts[|opts| - 1];
      assert opts == front + [last];
      FoldIsScan(front, o);
      ScanAppend(front, last, o);
    }
  }

  /** Build reports no error exactly when no option repeats another; otherwise it names the earliest repeated
      option, in option order. */
  lemma {:induction false} BuildErrorExact(opts: seq<Opt>)
    ensures Fold(opts).err == None <==> forall i :: 0 <= i < |opts| ==> !Repeats(opts, i)
    ensures Fold(opts).err.Some? ==>
              exists i :: 0 <= i < |opts| && Repeats(opts, i) && Fold(opts).err.value == ErrorFor(opts[i])
                && forall j :: 0 <= j < i ==> !Repeats(opts, j)
  {
    if opts != [] {
      var n := |opts| - 1;
      var front, last := opts[..n], opts[n];
      assert opts == front + [last];
      BuildErrorExact(front);
      forall i | 0 <= i < n
        ensures Repeats(opts, i) == Repeats(front, i)
      {
        assert forall j :: 0 <= j <= i ==> front[j] == opts[j];
      }
      FoldIsScan(front, last);
      ScanFinds(front, last);
      assert Repeats(opts, n) == Scan(front, last).Some? by {
        assert forall j :: 0 <= j < n ==> front[j] == opts[j];
      }
      if Fold(front).err.Some? {
        var i :| 0 <= i < |front| && Repeats(front, i) && Fold(front).err.value == ErrorFor(front[i])
          && forall j :: 0 <= j < i ==> !Repeats(front, j);
        assert opts[i] == front[i] && Repeats(opts, i);
      }
    }
  }

  class SDK {
    var services: map<string, Description>
    var objects: map<string, Description>
    var buildErr: Option<BuildError>
    ghost var opts: seq<Opt>

    ghost predicate Valid()
      reads this
    {
      Config(services, objects, buildErr) == Fold(opts)
    }

    constructor New(options: seq<Opt>)
      ensures Valid() && opts == options
    {
      services, objects, buildErr, opts := map[], map[], None, [];
      new;
      for i := 0 to |options|
        invariant Valid() && opts == options[..i]
      {
        ApplyOption(options[i]);
      }
    }

    method ApplyOption(o: Opt)
      requires Valid()
      modifies this
      ensures Valid() && opts == old(opts) + [o]
    {
      match o {
        case WithService(d) =>
          if d.name in services {
            if buildErr == None {
              buildErr := Some(DuplicateService(d.name));
            }
          } else {
            services := services[d.name := d];
          }
        case WithObject(d) =>
          if d.name in objects {
            if buildErr == None {
              buildErr := Some(DuplicateObject(d.name));
            }
          } else {
            objects := objects[d.name := d];
          }
      }
      assert (opts + [o])[..|opts|] == opts;
      opts := opts + [o];
    }

    method Build() returns (err: Option<BuildError>)
      requires Valid()
      ensures err == None <==>
              forall i, j :: 0 <= j < i < |opts| && opts[j].WithService? == opts[i].WithService? ==>
                opts[j].d.name != opts[i].d.name
      ensures err.Some? ==>
                exists i :: 0 <= i < |opts| && Repeats(opts, i)
                  && err.value == (if opts[i].WithService? then DuplicateService(opts[i].d.name)
                                   else DuplicateObject(opts[i].d.name))
                  && forall j :: 0 <= j < i ==> !Repeats(opts, j)
    {
      BuildErrorExact(opts);
      assert forall i :: 0 <= i < |opts| ==>
          (Repeats(opts, i) <==> exists j :: 0 <= j < i && SameEntry(opts[j], opts[i]));
      return buildErr;
    }

    /** None is ErrHandlerNotFound. */
    method LookupService(name: string, handler: string) returns (fn: Option<Fn>)
      requires Valid()
      ensures fn == HandlerIn(Scan(opts, WithService(Description(name, null))), handler)
      ensures forall j :: 0 <= j < |opts| && First(opts, j, true, name) ==>
                var hm := opts[j].d.handlers;
                fn == if hm != null && handler in hm.m then Some(hm.m[handler]) else None
      ensures (forall j :: 0 <= j < |opts| ==> !First(opts, j, true, name)) ==> fn == None
    {
      ScanIsFirst(opts, WithService(Description(name, null)));
      InUse(WithService(Description(name, null)));
      if name !in services {
        return None;
      }
      return FindHandler(services[name].handlers, handler);
    }

    method LookupObject(name: string, handler: string) returns (fn: Option<Fn>)
      requires Valid()
      ensures fn == HandlerIn(Scan(opts, WithObject(Description(name, null))), handler)
      ensures forall j :: 0 <= j < |opts| && First(opts, j, false, name) ==>
                var hm := opts[j].d.handlers;
                fn == if hm != null && handler in hm.m then Some(hm.m[handler]) else None
      ensures (forall j :: 0 <= j < |opts| ==> !First(opts, j, false, name)) ==> fn == None
    {
      ScanIsFirst(opts, WithObject(Description(name, null)));
      InUse(WithObject(Description(name, null)));
      if name !in objects {
        return None;
      }
      return FindHandler(objects[name].handlers, handler);
    }

    /** A description the scan finds is one the maps hold. */
    lemma InUse(o: Opt)
      requires Valid()
      ensures var m := if o.WithService? then services else objects;
              Scan(opts, o) == if o.d.name in m then Some(m[o.d.name]) else None
    {
      FoldIsScan(opts, o);
      assert EntryOf(Config(services, objects, buildErr), o) == Scan(opts, o);
    }

    /** Writes to one handler map after the SDK was built, through a builder or through the exported field of a
        description, deletion included: a lookup changes exactly when the description in use holds that very
        map and the map's answer for the handler name changed. */
    twostate lemma LateWriteExact(hm: HandlerMap, o: Opt, handler: string)
      requires old(Valid()) && unchanged(this)
      requires forall n :: n in services && services[n].handlers != null && services[n].handlers != hm ==>
                 unchanged(services[n].handlers)
      requires forall n :: n in objects && objects[n].handlers != null && objects[n].handlers != hm ==>
                 unchanged(objects[n].handlers)
      ensures var d := Scan(opts, o);
              HandlerIn(d, handler) != old(HandlerIn(d, handler)) <==>
              d.Some? && d.value.handlers == hm && FindHandler(hm, handler) != old(FindHandler(hm, handler))
    {
      InUse(o);
    }

    /** In particular a Handle call on a builder, whose map the built description shares: a lookup changes
        exactly when the description in use is the builder's own, for the very handler name, and the function
        differs. */
    twostate lemma LateHandleExact(b: Builder, h: string, fn: Fn, o: Opt, handler: string)
      requires old(Valid()) && unchanged(this) && b.handlers.m == old(b.handlers.m)[h := fn]
      requires forall n :: n in services && services[n].handlers != null && services[n].handlers != b.handlers ==>
                 unchanged(services[n].handlers)
      requires forall n :: n in objects && objects[n].handlers != null && objects[n].handlers != b.handlers ==>
                 unchanged(objects[n].handlers)
      ensures var d := Scan(opts, o);
              HandlerIn(d, handler) != old(HandlerIn(d, handler)) <==>
              d.Some? && d.value.handlers == b.handlers && handler == h && old(HandlerIn(d, handler)) != Some(fn)
    {
      InUse(o);
    }
  }

  /** An option applied after the SDK was built: it changes what is found under a kind and name exactly when
      nothing was found there and the option brings it, a lookup exactly when it also brings the handler, and
      turns a nil Build into an error exactly when it repeats an earlier option. */
  lemma LateOptionExact(opts: seq<Opt>, late: Opt, o: Opt, handler: string)
    ensures Scan(opts + [late], o) != Scan(opts, o) <==> Scan(opts, o).None? && SameEntry(late, o)
    ensures HandlerIn(Scan(opts + [late], o), handler) != HandlerIn(Scan(opts, o), handler) <==>
            Scan(opts, o).None? && SameEntry(late, o) && FindHandler(late.d.handlers, handler).Some?
    ensures Fold(opts).err == None ==> (Fold(opts + [late]).err == None <==> Scan(opts, late).None?)
  {
    ScanAppend(opts, late, o);
    FoldIsScan(opts, late);
    assert (opts + [late])[..|opts|] == opts;
  }

  /** Indexing a nil map finds nothing. */
  function FindHandler(handlers: HandlerMap?, handler: string): Option<Fn>
    reads handlers
  {
    if handlers != null && handler in handlers.m then Some(handlers.m[handler]) else None
  }

  function HandlerIn(d: Option<Description>, handler: string): Option<Fn>
    reads if d.Some? && d.value.handlers != null then {d.value.handlers} else {}
  {
    if d.None? then None else FindHandler(d.value.handlers, handler)
  }

  // ---- Build returning nil does not make the registry read-only: three clients ----

  /** The builder still reaches into it. */
  method HandleAfterBuild() returns (err: Option<BuildError>, before: Option<Fn>, after: Option<Fn>)
    ensures err == None && before == Some(Fn.Fn(1)) && after == Some(Fn.Fn(2))
  {
    var b := new Builder("greeter");
    b.Handle("greet", Fn.Fn(1));
    var options := [WithService(b.Build())];
    var sdk := new SDK.New(options);
    err := sdk.Build();
    before := sdk.LookupService("greeter", "greet");
    b.Handle("greet", Fn.Fn(2));
    after := sdk.LookupService("greeter", "greet");
  }

  /** So does whoever holds the map of a description; no builder is involved. */
  method DeleteAfterBuild() returns (err: Option<BuildError>, before: Option<Fn>, after: Option<Fn>)
    ensures err == None && before == Some(Fn.Fn(1)) && after == None
  {
    var hm := new HandlerMap();
    hm.m := map["greet" := Fn.Fn(1)];
    var options := [WithObject(Description("greeter", hm))];
    var sdk := new SDK.New(options);
    err := sdk.Build();
    before := sdk.LookupObject("greeter", "greet");
    hm.m := hm.m - {"greet"};
    after := sdk.LookupObject("greeter", "greet");
  }

  /** And an option is a function that anybody may apply later. */
  method OptionAfterBuild() returns (err: Option<BuildError>, before: Option<Fn>, after: Option<Fn>)
    ensures err == None && before == None && after == Some(Fn.Fn(1))
  {
    var hm := new HandlerMap();
    hm.m := map["greet" := Fn.Fn(1)];
    var sdk := new SDK.New([]);
    err := sdk.Build();
    before := sdk.LookupService("greeter", "greet");
    sdk.ApplyOption(WithService(Description("greeter", hm)));
    after := sdk.LookupService("greeter", "greet");
  }
}
