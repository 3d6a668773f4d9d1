/** The saga builder (saga.go): a growing slice, defensive copies of it, registration with early exit, and
    the LIFO rollback it is for. */
module Saga {
  import opened Prelude

  /** One answer of ctx.RegisterCompensation: the id it assigned, or its error. */
  datatype Answer = Id(id: string) | Failed(error: string)

  /** The invocation's compensation stack behind ctx; answers are what the engine will reply, in order. */
  class Context<T> {
    var stack: seq<(string, T)>
    var answers: seq<Answer>

    constructor (answers: seq<Answer>)
      ensures stack == [] && this.answers == answers
    {
      this.stack, this.answers := [], answers;
    }

    /** Assign an id and push, or fail and push nothing. */
    method RegisterCompensation(fn: T) returns (r: Answer)
      modifies this
      ensures r == NextAnswer(old(answers))
      ensures answers == if old(answers) == [] then [] else old(answers)[1..]
      ensures stack == if r.Id? then old(stack) + [(r.id, fn)] else old(stack)
    {
      r := NextAnswer(answers);
      if answers != [] {
        answers := answers[1..];
      }
      if r.Id? {
        stack := stack + [(r.id, fn)];
      }
    }
  }

  function NextAnswer(answers: seq<Answer>): Answer {
    if answers == [] then Failed("invocation closed") else answers[0]
  }

  function Zip<T>(ids: seq<string>, fns: seq<T>): (pairs: seq<(string, T)>)
    requires |ids| == |fns|
    ensures |pairs| == |ids| && forall i :: 0 <= i < |ids| ==> pairs[i] == (ids[i], fns[i])
  {
    seq(|ids|, i requires 0 <= i < |ids| => (ids[i], fns[i]))
  }

  lemma ZipNext<T>(ids: seq<string>, id: string, fns: seq<T>)
    requires |ids| < |fns|
    ensures Zip(ids + [id], fns[..|ids| + 1]) == Zip(ids, fns[..|ids|]) + [(id, fns[|ids|])]
  {
  }

  class Saga<T> {
    const name: string
    var buf: array<T>
    var len: nat

    ghost predicate Valid()
      reads this
    {
      len <= buf.Length
    }

    ghost function Contents(): seq<T>
      requires Valid()
      reads this, buf
    {
      buf[..len]
    }

    constructor (name: string)
      ensures Valid() && this.name == name && Contents() == [] && fresh(buf)
    {
      this.name, len := name, 0;
      buf := new T[0];
    }

    /** append: in place while there is room, into a larger array otherwise. */
    method AddCompensation(fn: T)
      requires Valid()
      modifies this, buf
      ensures Valid() && Contents() == old(Contents()) + [fn]
      ensures buf == old(buf) || fresh(buf)
    {
      if len == buf.Length {
        var b, n := buf, len;
        var grown := new T[2 * n + 1](i requires 0 <= i reads b => if i < b.Length then b[i] else fn);
        buf := grown;
      } else {
        buf[len] := fn;
      }
      len := len + 1;
    }

    method Compensations() returns (out: array<T>)
      requires Valid()
      ensures fresh(out) && out[..] == Contents()
    {
      var b, n := buf, len;
      out := new T[n](i requires 0 <= i < n <= b.Length reads b => b[i]);
    }

    /** The first error ends the registration; the ids of the steps registered before it are returned. */
    method RegisterAll(ctx: Context<T>) returns (ids: seq<string>, err: Option<string>)
      requires Valid()
      modifies ctx
      ensures |ids| <= |Contents()| && |ids| <= |old(ctx.answers)|
      ensures ctx.stack == old(ctx.stack) + Zip(ids, Contents()[..|ids|])
      ensures forall i :: 0 <= i < |ids| ==> old(ctx.answers)[i] == Id(ids[i])
      ensures err == None <==> |ids| == |Contents()|
      ensures err.Some? ==> NextAnswer(old(ctx.answers)[|ids|..]) == Failed(err.value)
      ensures var asked := if err == None then |ids| else |ids| + 1;
              ctx.answers == if asked <= |old(ctx.answers)| then old(ctx.answers)[asked..] else []
    {
      ids := [];
      ghost var all, answers := Contents(), ctx.answers;
      var i := 0;
      while i < len
        invariant 0 <= i == |ids| <= len == |all| && i <= |answers|
        invariant Valid() && all == Contents()
        invariant ctx.answers == answers[i..]
        invariant ctx.stack == old(ctx.stack) + Zip(ids, all[..i])
        invariant forall j :: 0 <= j < i ==> answers[j] == Id(ids[j])
      {
        var r := ctx.RegisterCompensation(buf[i]);
        if r.Failed? {
          return ids, Some(r.error);
        }
        ZipNext(ids, r.id, all);
        ids := ids + [r.id];
        i := i + 1;
      }
      return ids, None;
    }
  }

  // ---- snapshots ----

  /** What a client does: append, take a copy, write into a copy it took. */
  datatype Op<T> = Add(fn: T) | Snapshot | Scribble(snap: nat, pos: nat, fn: T)

  datatype Picture<T> = Picture(contents: seq<T>, snaps: seq<seq<T>>)

  function Draw<T>(p: Picture<T>, op: Op<T>): Picture<T> {
    match op
    case Add(fn) => p.(contents := p.contents + [fn])
    case Snapshot => p.(snaps := p.snaps + [p.contents])
    case Scribble(k, pos, fn) =>
      if k < |p.snaps| && pos < |p.snaps[k]| then p.(snaps := p.snaps[k := p.snaps[k][pos := fn]]) else p
  }

  function DrawAll<T>(p: Picture<T>, ops: seq<Op<T>>): Picture<T> {
    if ops == [] then p else Draw(DrawAll(p, ops[..|ops| - 1]), ops[|ops| - 1])
  }

  function Added<T>(ops: seq<Op<T>>): seq<T> {
    if ops == [] then []
    else Added(ops[..|ops| - 1]) + if ops[|ops| - 1].Add? then [ops[|ops| - 1].fn] else []
  }

  /** The saga's contents are exactly the appended functions, in order, whatever else happened. */
  lemma {:induction false} ContentsAreTheAdds<T>(p: Picture<T>, ops: seq<Op<T>>)
    ensures DrawAll(p, ops).contents == p.contents + Added(ops)
  {
    if ops != [] {
      ContentsAreTheAdds(p, ops[..|ops| - 1]);
    }
  }

  predicate WritesTo<T>(op: Op<T>, k: nat) { op.Scribble? && op.snap == k }

  /** A snapshot that its holder does not write to never changes. */
  lemma {:induction false} SnapshotsKeep<T>(p: Picture<T>, ops: seq<Op<T>>, k: nat)
    requires k < |p.snaps| && forall op :: op in ops ==> !WritesTo(op, k)
    ensures k < |DrawAll(p, ops).snaps| && DrawAll(p, ops).snaps[k] == p.snaps[k]
  {
    if ops != [] {
      assert !WritesTo(ops[|ops| - 1], k);
      SnapshotsKeep(p, ops[..|ops| - 1], k);
    }
  }

  /** Any interleaving on the heap, with arbitrary writes into the returned slices, behaves as on values. */
  method Client<T>(saga: Saga<T>, ops: seq<Op<T>>) returns (snaps: seq<array<T>>)
    requires saga.Valid()
    modifies saga, saga.buf
    ensures saga.Valid()
    ensures var p := DrawAll(Picture(old(saga.Contents()), []), ops);
            saga.Contents() == p.contents && |snaps| == |p.snaps|
            && forall k :: 0 <= k < |snaps| ==> snaps[k][..] == p.snaps[k]
  {
    snaps := [];
    ghost var p := Picture(saga.Contents(), []);
    for i := 0 to |ops|
      invariant saga.Valid() && (saga.buf == old(saga.buf) || fresh(saga.buf))
      invariant p == DrawAll(Picture(old(saga.Contents()), []), ops[..i])
      invariant saga.Contents() == p.contents && |snaps| == |p.snaps|
      invariant forall k :: 0 <= k < |snaps| ==> fresh(snaps[k]) && snaps[k] != saga.buf
      invariant forall j, k :: 0 <= j < k < |snaps| ==> snaps[j] != snaps[k]
      invariant forall k :: 0 <= k < |snaps| ==> snaps[k][..] == p.snaps[k]
    {
      assert ops[..i + 1][..i] == ops[..i];
      match ops[i] {
        case Add(fn) => saga.AddCompensation(fn);
        case Snapshot =>
          var out := saga.Compensations();
          snaps := snaps + [out];
        case Scribble(k, pos, fn) =>
          if k < |snaps| && pos < snaps[k].Length {
            snaps[k][pos] := fn;
          }
      }
      p := Draw(p, ops[i]);
    }
    assert ops[..|ops|] == ops;
  }

  // ---- rollback ----

  /** Running the first n forward steps. */
  function Forward<S>(steps: seq<S -> S>, n: nat, x: S): S
    requires n <= |steps|
  {
    if n == 0 then x else steps[n - 1](Forward(steps, n - 1, x))
  }

  /** Last registered runs first. */
  function Rollback<T, S>(stack: seq<(string, T)>, run: (T, S) -> S, x: S): S {
    if stack == [] then x else Rollback(stack[..|stack| - 1], run, run(stack[|stack| - 1].1, x))
  }

  /** Rolling back one registered compensation is running it; a longer stack is rolled back top part first. */
  lemma {:induction false} RollbackIsLifo<T, S>(
      a: seq<(string, T)>, b: seq<(string, T)>, id: string, comp: T, run: (T, S) -> S, x: S)
    ensures Rollback([], run, x) == x && Rollback([(id, comp)], run, x) == run(comp, x)
    ensures Rollback(a + b, run, x) == Rollback(a, run, Rollback(b, run, x))
    decreases b
  {
    assert [(id, comp)][..0] == [];
    if b == [] {
      assert a + b == a;
    } else {
      assert (a + b)[..|a + b| - 1] == a + b[..|b| - 1];
      RollbackIsLifo(a, b[..|b| - 1], id, comp, run, run(b[|b| - 1].1, x));
    }
  }

  /** Running one step is applying it; a longer list runs first part first. */
  lemma {:induction false} ForwardIsInOrder<S>(a: seq<S -> S>, b: seq<S -> S>, step: S -> S, x: S)
    ensures Forward([step], 1, x) == step(x) && Forward(a, 0, x) == x
    ensures Forward(a + b, |a| + |b|, x) == Forward(b, |b|, Forward(a, |a|, x))
    decreases b
  {
    if b == [] {
      assert a + b == a;
    } else {
      var front := b[..|b| - 1];
      ForwardIsInOrder(a, front, step, x);
      ForwardPrefix(a + b, a + front, |a + front|, x);
      ForwardPrefix(b, front, |front|, Forward(a, |a|, x));
    }
  }

  lemma {:induction false} ForwardPrefix<S>(steps: seq<S -> S>, prefix: seq<S -> S>, n: nat, x: S)
    requires n <= |prefix| <= |steps| && steps[..|prefix|] == prefix
    ensures Forward(steps, n, x) == Forward(prefix, n, x)
    decreases n
  {
    if n != 0 {
      assert steps[..|prefix|][n - 1] == steps[n - 1];
      ForwardPrefix(steps, prefix, n - 1, x);
    }
  }

  /** Each compensation undoes its step, in the states this execution actually reaches. */
  ghost predicate Undoes<T, S(!new)>(steps: seq<S -> S>, comps: seq<T>, run: (T, S) -> S, x: S) {
    |comps| == |steps| && forall i :: 0 <= i < |steps| ==> StepUndone(steps, comps[i], run, i, x)
  }

  ghost predicate StepUndone<T, S(!new)>(steps: seq<S -> S>, comp: T, run: (T, S) -> S, i: nat, x: S)
    requires i < |steps|
  {
    run(comp, Forward(steps, i + 1, x)) == Forward(steps, i, x)
  }

  /** Rolling back what was registered of the first n steps, on top of any earlier stack, undoes exactly those
      n steps and hands over to the earlier stack. */
  lemma {:induction false} RollbackRestores<T, S(!new)>(
      before: seq<(string, T)>, ids: seq<string>, steps: seq<S -> S>, comps: seq<T>, run: (T, S) -> S, n: nat, x: S)
    requires Undoes(steps, comps, run, x) && n == |ids| <= |comps|
    ensures Rollback(before + Zip(ids, comps[..n]), run, Forward(steps, n, x)) == Rollback(before, run, x)
    decreases n
  {
    if n == 0 {
      assert before + Zip(ids, comps[..n]) == before;
    } else {
      var front, last := Zip(ids[..n - 1], comps[..n - 1]), [(ids[n - 1], comps[n - 1])];
      assert ids == ids[..n - 1] + [ids[n - 1]];
      ZipNext(ids[..n - 1], ids[n - 1], comps);
      assert before + Zip(ids, comps[..n]) == (before + front) + last;
      RollbackIsLifo(before + front, last, ids[n - 1], comps[n - 1], run, Forward(steps, n, x));
      assert StepUndone(steps, comps[n - 1], run, n - 1, x);
      RollbackRestores(before, ids[..n - 1], steps, comps, run, n - 1, x);
    }
  }

  /** A handler that performs its steps and registers its saga: whether all compensations are registered or
      registration stops early, rolling back the registered ones undoes exactly the steps they belong to. */
  method RegisterAndRollback<T, S(!new)>(
      saga: Saga<T>, ctx: Context<T>, steps: seq<S -> S>, run: (T, S) -> S, x: S) returns (ids: seq<string>, y: S)
    requires saga.Valid() && Undoes(steps, saga.Contents(), run, x) && ctx.stack == []
    modifies ctx
    ensures |ids| <= |steps| && y == Rollback(ctx.stack, run, Forward(steps, |ids|, x)) && y == x
    ensures |ids| <= |old(ctx.answers)|
    ensures |ids| < |steps| ==> NextAnswer(old(ctx.answers)[|ids|..]).Failed?
  {
    var err;
    ids, err := saga.RegisterAll(ctx);
    assert ctx.stack == [] + Zip(ids, saga.Contents()[..|ids|]);
    RollbackRestores([], ids, steps, saga.Contents(), run, |ids|, x);
    y := Rollback(ctx.stack, run, Forward(steps, |ids|, x));
  }
}
