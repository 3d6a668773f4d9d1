/** The registry under concurrency: any number of goroutines registering and looking up through its
    reader/writer lock, one atomic action at a time. Handler tables are fixed before registration. */
module RegistryRace {
  import opened Prelude
  import opened Resolution

  datatype Kind = ServiceKind | ObjectKind | WorkflowKind

  /** The three maps of a registry as one, from kind and name to the descriptor's pointer. */
  datatype Key = Key(kind: Kind, name: string)

  type Entries = map<Key, nat>

  /** What the descriptors hold. */
  datatype Defs = Defs(tables: nat -> Table, runs: nat -> Fn)

  /** Register*: take the write lock, test, insert if absent, release. */
  datatype RegisterPc = Begin | Locked | Tested(present: bool) | Inserted | Registered(ok: bool)

  /** Lookup*: take the read lock, read, release. A read notes the length of the history before it. */
  datatype Section = Outside | Holding | HasRead(found: Option<nat>, at: nat)

  /** LookupKeyedHandler: a section on the virtual objects, then, if need be, one on the workflows. */
  datatype KeyedPc =
    | Objects(section: Section)
    | Workflows(section: Section, at1: nat)
    | Answered(answer: (Fn, bool), at1: nat, at2: nat)

  datatype LookupPc = Reading(section: Section) | Got(found: Option<nat>, at: nat)

  datatype Thread =
    | Registering(key: Key, ptr: nat, pc: RegisterPc)
    | LookingUp(key: Key, lpc: LookupPc)
    | Resolving(name: string, handler: string, kpc: KeyedPc)

  /** history lists the entries after every step so far; owner remembers which thread inserted a key. */
  datatype State = State(
    writer: Option<nat>, readers: set<nat>, entries: Entries, owner: map<Key, nat>,
    threads: seq<Thread>, history: seq<Entries>)

  function Get(m: Entries, key: Key): Option<nat> { if key in m then Some(m[key]) else None }

  function ObjectAnswer(d: Defs, found: Option<nat>, handler: string): Option<Fn> {
    if found.Some? && handler in d.tables(found.value) then Some(d.tables(found.value)[handler]) else None
  }

  function RunAnswer(d: Defs, found: Option<nat>): (Fn, bool) {
    if found.Some? && d.runs(found.value) != NilFn then (d.runs(found.value), true) else (NilFn, false)
  }

  /** The answer put together from the objects at one moment and the workflows at another. */
  function Combined(d: Defs, m1: Entries, m2: Entries, name: string, handler: string): (Fn, bool) {
    match ObjectAnswer(d, Get(m1, Key(ObjectKind, name)), handler)
    case Some(fn) => (fn, true)
    case None => if handler == RUN then RunAnswer(d, Get(m2, Key(WorkflowKind, name))) else (NilFn, false)
  }

  /** The atomic answer. */
  function Atomic(d: Defs, m: Entries, name: string, handler: string): (Fn, bool) {
    Combined(d, m, m, name, handler)
  }

  function AsView(d: Defs, m: Entries): View {
    View(map k | k in m && k.kind == ServiceKind :: k.name := d.tables(m[k]),
         map k | k in m && k.kind == ObjectKind :: k.name := d.tables(m[k]),
         map k | k in m && k.kind == WorkflowKind :: k.name := d.runs(m[k]))
  }

  /** It is the sequential resolution of the same contents. */
  lemma AtomicIsResolveKeyed(d: Defs, m: Entries, name: string, handler: string)
    ensures Atomic(d, m, name, handler) == ResolveKeyed(AsView(d, m), name, handler)
  {
    var v := AsView(d, m);
    var objectKey, workflowKey := Key(ObjectKind, name), Key(WorkflowKind, name);
    if objectKey in m { assert objectKey.name in v.objects; }
    if workflowKey in m { assert workflowKey.name in v.runs; }
  }

  // ---- steps ----

  predicate Enabled(s: State, t: nat) {
    t < |s.threads| && s.history != [] &&
    match s.threads[t]
    case Registering(_, _, pc) =>
      (pc.Begin? ==> s.writer == None && s.readers == {}) && !pc.Registered?
    case LookingUp(_, pc) => pc.Reading? && (pc.section.Outside? ==> s.writer == None)
    case Resolving(_, _, pc) =>
      !pc.Answered? && (pc.section.Outside? ==> s.writer == None)
  }

  function Record(s: State): State { s.(history := s.history + [s.entries]) }

  function SetThread(s: State, t: nat, th: Thread): State
    requires t < |s.threads|
  {
    s.(threads := s.threads[t := th])
  }

  function Apply(d: Defs, s: State, t: nat): State
    requires Enabled(s, t)
  {
    match s.threads[t]
    case Registering(key, ptr, pc) => Record(RegisterStep(s, t))
    case LookingUp(key, pc) => Record(LookupStep(s, t))
    case Resolving(name, handler, pc) => Record(ResolveStep(d, s, t))
  }

  function RegisterStep(s: State, t: nat): State
    requires Enabled(s, t) && s.threads[t].Registering?
  {
    var th := s.threads[t];
    match th.pc
    case Begin => SetThread(s, t, th.(pc := Locked)).(writer := Some(t))
    case Locked => SetThread(s, t, th.(pc := Tested(th.key in s.entries)))
    case Tested(true) => SetThread(s, t, th.(pc := Registered(false))).(writer := None)
    case Tested(false) =>
      SetThread(s, t, th.(pc := Inserted)).(entries := s.entries[th.key := th.ptr], owner := s.owner[th.key := t])
    case Inserted => SetThread(s, t, th.(pc := Registered(true))).(writer := None)
    case Registered(_) => s
  }

  /** A read-lock section: entering, reading; leaving is up to the caller. */
  function Enter(s: State, section: Section, key: Key): Section
    requires s.history != []
  {
    if section.Outside? then Holding else HasRead(Get(s.entries, key), |s.history| - 1)
  }

  function LookupStep(s: State, t: nat): State
    requires Enabled(s, t) && s.threads[t].LookingUp?
  {
    var th := s.threads[t];
    match th.lpc.section
    case HasRead(found, at) => SetThread(s, t, th.(lpc := Got(found, at))).(readers := s.readers - {t})
    case section => SetThread(s, t, th.(lpc := Reading(Enter(s, section, th.key)))).(readers := s.readers + {t})
  }

  function ResolveStep(d: Defs, s: State, t: nat): State
    requires Enabled(s, t) && s.threads[t].Resolving?
  {
    var th := s.threads[t];
    match th.kpc
    case Objects(HasRead(found, at)) =>
      SetThread(s, t, th.(kpc := AfterObjects(d, th, found, at))).(readers := s.readers - {t})
    case Objects(section) =>
      SetThread(s, t, th.(kpc := Objects(Enter(s, section, Key(ObjectKind, th.name))))).(readers := s.readers + {t})
    case Workflows(HasRead(found, at), at1) =>
      SetThread(s, t, th.(kpc := Answered(RunAnswer(d, found), at1, at))).(readers := s.readers - {t})
    case Workflows(section, at1) =>
      SetThread(s, t, th.(kpc := Workflows(Enter(s, section, Key(WorkflowKind, th.name)), at1)))
        .(readers := s.readers + {t})
    case Answered(_, _, _) => s
  }

  /** Between the sections no lock is held. */
  function AfterObjects(d: Defs, th: Thread, found: Option<nat>, at: nat): KeyedPc
    requires th.Resolving?
  {
    match ObjectAnswer(d, found, th.handler)
    case Some(fn) => Answered((fn, true), at, at)
    case None => if th.handler == RUN then Workflows(Outside, at) else Answered((NilFn, false), at, at)
  }

  // ---- runs ----

  predicate Valid(d: Defs, s: State, run: seq<nat>)
    decreases run
  {
    run == [] || (Enabled(s, run[0]) && Valid(d, Apply(d, s, run[0]), run[1..]))
  }

  function Final(d: Defs, s: State, run: seq<nat>): State
    requires Valid(d, s, run)
    decreases run
  {
    if run == [] then s else Final(d, Apply(d, s, run[0]), run[1..])
  }

  predicate Fresh(th: Thread) {
    match th
    case Registering(_, _, pc) => pc == Begin
    case LookingUp(_, pc) => pc == Reading(Outside)
    case Resolving(_, _, pc) => pc == Objects(Outside)
  }

  /** An empty registry and goroutines about to call it. */
  predicate Initial(s: State) {
    s == State(None, {}, map[], map[], s.threads, [map[]]) && forall t :: 0 <= t < |s.threads| ==> Fresh(s.threads[t])
  }

  // ---- the invariant ----

  predicate Writing(th: Thread) {
    th.Registering? && (th.pc.Locked? || th.pc.Tested? || th.pc.Inserted?)
  }

  function SectionOf(th: Thread): Section {
    match th
    case LookingUp(_, Reading(section)) => section
    case Resolving(_, _, Objects(section)) => section
    case Resolving(_, _, Workflows(section, _)) => section
    case _ => Outside
  }

  ghost predicate LockOk(s: State) {
    && (s.writer.Some? ==> s.readers == {})
    && (forall t :: 0 <= t < |s.threads| && Writing(s.threads[t]) ==> s.writer == Some(t))
    && (forall t :: 0 <= t < |s.threads| ==> (t in s.readers <==> !SectionOf(s.threads[t]).Outside?))
  }

  ghost predicate Extends(a: Entries, b: Entries) { forall k :: k in a ==> k in b && b[k] == a[k] }

  ghost predicate HistoryOk(s: State) {
    && s.history != [] && s.history[|s.history| - 1] == s.entries
    && Monotone(s.history) && Gradual(s.history)
  }

  ghost predicate Monotone(h: seq<Entries>) { forall i, j :: 0 <= i <= j < |h| ==> Extends(h[i], h[j]) }

  /** Keys arrive one at a time. */
  ghost predicate Gradual(h: seq<Entries>) {
    forall i :: 0 < i < |h| ==> AtMostOneNew(h, i)
  }

  ghost predicate AtMostOneNew(h: seq<Entries>, i: nat)
    requires 0 < i < |h|
  {
    forall k1, k2 :: k1 in h[i] && k2 in h[i] && k1 !in h[i - 1] && k2 !in h[i - 1] ==> k1 == k2
  }

  ghost predicate WinnerOk(s: State, key: Key)
    requires key in s.entries
  {
    key in s.owner && s.owner[key] < |s.threads| &&
    var th := s.threads[s.owner[key]];
    th.Registering? && th.key == key && th.ptr == s.entries[key] && (th.pc.Inserted? || th.pc == Registered(true))
  }

  ghost predicate SawAt(s: State, section: Section, key: Key) {
    section.HasRead? ==> section.at < |s.history| && section.found == Get(s.history[section.at], key)
  }

  ghost predicate ThreadOk(d: Defs, s: State, t: nat)
    requires t < |s.threads|
  {
    match s.threads[t]
    case Registering(key, ptr, pc) =>
      (match pc
       case Tested(present) => present == (key in s.entries)
       case Inserted => key in s.owner && s.owner[key] == t && key in s.entries
       case Registered(true) => key in s.owner && s.owner[key] == t && key in s.entries
       case Registered(false) => key in s.entries && key in s.owner && s.owner[key] != t
       case _ => true)
    case LookingUp(key, pc) =>
      (match pc
       case Reading(section) => SawAt(s, section, key)
       case Got(found, at) => at < |s.history| && found == Get(s.history[at], key))
    case Resolving(name, handler, pc) =>
      (match pc
       case Objects(section) => SawAt(s, section, Key(ObjectKind, name))
       case Workflows(section, at1) =>
         && handler == RUN && at1 < |s.history| && SawAt(s, section, Key(WorkflowKind, name))
         && ObjectAnswer(d, Get(s.history[at1], Key(ObjectKind, name)), handler).None?
         && (section.HasRead? ==> at1 <= section.at)
       case Answered(answer, at1, at2) =>
         at1 <= at2 < |s.history| && answer == Combined(d, s.history[at1], s.history[at2], name, handler))
  }

  ghost predicate Inv(d: Defs, s: State) {
    && LockOk(s) && HistoryOk(s)
    && (forall key :: key in s.entries ==> WinnerOk(s, key))
    && (forall t :: 0 <= t < |s.threads| ==> ThreadOk(d, s, t))
  }

  // ---- every step keeps it ----

  lemma HistoryKeeps(s: State, u: State)
    requires HistoryOk(s) && u.history == s.history + [u.entries] && Extends(s.entries, u.entries)
    requires forall k1, k2 :: k1 in u.entries && k2 in u.entries && k1 !in s.entries && k2 !in s.entries ==> k1 == k2
    ensures HistoryOk(u)
  {
    var n := |s.history|;
    assert forall i :: 0 <= i < n ==> u.history[i] == s.history[i];
    forall i, j | 0 <= i <= j < |u.history|
      ensures Extends(u.history[i], u.history[j])
    {
      if j == n && i < n { assert Extends(s.history[i], s.history[n - 1]); }
    }
    forall i | 0 < i < |u.history|
      ensures AtMostOneNew(u.history, i)
    {
      if i < n { assert AtMostOneNew(s.history, i); }
    }
  }

  /** A step that leaves the entries alone. */
  lemma QuietKeeps(d: Defs, s: State, t: nat, th: Thread, u: State)
    requires Inv(d, s) && t < |s.threads|
    requires u == Record(SetThread(s, t, th)).(writer := u.writer, readers := u.readers)
    requires LockOk(u) && ThreadOk(d, u, t)
    requires s.threads[t].Registering? ==>
               th.Registering? && th.key == s.threads[t].key && th.ptr == s.threads[t].ptr
               && (s.threads[t].pc.Inserted? ==> th.pc == Registered(true)) && !s.threads[t].pc.Registered?
    ensures Inv(d, u)
  {
    HistoryKeeps(s, u);
    assert forall i :: 0 <= i < |s.history| ==> u.history[i] == s.history[i];
    forall key | key in u.entries ensures WinnerOk(u, key) { assert WinnerOk(s, key); }
    forall v | 0 <= v < |u.threads|
      ensures ThreadOk(d, u, v)
    {
      if v != t { assert ThreadOk(d, s, v) && u.threads[v] == s.threads[v]; }
    }
  }

  lemma InsertKeeps(d: Defs, s: State, t: nat)
    requires Inv(d, s) && Enabled(s, t) && s.threads[t].Registering? && s.threads[t].pc == Tested(false)
    ensures Inv(d, Record(RegisterStep(s, t)))
  {
    var u := Record(RegisterStep(s, t));
    var th := s.threads[t];
    assert ThreadOk(d, s, t);
    HistoryKeeps(s, u);
    assert forall i :: 0 <= i < |s.history| ==> u.history[i] == s.history[i];
    forall key | key in u.entries
      ensures WinnerOk(u, key)
    {
      if key != th.key { assert WinnerOk(s, key); }
    }
    forall v | 0 <= v < |u.threads|
      ensures ThreadOk(d, u, v)
    {
      if v != t {
        assert ThreadOk(d, s, v) && u.threads[v] == s.threads[v];
        assert Writing(s.threads[v]) ==> s.writer == Some(v);
      }
    }
  }

  lemma RegisterKeeps(d: Defs, s: State, t: nat)
    requires Inv(d, s) && Enabled(s, t) && s.threads[t].Registering?
    ensures Inv(d, Record(RegisterStep(s, t)))
  {
    if s.threads[t].pc == Tested(false) {
      InsertKeeps(d, s, t);
    } else {
      var u := Record(RegisterStep(s, t));
      assert ThreadOk(d, s, t);
      if s.threads[t].key in s.entries { assert WinnerOk(s, s.threads[t].key); }
      assert LockOk(u);
      QuietKeeps(d, s, t, u.threads[t], u);
    }
  }

  /** Entering, staying in and leaving a read-lock section. */
  lemma ReaderLock(s: State, t: nat, th: Thread, u: State)
    requires LockOk(s) && t < |s.threads| && !s.threads[t].Registering? && !th.Registering?
    requires u == Record(SetThread(s, t, th))
                  .(readers := if SectionOf(th).Outside? then s.readers - {t} else s.readers + {t})
    requires !SectionOf(th).Outside? && SectionOf(s.threads[t]).Outside? ==> s.writer == None
    ensures LockOk(u)
  {
  }

  lemma LookupKeeps(d: Defs, s: State, t: nat)
    requires Inv(d, s) && Enabled(s, t) && s.threads[t].LookingUp?
    ensures Inv(d, Record(LookupStep(s, t)))
  {
    var u := Record(LookupStep(s, t));
    assert ThreadOk(d, s, t);
    assert forall i :: 0 <= i < |s.history| ==> u.history[i] == s.history[i];
    ReaderLock(s, t, u.threads[t], u);
    QuietKeeps(d, s, t, u.threads[t], u);
  }

  lemma ObjectsKeeps(d: Defs, s: State, t: nat)
    requires Inv(d, s) && Enabled(s, t) && s.threads[t].Resolving? && s.threads[t].kpc.Objects?
    ensures Inv(d, Record(ResolveStep(d, s, t)))
  {
    var u := Record(ResolveStep(d, s, t));
    assert ThreadOk(d, s, t);
    assert forall i :: 0 <= i < |s.history| ==> u.history[i] == s.history[i];
    ReaderLock(s, t, u.threads[t], u);
    QuietKeeps(d, s, t, u.threads[t], u);
  }

  lemma WorkflowsThread(d: Defs, s: State, t: nat)
    requires Inv(d, s) && Enabled(s, t) && s.threads[t].Resolving? && s.threads[t].kpc.Workflows?
    ensures ThreadOk(d, Record(ResolveStep(d, s, t)), t)
  {
    var u := Record(ResolveStep(d, s, t));
    assert ThreadOk(d, s, t);
    assert forall i :: 0 <= i < |s.history| ==> u.history[i] == s.history[i];
  }

  lemma WorkflowsKeeps(d: Defs, s: State, t: nat)
    requires Inv(d, s) && Enabled(s, t) && s.threads[t].Resolving? && s.threads[t].kpc.Workflows?
    ensures Inv(d, Record(ResolveStep(d, s, t)))
  {
    var u := Record(ResolveStep(d, s, t));
    WorkflowsThread(d, s, t);
    ReaderLock(s, t, u.threads[t], u);
    QuietKeeps(d, s, t, u.threads[t], u);
  }

  lemma InvStep(d: Defs, s: State, t: nat)
    requires Inv(d, s) && Enabled(s, t)
    ensures Inv(d, Apply(d, s, t))
  {
    match s.threads[t]
    case Registering(_, _, _) => RegisterKeeps(d, s, t);
    case LookingUp(_, _) => LookupKeeps(d, s, t);
    case Resolving(_, _, pc) => if pc.Objects? { ObjectsKeeps(d, s, t); } else { WorkflowsKeeps(d, s, t); }
  }

  lemma {:induction false} InvRun(d: Defs, s: State, run: seq<nat>)
    requires Inv(d, s) && Valid(d, s, run)
    ensures Inv(d, Final(d, s, run))
    decreases run
  {
    if run != [] {
      InvStep(d, s, run[0]);
      InvRun(d, Apply(d, s, run[0]), run[1..]);
    }
  }

  lemma {:induction false} RunConcat(d: Defs, s: State, a: seq<nat>, b: seq<nat>)
    requires Valid(d, s, a) && Valid(d, Final(d, s, a), b)
    ensures Valid(d, s, a + b) && Final(d, s, a + b) == Final(d, Final(d, s, a), b)
    decreases a
  {
    if a == [] {
      assert a + b == b;
    } else {
      assert (a + b)[0] == a[0] && (a + b)[1..] == a[1..] + b;
      RunConcat(d, Apply(d, s, a[0]), a[1..], b);
    }
  }

  lemma InitialInv(d: Defs, s: State)
    requires Initial(s)
    ensures Inv(d, s)
  {
  }

  // ---- the registration race ----

  predicate Contender(s: State, t: nat, key: Key) {
    t < |s.threads| && s.threads[t].Registering? && s.threads[t].key == key
  }

  /** Whatever the interleaving: once every contender for a name has returned, exactly one has succeeded, and
      the registry holds its descriptor. */
  lemma ExactlyOneWins(d: Defs, s0: State, run: seq<nat>, key: Key, t0: nat) returns (winner: nat)
    requires Initial(s0) && Valid(d, s0, run)
    requires var s := Final(d, s0, run);
             Contender(s, t0, key) && forall t: nat :: Contender(s, t, key) ==> s.threads[t].pc.Registered?
    ensures var s := Final(d, s0, run);
            && Contender(s, winner, key) && s.threads[winner].pc == Registered(true)
            && key in s.entries && s.entries[key] == s.threads[winner].ptr
            && forall t: nat :: Contender(s, t, key) && t != winner ==> s.threads[t].pc == Registered(false)
  {
    InitialInv(d, s0);
    InvRun(d, s0, run);
    var s := Final(d, s0, run);
    assert ThreadOk(d, s, t0);
    assert WinnerOk(s, key);
    winner := s.owner[key];
    forall t: nat | Contender(s, t, key) && t != winner
      ensures s.threads[t].pc == Registered(false)
    {
      assert ThreadOk(d, s, t);
    }
  }

  lemma {:induction false} HistoryGrows(d: Defs, s: State, run: seq<nat>)
    requires Valid(d, s, run)
    ensures s.history <= Final(d, s, run).history
    decreases run
  {
    if run != [] {
      HistoryGrows(d, Apply(d, s, run[0]), run[1..]);
    }
  }

  /** A registered descriptor is never replaced or removed. */
  lemma EntriesNeverChange(d: Defs, s: State, run: seq<nat>)
    requires Inv(d, s) && Valid(d, s, run)
    ensures Extends(s.entries, Final(d, s, run).entries)
  {
    InvRun(d, s, run);
    HistoryGrows(d, s, run);
    var u := Final(d, s, run);
    assert u.history[|s.history| - 1] == s.history[|s.history| - 1];
    assert Extends(u.history[|s.history| - 1], u.history[|u.history| - 1]);
  }

  /** Everything the thread has read so far it read at moment n or later. */
  predicate ReadsSince(th: Thread, n: nat) {
    (SectionOf(th).HasRead? ==> n <= SectionOf(th).at) &&
    match th
    case LookingUp(_, Got(_, at)) => n <= at
    case Resolving(_, _, Workflows(_, at1)) => n <= at1
    case Resolving(_, _, Answered(_, at1, at2)) => n <= at1 && n <= at2
    case _ => true
  }

  lemma LookupReads(s: State, t: nat, n: nat)
    requires Enabled(s, t) && s.threads[t].LookingUp? && n < |s.history| && ReadsSince(s.threads[t], n)
    ensures ReadsSince(LookupStep(s, t).threads[t], n)
  {
  }

  lemma ResolveReads(d: Defs, s: State, t: nat, n: nat)
    requires Enabled(s, t) && s.threads[t].Resolving? && n < |s.history| && ReadsSince(s.threads[t], n)
    ensures ReadsSince(ResolveStep(d, s, t).threads[t], n)
  {
  }

  lemma StepReads(d: Defs, s: State, u: nat, t: nat, n: nat)
    requires Enabled(s, u) && t < |s.threads| && n < |s.history| && ReadsSince(s.threads[t], n)
    ensures t < |Apply(d, s, u).threads| && ReadsSince(Apply(d, s, u).threads[t], n)
    ensures n < |Apply(d, s, u).history|
  {
    if u != t {
      assert Apply(d, s, u).threads[t] == s.threads[t];
    } else {
      match s.threads[t]
      case Registering(_, _, _) =>
      case LookingUp(_, _) => LookupReads(s, t, n);
      case Resolving(_, _, _) => ResolveReads(d, s, t, n);
    }
  }

  lemma {:induction false} ReadsWithinCall(d: Defs, s: State, run: seq<nat>, t: nat, n: nat)
    requires Valid(d, s, run) && t < |s.threads| && n < |s.history| && ReadsSince(s.threads[t], n)
    ensures t < |Final(d, s, run).threads| && ReadsSince(Final(d, s, run).threads[t], n)
    decreases run
  {
    if run != [] {
      StepReads(d, s, run[0], t, n);
      ReadsWithinCall(d, Apply(d, s, run[0]), run[1..], t, n);
    }
  }

  /** What a finished lookup read, it read within its call. */
  lemma AnsweredWithinCall(d: Defs, s0: State, run: seq<nat>, more: seq<nat>, t: nat)
    requires Initial(s0) && Valid(d, s0, run) && Valid(d, Final(d, s0, run), more)
    requires t < |Final(d, s0, run).threads| && Fresh(Final(d, s0, run).threads[t])
    ensures Inv(d, Final(d, Final(d, s0, run), more)) && t < |Final(d, Final(d, s0, run), more).threads|
    ensures ReadsSince(Final(d, Final(d, s0, run), more).threads[t], |Final(d, s0, run).history| - 1)
  {
    InitialInv(d, s0);
    InvRun(d, s0, run);
    var s1 := Final(d, s0, run);
    InvRun(d, s1, more);
    ReadsWithinCall(d, s1, more, t, |s1.history| - 1);
  }

  /** A lookup that had not begun after run and is finished after more returned what was registered at one
      moment in between. */
  lemma LookupLinearizes(d: Defs, s0: State, run: seq<nat>, more: seq<nat>, t: nat)
    requires Initial(s0) && Valid(d, s0, run) && Valid(d, Final(d, s0, run), more)
    requires t < |Final(d, s0, run).threads| && Fresh(Final(d, s0, run).threads[t])
    requires var s := Final(d, Final(d, s0, run), more);
             t < |s.threads| && s.threads[t].LookingUp? && s.threads[t].lpc.Got?
    ensures var s := Final(d, Final(d, s0, run), more);
            var at := s.threads[t].lpc.at;
            && |Final(d, s0, run).history| - 1 <= at < |s.history|
            && var key := s.threads[t].key;
               s.threads[t].lpc.found == if key in s.history[at] then Some(s.history[at][key]) else None
  {
    AnsweredWithinCall(d, s0, run, more, t);
    assert ThreadOk(d, Final(d, Final(d, s0, run), more), t);
  }

  // ---- the two-section lookup ----

  /** Some moment from at1 to at2 gives the answer atomically. */
  ghost predicate Linearizable(d: Defs, h: seq<Entries>, at1: nat, at2: nat, name: string, handler: string,
                               answer: (Fn, bool))
    requires at1 <= at2 < |h|
  {
    exists k :: at1 <= k <= at2 && Atomic(d, h[k], name, handler) == answer
  }

  /** Between the two sections a virtual object answering "run" differently was registered, and only after
      it the workflow whose run handler was returned. */
  ghost predicate Torn(d: Defs, h: seq<Entries>, at1: nat, at2: nat, name: string, handler: string)
    requires at1 <= at2 < |h|
  {
    && handler == RUN
    && ObjectAnswer(d, Get(h[at1], Key(ObjectKind, name)), handler).None?
    && RunAnswer(d, Get(h[at2], Key(WorkflowKind, name))).1
    && exists j :: at1 < j <= at2 && TornAt(d, h[j], h[at2], name, handler)
  }

  ghost predicate TornAt(d: Defs, m: Entries, last: Entries, name: string, handler: string) {
    && Key(WorkflowKind, name) !in m
    && ObjectAnswer(d, Get(m, Key(ObjectKind, name)), handler).Some?
    && ObjectAnswer(d, Get(m, Key(ObjectKind, name)), handler).value
       != RunAnswer(d, Get(last, Key(WorkflowKind, name))).0
  }

  lemma ExtendsGet(a: Entries, b: Entries, key: Key)
    requires Extends(a, b)
    ensures Get(a, key).Some? ==> Get(b, key) == Get(a, key)
  {
  }

  lemma TornNotLinearizable(d: Defs, h: seq<Entries>, at1: nat, at2: nat, name: string, handler: string)
    requires Monotone(h) && at1 <= at2 < |h| && Torn(d, h, at1, at2, name, handler)
    ensures !Linearizable(d, h, 0, |h| - 1, name, handler, Combined(d, h[at1], h[at2], name, handler))
  {
    var j :| at1 < j <= at2 && TornAt(d, h[j], h[at2], name, handler);
    var objectKey, workflowKey := Key(ObjectKind, name), Key(WorkflowKind, name);
    forall k | 0 <= k < |h|
      ensures Atomic(d, h[k], name, handler) != Combined(d, h[at1], h[at2], name, handler)
    {
      if k < j {
        ExtendsGet(h[k], h[j], objectKey);
        ExtendsGet(h[k], h[j], workflowKey);
      } else {
        ExtendsGet(h[j], h[k], objectKey);
      }
    }
  }

  lemma NotTornLinearizable(d: Defs, h: seq<Entries>, at1: nat, at2: nat, name: string, handler: string)
    requires Monotone(h) && Gradual(h) && at1 <= at2 < |h| && !Torn(d, h, at1, at2, name, handler)
    ensures Linearizable(d, h, at1, at2, name, handler, Combined(d, h[at1], h[at2], name, handler))
  {
    var objectKey, workflowKey := Key(ObjectKind, name), Key(WorkflowKind, name);
    var answer := Combined(d, h[at1], h[at2], name, handler);
    if ObjectAnswer(d, Get(h[at1], objectKey), handler).Some? || handler != RUN || !answer.1 {
      ExtendsGet(h[at1], h[at2], workflowKey);
      assert Atomic(d, h[at1], name, handler) == answer;
    } else {
      var last := ObjectAnswer(d, Get(h[at2], objectKey), handler);
      if last == None || last == Some(answer.0) {
        assert Atomic(d, h[at2], name, handler) == answer;
      } else {
        var k := FirstAnswering(d, h, at1, at2, objectKey, handler);
        JustBefore(d, h, k, at2, name, handler);
      }
    }
  }

  /** If the workflow was there when the virtual object arrived, the moment before gives the answer. */
  lemma JustBefore(d: Defs, h: seq<Entries>, k: nat, at2: nat, name: string, handler: string)
    requires Monotone(h) && Gradual(h) && 0 < k <= at2 < |h| && handler == RUN
    requires ObjectAnswer(d, Get(h[k - 1], Key(ObjectKind, name)), handler).None?
    requires ObjectAnswer(d, Get(h[k], Key(ObjectKind, name)), handler).Some?
    requires Key(WorkflowKind, name) in h[k]
    ensures Atomic(d, h[k - 1], name, handler) == RunAnswer(d, Get(h[at2], Key(WorkflowKind, name)))
  {
    var objectKey, workflowKey := Key(ObjectKind, name), Key(WorkflowKind, name);
    ExtendsGet(h[k - 1], h[k], objectKey);
    assert AtMostOneNew(h, k);
    assert objectKey !in h[k - 1] && objectKey in h[k];
    assert workflowKey in h[k - 1];
    ExtendsGet(h[k - 1], h[at2], workflowKey);
  }

  /** The first moment at which the virtual object answers. */
  lemma FirstAnswering(d: Defs, h: seq<Entries>, at1: nat, at2: nat, objectKey: Key, handler: string) returns (k: nat)
    requires at1 <= at2 < |h| && ObjectAnswer(d, Get(h[at1], objectKey), handler).None?
    requires ObjectAnswer(d, Get(h[at2], objectKey), handler).Some?
    ensures at1 < k <= at2 && ObjectAnswer(d, Get(h[k], objectKey), handler).Some?
    ensures ObjectAnswer(d, Get(h[k - 1], objectKey), handler).None?
  {
    k := at1 + 1;
    while ObjectAnswer(d, Get(h[k], objectKey), handler).None?
      invariant at1 < k <= at2 && ObjectAnswer(d, Get(h[k - 1], objectKey), handler).None?
      decreases at2 - k
    {
      k := k + 1;
    }
  }

  /** A finished LookupKeyedHandler agrees with the atomic resolution at some moment between its two sections
      if it was not torn, and at no moment of the whole history if it was. */
  lemma KeyedLookupExact(d: Defs, s0: State, run: seq<nat>, t: nat)
    requires Initial(s0) && Valid(d, s0, run) && t < |Final(d, s0, run).threads|
    requires Final(d, s0, run).threads[t].Resolving? && Final(d, s0, run).threads[t].kpc.Answered?
    ensures var s := Final(d, s0, run);
            var th := s.threads[t];
            && th.kpc.at1 <= th.kpc.at2 < |s.history|
            && (Linearizable(d, s.history, th.kpc.at1, th.kpc.at2, th.name, th.handler, th.kpc.answer)
                <==> !Torn(d, s.history, th.kpc.at1, th.kpc.at2, th.name, th.handler))
            && (Linearizable(d, s.history, 0, |s.history| - 1, th.name, th.handler, th.kpc.answer)
                <==> !Torn(d, s.history, th.kpc.at1, th.kpc.at2, th.name, th.handler))
  {
    InitialInv(d, s0);
    InvRun(d, s0, run);
    var s := Final(d, s0, run);
    assert ThreadOk(d, s, t);
    var th := s.threads[t];
    if Torn(d, s.history, th.kpc.at1, th.kpc.at2, th.name, th.handler) {
      TornNotLinearizable(d, s.history, th.kpc.at1, th.kpc.at2, th.name, th.handler);
    } else {
      NotTornLinearizable(d, s.history, th.kpc.at1, th.kpc.at2, th.name, th.handler);
    }
  }

  /** A name of one kind only is never torn. */
  lemma OneKindNotTorn(d: Defs, s: State, at1: nat, at2: nat, name: string, handler: string)
    requires HistoryOk(s) && at1 <= at2 < |s.history|
    requires Key(ObjectKind, name) !in s.entries || Key(WorkflowKind, name) !in s.entries
    ensures !Torn(d, s.history, at1, at2, name, handler)
  {
    assert forall j :: 0 <= j < |s.history| ==> Extends(s.history[j], s.entries);
  }

  /** The condition a caller can see to: the name is not registered both as a virtual object and as a
      workflow by the time the lookup ends. Then the lookup, not begun after run and finished after more,
      takes effect at one moment in between. */
  lemma KeyedLookupLinearizes(d: Defs, s0: State, run: seq<nat>, more: seq<nat>, t: nat)
    requires Initial(s0) && Valid(d, s0, run) && Valid(d, Final(d, s0, run), more)
    requires t < |Final(d, s0, run).threads| && Fresh(Final(d, s0, run).threads[t])
    requires var s := Final(d, Final(d, s0, run), more);
             && t < |s.threads| && s.threads[t].Resolving? && s.threads[t].kpc.Answered?
             && (Key(ObjectKind, s.threads[t].name) !in s.entries || Key(WorkflowKind, s.threads[t].name) !in s.entries)
    ensures var s := Final(d, Final(d, s0, run), more);
            var th := s.threads[t];
            && |Final(d, s0, run).history| - 1 <= th.kpc.at1 <= th.kpc.at2 < |s.history|
            && Linearizable(d, s.history, th.kpc.at1, th.kpc.at2, th.name, th.handler, th.kpc.answer)
  {
    AnsweredWithinCall(d, s0, run, more, t);
    RunConcat(d, s0, run, more);
    KeyedLookupExact(d, s0, run + more, t);
    var s := Final(d, Final(d, s0, run), more);
    var th := s.threads[t];
    OneKindNotTorn(d, s, th.kpc.at1, th.kpc.at2, th.name, th.handler);
  }

  /** Once registration is quiescent between its sections, the lookup is the atomic resolution itself. */
  lemma QuiescentLookupIsAtomic(d: Defs, s0: State, run: seq<nat>, t: nat)
    requires Initial(s0) && Valid(d, s0, run) && t < |Final(d, s0, run).threads|
    requires Final(d, s0, run).threads[t].Resolving? && Final(d, s0, run).threads[t].kpc.Answered?
    requires var s := Final(d, s0, run);
             var pc := s.threads[t].kpc;
             pc.at1 < |s.history| && s.history[pc.at1] == s.entries
    ensures var s := Final(d, s0, run);
            var th := s.threads[t];
            th.kpc.answer == ResolveKeyed(AsView(d, s.entries), th.name, th.handler)
  {
    InitialInv(d, s0);
    InvRun(d, s0, run);
    var s := Final(d, s0, run);
    var th := s.threads[t];
    assert ThreadOk(d, s, t);
    assert Extends(s.history[th.kpc.at1], s.history[th.kpc.at2]) && Extends(s.history[th.kpc.at2], s.entries);
    assert s.history[th.kpc.at2] == s.entries;
    AtomicIsResolveKeyed(d, s.entries, th.name, th.handler);
  }

  // ---- a torn lookup ----

  lemma Go(d: Defs, s0: State, run: seq<nat>, s: State, t: nat) returns (longer: seq<nat>, u: State)
    requires Valid(d, s0, run) && Final(d, s0, run) == s && Enabled(s, t)
    ensures Valid(d, s0, longer) && u == Apply(d, s, t) && Final(d, s0, longer) == u
    ensures u.history == s.history + [u.entries]
  {
    RunConcat(d, s0, run, [t]);
    assert Final(d, Apply(d, s, t), []) == Apply(d, s, t);
    longer, u := run + [t], Apply(d, s, t);
  }

  /** Thread t, alone, registers an absent key. */
  lemma RegisterAlone(d: Defs, s0: State, run0: seq<nat>, s: State, t: nat) returns (run: seq<nat>, u: State)
    requires Valid(d, s0, run0) && Final(d, s0, run0) == s && s.history != []
    requires t < |s.threads| && s.threads[t].Registering? && s.threads[t].pc == Begin
    requires s.writer == None && s.readers == {} && s.threads[t].key !in s.entries
    ensures Valid(d, s0, run) && Final(d, s0, run) == u
    ensures u.writer == None && u.readers == {}
    ensures u.entries == s.entries[s.threads[t].key := s.threads[t].ptr]
    ensures |u.threads| == |s.threads| && forall v :: 0 <= v < |s.threads| && v != t ==> u.threads[v] == s.threads[v]
    ensures s.history < u.history && u.history[|u.history| - 1] == u.entries
  {
    run, u := Go(d, s0, run0, s, t);
    run, u := Go(d, s0, run, u, t);
    run, u := Go(d, s0, run, u, t);
    run, u := Go(d, s0, run, u, t);
  }

  /** A lookup that nobody disturbs finishes, with what is registered. */
  lemma LookupAlone(d: Defs, s0: State, run0: seq<nat>, s: State, t: nat) returns (run: seq<nat>, u: State)
    requires Valid(d, s0, run0) && Final(d, s0, run0) == s && s.history != [] && s.writer == None
    requires t < |s.threads| && s.threads[t].LookingUp? && Fresh(s.threads[t])
    ensures Valid(d, s0, run) && Final(d, s0, run) == u && |u.threads| == |s.threads| && u.entries == s.entries
    ensures u.threads[t].LookingUp? && u.threads[t].lpc.Got?
    ensures var key := s.threads[t].key;
            u.threads[t].lpc.found == if key in s.entries then Some(s.entries[key]) else None
  {
    run, u := Go(d, s0, run0, s, t);
    run, u := Go(d, s0, run, u, t);
    run, u := Go(d, s0, run, u, t);
  }

  const TORN_DEFS := Defs((p: nat) => map[RUN := Fn.Fn(1)], (p: nat) => Fn.Fn(2))
  const TORN_INIT := State(None, {}, map[], map[],
    [Resolving("a", RUN, Objects(Outside)), Registering(Key(ObjectKind, "a"), 1, Begin),
     Registering(Key(WorkflowKind, "a"), 2, Begin)], [map[]])

  lemma FirstSection() returns (run: seq<nat>, s: State)
    ensures Valid(TORN_DEFS, TORN_INIT, run) && Final(TORN_DEFS, TORN_INIT, run) == s
    ensures s.writer == None && s.readers == {} && s.entries == map[] && s.history != [] && s.history[0] == map[]
    ensures s.threads == TORN_INIT.threads[0 := Resolving("a", RUN, Workflows(Outside, 1))]
    ensures |s.history| > 1 && s.history[1] == map[]
  {
    run, s := [], TORN_INIT;
    run, s := Go(TORN_DEFS, TORN_INIT, run, s, 0);
    run, s := Go(TORN_DEFS, TORN_INIT, run, s, 0);
    run, s := Go(TORN_DEFS, TORN_INIT, run, s, 0);
  }

  /** Thread t goes through its second section undisturbed. */
  lemma SecondSection(d: Defs, s0: State, run0: seq<nat>, s: State, t: nat) returns (run: seq<nat>, u: State)
    requires Valid(d, s0, run0) && Final(d, s0, run0) == s && s.writer == None && s.history != []
    requires t < |s.threads| && s.threads[t].Resolving? && s.threads[t].kpc.Workflows?
    requires s.threads[t].kpc.section == Outside
    ensures Valid(d, s0, run) && Final(d, s0, run) == u && s.history <= u.history && |u.threads| == |s.threads|
    ensures var th := s.threads[t];
            var answer := RunAnswer(d, Get(s.entries, Key(WorkflowKind, th.name)));
            u.threads[t] == th.(kpc := Answered(answer, th.kpc.at1, |s.history|))
    ensures |u.history| > |s.history| && u.history[|s.history|] == s.entries
  {
    run, u := Go(d, s0, run0, s, t);
    run, u := Go(d, s0, run, u, t);
    run, u := Go(d, s0, run, u, t);
  }

  /** The virtual object arrives between the sections and the workflow after it: the lookup answers with the
      workflow's run handler, which at no moment of the lookup was what the name resolved to. */
  lemma TornLookupHappens() returns (run: seq<nat>, s: State)
    ensures Initial(TORN_INIT) && Valid(TORN_DEFS, TORN_INIT, run) && Final(TORN_DEFS, TORN_INIT, run) == s
    ensures |s.threads| == 3 && s.threads[0].Resolving? && s.threads[0].kpc.Answered?
    ensures var pc := s.threads[0].kpc;
            pc.at1 <= pc.at2 < |s.history| && pc.answer == (Fn.Fn(2), true)
            && !Linearizable(TORN_DEFS, s.history, 0, |s.history| - 1, "a", RUN, pc.answer)
  {
    var j, at2;
    run, s, j, at2 := TornRun();
    IsTorn(s.history, j, at2);
    KeyedLookupExact(TORN_DEFS, TORN_INIT, run, 0);
  }

  lemma IsTorn(h: seq<Entries>, j: nat, at2: nat)
    requires 1 < j <= at2 < |h| && h[1] == map[] && h[j] == map[Key(ObjectKind, "a") := 1]
    requires h[at2] == map[Key(ObjectKind, "a") := 1, Key(WorkflowKind, "a") := 2]
    ensures Torn(TORN_DEFS, h, 1, at2, "a", RUN)
  {
    assert TornAt(TORN_DEFS, h[j], h[at2], "a", RUN);
  }

  lemma TornRun() returns (run: seq<nat>, s: State, j: nat, at2: nat)
    ensures Valid(TORN_DEFS, TORN_INIT, run) && Final(TORN_DEFS, TORN_INIT, run) == s
    ensures |s.threads| == 3 && s.threads[0] == Resolving("a", RUN, Answered((Fn.Fn(2), true), 1, at2))
    ensures 1 < j <= at2 < |s.history| && s.history[1] == map[] && s.history[j] == map[Key(ObjectKind, "a") := 1]
    ensures s.history[at2] == map[Key(ObjectKind, "a") := 1, Key(WorkflowKind, "a") := 2]
  {
    run, s := FirstSection();
    run, s := RegisterAlone(TORN_DEFS, TORN_INIT, run, s, 1);
    j := |s.history| - 1;
    var h1 := s.history;
    assert h1[1] == map[] && h1[j] == map[Key(ObjectKind, "a") := 1];
    run, s := RegisterAlone(TORN_DEFS, TORN_INIT, run, s, 2);
    at2 := |s.history|;
    assert s.entries == map[Key(ObjectKind, "a") := 1, Key(WorkflowKind, "a") := 2];
    assert h1 < s.history;
    run, s := SecondSection(TORN_DEFS, TORN_INIT, run, s, 0);
    assert h1 < s.history;
    assert s.history[1] == h1[1] && s.history[j] == h1[j];
  }
}
