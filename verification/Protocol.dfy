/** The fat-mode terminal-append protocol as a transition system: any number of workers that hydrate,
    read the fence, call SubmitResult, crash and start again; publishes that land late, twice or never;
    acknowledgements that are lost; and other writers on the same stream. */
module Protocol {
  import opened Prelude
  import opened Classifier
  import opened Journal

  const MAX_ATTEMPTS: nat := 3

  /** What js.Publish returns to the retry loop. */
  datatype PubResult = Acked(seqNo: nat) | Failed(err: Error)

  /** What SubmitResult returns. Conflict notes the attempt that saw it. */
  datatype Outcome = Success(seqNo: nat) | Conflict(attempt: nat) | Timeout | Substrate(err: Error) | Usage

  datatype Attempt = Attempt(call: nat, attempt: nat)

  /** The server's answer to one publish. */
  datatype Reply = Applied(to: Attempt, seqNo: nat) | Rejected(to: Attempt)

  /** One SubmitResult call: its arguments, whether the fence is what LastJournalSeq gave the worker, how
      many publishes it has sent, how it ended. */
  datatype Call = Call(
    worker: nat, inv: string, fence: nat, read: bool, data: seq<Byte>, sent: nat, outcome: Option<Outcome>)

  datatype Worker =
    | Idle
    | Preparing(inv: string, view: Option<nat>, fence: Option<nat>)
    | Publishing(call: nat, attempt: nat)
    | Awaiting(call: nat, attempt: nat)

  datatype State = State(
    log: Log, calls: seq<Call>, workers: map<nat, Worker>, inflight: set<Attempt>, replies: set<Reply>)

  const INIT := State([], [], map[], {}, {})

  datatype Action =
    | Begin(w: nat, inv: string)
    | Hydrate(w: nat, n: nat)
    | ReadFence(w: nat)
    | Submit(w: nat, fence: nat, data: seq<Byte>)
    | Publish(w: nat)
    | Land(m: Attempt)
    | Respond(w: nat, r: PubResult)
    | Crash(w: nat)
    | EngineAppend(inv: string, data: seq<Byte>)
    | PeerAppend(inv: string, data: seq<Byte>, fence: nat, view: nat)

  function At(s: State, w: nat): Worker { if w in s.workers then s.workers[w] else Idle }

  function Subject(c: Call): string { SubjectForInv(c.inv) }

  /** One turn of the retry loop: return, or try again. */
  datatype Next = Return(outcome: Outcome) | Retry

  function AfterAttempt(attempt: nat, r: PubResult): Next {
    match r
    case Acked(q) => Return(Success(q))
    case Failed(err) =>
      match Classify(err)
      case Conflict => Return(Outcome.Conflict(attempt))
      case Other => Return(Substrate(err))
      case Transient => if attempt + 1 < MAX_ATTEMPTS then Retry else Return(Timeout)
  }

  /** The server's compare-and-append check for a call. */
  predicate FenceHolds(s: State, c: Call) { LastSeq(s.log, Subject(c)) == c.fence }

  /** An acknowledgement or a conflict text reaches a worker only as the server's answer to the publish it
      is waiting for; every other error can arise at any time. */
  predicate CanRespond(s: State, w: nat, r: PubResult) {
    At(s, w).Awaiting? &&
    var to := Attempt(At(s, w).call, At(s, w).attempt);
    match r
    case Acked(q) => Applied(to, q) in s.replies
    case Failed(err) => Classify(err).Conflict? ==> Rejected(to) in s.replies
  }

  predicate Enabled(s: State, a: Action) {
    match a
    case Begin(w, inv) => At(s, w).Idle?
    case Hydrate(w, n) => At(s, w).Preparing? && n <= |s.log|
    case ReadFence(w) => At(s, w).Preparing?
    case Submit(w, fence, data) => At(s, w).Preparing?
    case Publish(w) => At(s, w).Publishing? && At(s, w).call < |s.calls|
    case Land(m) => m in s.inflight && m.call < |s.calls|
    case Respond(w, r) => CanRespond(s, w, r) && At(s, w).call < |s.calls|
    case Crash(w) => true
    case EngineAppend(inv, data) => true
    case PeerAppend(inv, data, fence, view) => LastSeq(s.log, SubjectForInv(inv)) == fence && view <= |s.log|
  }

  function SetWorker(s: State, w: nat, k: Worker): State { s.(workers := s.workers[w := k]) }

  function Append(s: State, r: Record): State { s.(log := s.log + [r]) }

  function Apply(s: State, a: Action): State
    requires Enabled(s, a)
  {
    match a
    case Begin(w, inv) => SetWorker(s, w, Preparing(inv, None, None))
    case Hydrate(w, n) => SetWorker(s, w, At(s, w).(view := Some(n)))
    case ReadFence(w) => SetWorker(s, w, At(s, w).(fence := Some(LastSeq(s.log, SubjectForInv(At(s, w).inv)))))
    case Submit(w, fence, data) => DoSubmit(s, w, fence, data)
    case Publish(w) => DoPublish(s, w)
    case Land(m) => DoLand(s, m)
    case Respond(w, r) => DoRespond(s, w, r)
    case Crash(w) => SetWorker(s, w, Idle)
    case EngineAppend(inv, data) => Append(s, Record(SubjectForInv(inv), data, false, Engine, None))
    case PeerAppend(inv, data, fence, view) =>
      Append(s, Record(SubjectForInv(inv), data, true, Peer, Some(fence)))
  }

  /** A zero fence is refused before anything is published. */
  function DoSubmit(s: State, w: nat, fence: nat, data: seq<Byte>): State
    requires Enabled(s, Submit(w, fence, data))
  {
    var p := At(s, w);
    var c := Call(w, p.inv, fence, p.fence == Some(fence), data, 0, if fence == 0 then Some(Usage) else None);
    SetWorker(s.(calls := s.calls + [c]), w, if fence == 0 then Idle else Publishing(|s.calls|, 0))
  }

  function DoPublish(s: State, w: nat): State
    requires Enabled(s, Publish(w))
  {
    var p := At(s, w);
    var c := s.calls[p.call];
    SetWorker(s.(inflight := s.inflight + {Attempt(p.call, p.attempt)},
                 calls := s.calls[p.call := c.(sent := p.attempt + 1)]),
              w, Awaiting(p.call, p.attempt))
  }

  function LandedRecord(s: State, m: Attempt): Record
    requires m.call < |s.calls|
  {
    var c := s.calls[m.call];
    Record(Subject(c), c.data, true, Fat(m.call, m.attempt), Some(c.fence))
  }

  /** A publish stays in flight: it can be delivered again, any number of times, and is checked every time. */
  function DoLand(s: State, m: Attempt): State
    requires Enabled(s, Land(m))
  {
    if FenceHolds(s, s.calls[m.call]) then
      Append(s, LandedRecord(s, m)).(replies := s.replies + {Applied(m, |s.log| + 1)})
    else s.(replies := s.replies + {Rejected(m)})
  }

  function DoRespond(s: State, w: nat, r: PubResult): State
    requires Enabled(s, Respond(w, r))
  {
    var p := At(s, w);
    match AfterAttempt(p.attempt, r)
    case Return(outcome) =>
      SetWorker(s.(calls := s.calls[p.call := s.calls[p.call].(outcome := Some(outcome))]), w, Idle)
    case Retry => SetWorker(s, w, Publishing(p.call, p.attempt + 1))
  }

  // ---- runs ----

  predicate Valid(s: State, run: seq<Action>)
    decreases run
  {
    run == [] || (Enabled(s, run[0]) && Valid(Apply(s, run[0]), run[1..]))
  }

  function Final(s: State, run: seq<Action>): State
    requires Valid(s, run)
    decreases run
  {
    if run == [] then s else Final(Apply(s, run[0]), run[1..])
  }

  lemma {:induction false} RunConcat(s: State, a: seq<Action>, b: seq<Action>)
    requires Valid(s, a) && Valid(Final(s, a), b)
    ensures Valid(s, a + b) && Final(s, a + b) == Final(Final(s, a), b)
    decreases a
  {
    if a == [] {
      assert a + b == b;
    } else {
      assert (a + b)[0] == a[0] && (a + b)[1..] == a[1..] + b;
      RunConcat(Apply(s, a[0]), a[1..], b);
    }
  }

  // ---- the invariant of every run ----

  /** A fenced record follows the record at its fence; a call's record carries the call's arguments. */
  ghost predicate RecordOk(s: State, i: nat)
    requires i < |s.log|
  {
    var r := s.log[i];
    && (r.fence.Some? ==> r.fence.value == LastSeq(s.log[..i], r.subject))
    && (r.author.Engine? ==> !r.terminal)
    && (r.author.Fat? ==>
          && r.author.call < |s.calls|
          && var c := s.calls[r.author.call];
             r.author.attempt < c.sent && r.subject == Subject(c) && r.data == c.data && r.terminal
             && r.fence == Some(c.fence))
  }

  ghost predicate InflightOk(s: State, m: Attempt) {
    m.call < |s.calls| && m.attempt < s.calls[m.call].sent
  }

  predicate Stale(s: State, c: Call) { LastSeq(s.log, Subject(c)) > c.fence }

  ghost predicate ReplyOk(s: State, r: Reply) {
    r.to.call < |s.calls| && r.to.attempt < s.calls[r.to.call].sent &&
    match r
    case Applied(to, q) => 0 < q <= |s.log| && s.log[q - 1].author == Fat(to.call, to.attempt)
    case Rejected(to) => s.calls[to.call].read ==> Stale(s, s.calls[to.call])
  }

  /** A fence read by LastJournalSeq: 0, or the sequence of a record of the subject. */
  ghost predicate FenceRead(s: State, subject: string, fence: nat) {
    fence <= |s.log| && (fence > 0 ==> s.log[fence - 1].subject == subject)
  }

  ghost predicate CallOk(s: State, k: nat)
    requires k < |s.calls|
  {
    var c := s.calls[k];
    && c.sent <= MAX_ATTEMPTS
    && (c.read ==> FenceRead(s, Subject(c), c.fence))
    && (c.fence == 0 ==> c.outcome == Some(Usage) && c.sent == 0)
    && (c.outcome.Some? ==> OutcomeOk(s, k, c.outcome.value))
  }

  ghost predicate OutcomeOk(s: State, k: nat, o: Outcome)
    requires k < |s.calls|
  {
    var c := s.calls[k];
    match o
    case Success(q) => 0 < q <= |s.log| && s.log[q - 1].author.Fat? && s.log[q - 1].author.call == k
    case Conflict(last) => (c.read ==> Stale(s, c)) && c.sent == last + 1
    case Timeout => c.sent == MAX_ATTEMPTS
    case Substrate(err) => Classify(err).Other?
    case Usage => c.fence == 0
  }

  ghost predicate WorkerOk(s: State, w: nat) {
    match At(s, w)
    case Idle => true
    case Preparing(inv, view, fence) =>
      (view.Some? ==> view.value <= |s.log|) && (fence.Some? ==> FenceRead(s, SubjectForInv(inv), fence.value))
    case Publishing(k, attempt) => Running(s, w, k) && attempt < MAX_ATTEMPTS && s.calls[k].sent == attempt
    case Awaiting(k, attempt) => Running(s, w, k) && attempt < MAX_ATTEMPTS && s.calls[k].sent == attempt + 1
  }

  /** Worker w is inside call k: its latest call, still without an outcome. */
  ghost predicate Running(s: State, w: nat, k: nat) {
    k < |s.calls| && s.calls[k].worker == w && s.calls[k].outcome.None? && s.calls[k].fence > 0
    && forall j :: k < j < |s.calls| ==> s.calls[j].worker != w
  }

  ghost predicate Inv(s: State) {
    && (forall i :: 0 <= i < |s.log| ==> RecordOk(s, i))
    && (forall m :: m in s.inflight ==> InflightOk(s, m))
    && (forall r :: r in s.replies ==> ReplyOk(s, r))
    && (forall k :: 0 <= k < |s.calls| ==> CallOk(s, k))
    && (forall w :: w in s.workers ==> WorkerOk(s, w))
  }

  // ---- every step keeps it ----

  lemma AppendKeeps(s: State, r: Record)
    requires Inv(s) && RecordOk(Append(s, r), |s.log|)
    ensures Inv(Append(s, r))
  {
    var t := Append(s, r);
    forall i | 0 <= i < |t.log|
      ensures RecordOk(t, i)
    {
      if i < |s.log| {
        assert RecordOk(s, i);
        assert t.log[..i] == s.log[..i] && t.log[i] == s.log[i];
      }
    }
    forall subject: string
      ensures LastSeq(t.log, subject) >= LastSeq(s.log, subject)
    {
      LastSeqAppend(s.log, r, subject);
    }
    forall m | m in t.inflight ensures InflightOk(t, m) { assert InflightOk(s, m); }
    forall y | y in t.replies ensures ReplyOk(t, y) { assert ReplyOk(s, y); }
    forall k | 0 <= k < |t.calls| ensures CallOk(t, k) { assert CallOk(s, k); }
    forall w | w in t.workers ensures WorkerOk(t, w) { assert WorkerOk(s, w); }
  }

  lemma SetWorkerKeeps(s: State, w: nat, k: Worker)
    requires Inv(s) && WorkerOk(SetWorker(s, w, k), w)
    ensures Inv(SetWorker(s, w, k))
  {
    var t := SetWorker(s, w, k);
    forall i | 0 <= i < |t.log| ensures RecordOk(t, i) { assert RecordOk(s, i); }
    forall m | m in t.inflight ensures InflightOk(t, m) { assert InflightOk(s, m); }
    forall y | y in t.replies ensures ReplyOk(t, y) { assert ReplyOk(s, y); }
    forall c | 0 <= c < |t.calls| ensures CallOk(t, c) { assert CallOk(s, c); }
    forall v | v in t.workers
      ensures WorkerOk(t, v)
    {
      if v != w { assert WorkerOk(s, v) && At(t, v) == At(s, v); }
    }
  }

  lemma LandKeeps(s: State, m: Attempt)
    requires Inv(s) && Enabled(s, Land(m))
    ensures Inv(DoLand(s, m))
  {
    assert InflightOk(s, m) && CallOk(s, m.call);
    if FenceHolds(s, s.calls[m.call]) {
      ApplyKeeps(s, m);
    } else {
      if s.calls[m.call].read {
        FenceBelowLast(s, m.call);
      }
      ReplyKeeps(s, Rejected(m));
    }
  }

  lemma ApplyKeeps(s: State, m: Attempt)
    requires Inv(s) && m.call < |s.calls| && m.attempt < s.calls[m.call].sent && FenceHolds(s, s.calls[m.call])
    ensures Inv(Append(s, LandedRecord(s, m)).(replies := s.replies + {Applied(m, |s.log| + 1)}))
  {
    var r := LandedRecord(s, m);
    var u := Append(s, r);
    assert u.log[..|s.log|] == s.log && u.log[|s.log|] == r;
    AppendKeeps(s, r);
    ReplyKeeps(u, Applied(m, |s.log| + 1));
  }

  /** A fence that LastJournalSeq returned is never ahead of the subject. */
  lemma FenceBelowLast(s: State, k: nat)
    requires k < |s.calls| && CallOk(s, k) && s.calls[k].read
    ensures s.calls[k].fence <= LastSeq(s.log, Subject(s.calls[k]))
  {
    var c := s.calls[k];
    if c.fence > 0 {
      LastSeqAtLeast(s.log, c.fence - 1);
    }
  }

  lemma ReplyKeeps(s: State, y: Reply)
    requires Inv(s) && ReplyOk(s, y)
    ensures Inv(s.(replies := s.replies + {y}))
  {
    var t := s.(replies := s.replies + {y});
    forall i | 0 <= i < |t.log| ensures RecordOk(t, i) { assert RecordOk(s, i); }
    forall m | m in t.inflight ensures InflightOk(t, m) { assert InflightOk(s, m); }
    forall z | z in t.replies ensures ReplyOk(t, z) { if z != y { assert ReplyOk(s, z); } }
    forall c | 0 <= c < |t.calls| ensures CallOk(t, c) { assert CallOk(s, c); }
    forall v | v in t.workers ensures WorkerOk(t, v) { assert WorkerOk(s, v); }
  }

  lemma SubmitKeeps(s: State, w: nat, fence: nat, data: seq<Byte>)
    requires Inv(s) && Enabled(s, Submit(w, fence, data))
    ensures Inv(DoSubmit(s, w, fence, data))
  {
    var t := DoSubmit(s, w, fence, data);
    assert WorkerOk(s, w);
    assert forall k :: 0 <= k < |s.calls| ==> t.calls[k] == s.calls[k];
    forall i | 0 <= i < |t.log| ensures RecordOk(t, i) { assert RecordOk(s, i); }
    forall m | m in t.inflight ensures InflightOk(t, m) { assert InflightOk(s, m); }
    forall z | z in t.replies ensures ReplyOk(t, z) { assert ReplyOk(s, z); }
    forall c | 0 <= c < |t.calls| ensures CallOk(t, c) { if c < |s.calls| { assert CallOk(s, c); } }
    forall v | v in t.workers
      ensures WorkerOk(t, v)
    {
      if v != w { assert WorkerOk(s, v) && At(t, v) == At(s, v); }
    }
  }

  lemma PublishKeeps(s: State, w: nat)
    requires Inv(s) && Enabled(s, Publish(w))
    ensures Inv(DoPublish(s, w))
  {
    var t := DoPublish(s, w);
    var p := At(s, w);
    assert WorkerOk(s, w) && CallOk(s, p.call);
    forall i | 0 <= i < |t.log| ensures RecordOk(t, i) { assert RecordOk(s, i); }
    forall z | z in t.replies ensures ReplyOk(t, z) { assert ReplyOk(s, z); }
    forall m | m in t.inflight ensures InflightOk(t, m) { if m in s.inflight { assert InflightOk(s, m); } }
    forall c | 0 <= c < |t.calls| ensures CallOk(t, c) { assert CallOk(s, c); }
    forall v | v in t.workers
      ensures WorkerOk(t, v)
    {
      if v != w { assert WorkerOk(s, v) && At(t, v) == At(s, v); }
    }
  }

  lemma RespondKeeps(s: State, w: nat, r: PubResult)
    requires Inv(s) && Enabled(s, Respond(w, r))
    ensures Inv(DoRespond(s, w, r))
  {
    var p := At(s, w);
    var to := Attempt(p.call, p.attempt);
    assert WorkerOk(s, w) && CallOk(s, p.call);
    match AfterAttempt(p.attempt, r)
    case Retry => SetWorkerKeeps(s, w, Publishing(p.call, p.attempt + 1));
    case Return(outcome) =>
      if r.Acked? {
        assert ReplyOk(s, Applied(to, r.seqNo));
      } else if outcome.Conflict? {
        assert ReplyOk(s, Rejected(to));
      }
      assert OutcomeOk(s, p.call, outcome);
      ReturnKeeps(s, w, p.call, outcome);
  }

  lemma ReturnKeeps(s: State, w: nat, k: nat, outcome: Outcome)
    requires Inv(s) && Running(s, w, k) && OutcomeOk(s, k, outcome)
    ensures Inv(SetWorker(s.(calls := s.calls[k := s.calls[k].(outcome := Some(outcome))]), w, Idle))
  {
    var t := SetWorker(s.(calls := s.calls[k := s.calls[k].(outcome := Some(outcome))]), w, Idle);
    forall i | 0 <= i < |t.log| ensures RecordOk(t, i) { assert RecordOk(s, i); }
    forall m | m in t.inflight ensures InflightOk(t, m) { assert InflightOk(s, m); }
    forall z | z in t.replies ensures ReplyOk(t, z) { assert ReplyOk(s, z); }
    forall c | 0 <= c < |t.calls| ensures CallOk(t, c) { assert CallOk(s, c); }
    forall v | v in t.workers
      ensures WorkerOk(t, v)
    {
      if v != w { assert WorkerOk(s, v) && At(t, v) == At(s, v); }
    }
  }

  lemma InvStep(s: State, a: Action)
    requires Inv(s) && Enabled(s, a)
    ensures Inv(Apply(s, a))
  {
    match a
    case Begin(w, inv) => SetWorkerKeeps(s, w, Preparing(inv, None, None));
    case Hydrate(w, n) =>
      assert WorkerOk(s, w);
      SetWorkerKeeps(s, w, At(s, w).(view := Some(n)));
    case ReadFence(w) =>
      assert WorkerOk(s, w);
      SetWorkerKeeps(s, w, At(s, w).(fence := Some(LastSeq(s.log, SubjectForInv(At(s, w).inv)))));
    case Submit(w, fence, data) => SubmitKeeps(s, w, fence, data);
    case Publish(w) => PublishKeeps(s, w);
    case Land(m) => LandKeeps(s, m);
    case Respond(w, r) => RespondKeeps(s, w, r);
    case Crash(w) => SetWorkerKeeps(s, w, Idle);
    case EngineAppend(inv, data) => AppendKeeps(s, Record(SubjectForInv(inv), data, false, Engine, None));
    case PeerAppend(inv, data, fence, view) =>
      assert (s.log + [Record(SubjectForInv(inv), data, true, Peer, Some(fence))])[..|s.log|] == s.log;
      AppendKeeps(s, Record(SubjectForInv(inv), data, true, Peer, Some(fence)));
  }

  lemma {:induction false} InvRun(s: State, run: seq<Action>)
    requires Inv(s) && Valid(s, run)
    ensures Inv(Final(s, run))
    decreases run
  {
    if run != [] {
      InvStep(s, run[0]);
      InvRun(Apply(s, run[0]), run[1..]);
    }
  }
}
