/** The lossy, delaying, retrying system implements a simple one: a log on which a call may perform one
    atomic compare-last-and-append, once. */
module Refinement {
  import opened Prelude
  import opened Journal
  import opened Protocol
  import opened Guarantees

  /** The simple system: the log, and the calls that have taken their step. */
  datatype Spec = Spec(log: Log, used: set<nat>)

  datatype SpecStep =
    | CompareAppend(call: nat, subject: string, fence: nat, data: seq<Byte>)
    | OtherAppend(r: Record)

  const SPEC_INIT := Spec([], {})

  predicate SpecEnabled(sp: Spec, step: SpecStep) {
    match step
    case CompareAppend(call, subject, fence, data) => call !in sp.used && LastSeq(sp.log, subject) == fence
    case OtherAppend(r) =>
      !r.author.Fat? && (r.fence.Some? ==> LastSeq(sp.log, r.subject) == r.fence.value)
  }

  function SpecApply(sp: Spec, step: SpecStep): Spec {
    match step
    case CompareAppend(call, subject, fence, data) =>
      Spec(sp.log + [Record(subject, data, true, Fat(call, 0), Some(fence))], sp.used + {call})
    case OtherAppend(r) => sp.(log := sp.log + [r])
  }

  predicate SpecValid(sp: Spec, trace: seq<SpecStep>)
    decreases trace
  {
    trace == [] || (SpecEnabled(sp, trace[0]) && SpecValid(SpecApply(sp, trace[0]), trace[1..]))
  }

  function SpecFinal(sp: Spec, trace: seq<SpecStep>): Spec
    decreases trace
  {
    if trace == [] then sp else SpecFinal(SpecApply(sp, trace[0]), trace[1..])
  }

  // ---- the abstraction ----

  function Erase(r: Record): Record {
    if r.author.Fat? then r.(author := Fat(r.author.call, 0)) else r
  }

  function EraseLog(log: Log): Log { seq(|log|, i requires 0 <= i < |log| => Erase(log[i])) }

  ghost function Abs(s: State): Spec {
    Spec(EraseLog(s.log), set i | 0 <= i < |s.log| && s.log[i].author.Fat? :: s.log[i].author.call)
  }

  /** The abstract steps of a concrete one: none, except when something is appended. */
  function Steps(s: State, a: Action): seq<SpecStep>
    requires Enabled(s, a)
  {
    match a
    case Land(m) =>
      var c := s.calls[m.call];
      if FenceHolds(s, c) then [CompareAppend(m.call, Subject(c), c.fence, c.data)] else []
    case EngineAppend(inv, data) => [OtherAppend(Record(SubjectForInv(inv), data, false, Engine, None))]
    case PeerAppend(inv, data, fence, view) =>
      [OtherAppend(Record(SubjectForInv(inv), data, true, Peer, Some(fence)))]
    case _ => []
  }

  function Trace(s: State, run: seq<Action>): seq<SpecStep>
    requires Valid(s, run)
    decreases run
  {
    if run == [] then [] else Steps(s, run[0]) + Trace(Apply(s, run[0]), run[1..])
  }

  lemma EraseKeepsLastSeq(log: Log, subject: string)
    ensures LastSeq(EraseLog(log), subject) == LastSeq(log, subject)
  {
    LastSeqUnique(EraseLog(log), subject, LastSeq(log, subject));
  }

  lemma AbsAppend(s: State, r: Record)
    ensures Abs(Append(s, r)).log == Abs(s).log + [Erase(r)]
    ensures Abs(Append(s, r)).used == if r.author.Fat? then Abs(s).used + {r.author.call} else Abs(s).used
  {
    var t := Append(s, r);
    assert forall i :: 0 <= i < |s.log| ==> t.log[i] == s.log[i];
    assert EraseLog(t.log) == EraseLog(s.log) + [Erase(r)];
    forall x | x in Abs(s).used
      ensures x in Abs(t).used
    {
      var i :| 0 <= i < |s.log| && s.log[i].author.Fat? && s.log[i].author.call == x;
      assert t.log[i].author.Fat? && t.log[i].author.call == x;
    }
    if r.author.Fat? {
      assert t.log[|s.log|] == r;
    }
  }

  /** While the fence of a call holds, the call has not taken its step. */
  lemma FenceHoldsMeansUnused(s: State, k: nat)
    requires Inv(s) && k < |s.calls| && FenceHolds(s, s.calls[k])
    ensures k !in Abs(s).used
  {
    forall i | 0 <= i < |s.log| && s.log[i].author.Fat?
      ensures s.log[i].author.call != k
    {
      assert RecordOk(s, i);
      assert LastSeq(s.log[..i], s.log[i].subject) <= i;
      LastSeqAtLeast(s.log, i);
    }
  }

  lemma StepSimulates(s: State, a: Action)
    requires Inv(s) && Enabled(s, a)
    ensures SpecValid(Abs(s), Steps(s, a)) && SpecFinal(Abs(s), Steps(s, a)) == Abs(Apply(s, a))
  {
    match a {
      case Land(m) =>
        var c := s.calls[m.call];
        if FenceHolds(s, c) {
          EraseKeepsLastSeq(s.log, Subject(c));
          FenceHoldsMeansUnused(s, m.call);
          AbsAppend(s, LandedRecord(s, m));
        }
      case EngineAppend(inv, data) => AbsAppend(s, Record(SubjectForInv(inv), data, false, Engine, None));
      case PeerAppend(inv, data, fence, view) =>
        EraseKeepsLastSeq(s.log, SubjectForInv(inv));
        AbsAppend(s, Record(SubjectForInv(inv), data, true, Peer, Some(fence)));
      case _ =>
    }
  }

  lemma {:induction false} SpecConcat(sp: Spec, a: seq<SpecStep>, b: seq<SpecStep>)
    requires SpecValid(sp, a) && SpecValid(SpecFinal(sp, a), b)
    ensures SpecValid(sp, a + b) && SpecFinal(sp, a + b) == SpecFinal(SpecFinal(sp, a), b)
    decreases a
  {
    if a == [] {
      assert a + b == b;
    } else {
      assert (a + b)[0] == a[0] && (a + b)[1..] == a[1..] + b;
      SpecConcat(SpecApply(sp, a[0]), a[1..], b);
    }
  }

  lemma {:induction false} RunSimulates(s: State, run: seq<Action>)
    requires Inv(s) && Valid(s, run)
    ensures SpecValid(Abs(s), Trace(s, run)) && SpecFinal(Abs(s), Trace(s, run)) == Abs(Final(s, run))
    decreases run
  {
    if run != [] {
      StepSimulates(s, run[0]);
      InvStep(s, run[0]);
      RunSimulates(Apply(s, run[0]), run[1..]);
      SpecConcat(Abs(s), Steps(s, run[0]), Trace(Apply(s, run[0]), run[1..]));
    }
  }

  lemma {:induction false} UsedCallsAreDone(sp: Spec, trace: seq<SpecStep>, j: nat)
    requires SpecValid(sp, trace) && j < |trace| && trace[j].CompareAppend?
    ensures trace[j].call !in sp.used
    decreases trace
  {
    if j > 0 {
      UsedCallsAreDone(SpecApply(sp, trace[0]), trace[1..], j - 1);
    }
  }

  lemma {:induction false} CallsStepOnce(sp: Spec, trace: seq<SpecStep>, i: nat, j: nat)
    requires SpecValid(sp, trace) && i < j < |trace| && trace[i].CompareAppend? && trace[j].CompareAppend?
    ensures trace[i].call != trace[j].call
    decreases trace
  {
    if i == 0 {
      UsedCallsAreDone(SpecApply(sp, trace[0]), trace[1..], j - 1);
    } else {
      CallsStepOnce(SpecApply(sp, trace[0]), trace[1..], i - 1, j - 1);
    }
  }

  lemma {:induction false} LaterFence(sp: Spec, trace: seq<SpecStep>, j: nat)
    requires SpecValid(sp, trace) && j < |trace| && trace[j].CompareAppend?
    ensures LastSeq(sp.log, trace[j].subject) <= trace[j].fence
    decreases trace
  {
    if j > 0 {
      var next := SpecApply(sp, trace[0]);
      LastSeqAppend(sp.log, next.log[|sp.log|], trace[j].subject);
      assert next.log == sp.log + [next.log[|sp.log|]];
      LaterFence(next, trace[1..], j - 1);
    }
  }

  /** The simple system compares before it appends: on one subject, later steps have larger fences. */
  lemma {:induction false} FencesIncrease(sp: Spec, trace: seq<SpecStep>, i: nat, j: nat)
    requires SpecValid(sp, trace) && i < j < |trace| && trace[i].CompareAppend? && trace[j].CompareAppend?
    requires trace[i].subject == trace[j].subject
    ensures trace[i].fence < trace[j].fence
    decreases trace
  {
    if i == 0 {
      var next := SpecApply(sp, trace[0]);
      LastSeqAppend(sp.log, next.log[|sp.log|], trace[0].subject);
      assert next.log == sp.log + [next.log[|sp.log|]];
      LaterFence(next, trace[1..], j - 1);
    } else {
      FencesIncrease(SpecApply(sp, trace[0]), trace[1..], i - 1, j - 1);
    }
  }

  /** A call reported as successful took its step, at the sequence it reports. */
  ghost predicate ReportedTruly(c: Call, k: nat, sp: Spec) {
    c.outcome.Some? && c.outcome.value.Success? ==>
      var q := c.outcome.value.seqNo;
      0 < q <= |sp.log| && sp.log[q - 1].author == Fat(k, 0) && k in sp.used
  }

  /** Every run is a run of the simple system, in which each call takes at most one step and success is
      reported truly. */
  lemma Refines(run: seq<Action>)
    requires Valid(INIT, run)
    ensures var trace := Trace(INIT, run);
            && SpecValid(SPEC_INIT, trace)
            && SpecFinal(SPEC_INIT, trace) == Abs(After(run))
            && forall i, j :: 0 <= i < j < |trace| && trace[i].CompareAppend? && trace[j].CompareAppend? ==>
                 trace[i].call != trace[j].call
    ensures var log, simple := After(run).log, SpecFinal(SPEC_INIT, Trace(INIT, run)).log;
            && |simple| == |log|
            && forall i :: 0 <= i < |log| ==>
                 && simple[i].subject == log[i].subject && simple[i].data == log[i].data
                 && simple[i].terminal == log[i].terminal && simple[i].fence == log[i].fence
    ensures forall k :: 0 <= k < |After(run).calls| ==>
              ReportedTruly(After(run).calls[k], k, SpecFinal(SPEC_INIT, Trace(INIT, run)))
  {
    assert Abs(INIT) == SPEC_INIT;
    RunSimulates(INIT, run);
    InvRun(INIT, run);
    var trace, s := Trace(INIT, run), After(run);
    forall i, j | 0 <= i < j < |trace| && trace[i].CompareAppend? && trace[j].CompareAppend?
      ensures trace[i].call != trace[j].call
    {
      CallsStepOnce(SPEC_INIT, trace, i, j);
    }
    forall k | 0 <= k < |s.calls|
      ensures ReportedTruly(s.calls[k], k, Abs(s))
    {
      assert CallOk(s, k);
    }
  }
}
