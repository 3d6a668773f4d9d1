/** What every run of the fat-mode protocol guarantees. */
module Guarantees {
  import opened Prelude
  import opened Journal
  import opened Protocol

  function After(run: seq<Action>): State
    requires Valid(INIT, run)
  {
    Final(INIT, run)
  }

  lemma {:induction false} LogGrows(s: State, run: seq<Action>)
    requires Valid(s, run)
    ensures s.log <= Final(s, run).log
    ensures |s.calls| <= |Final(s, run).calls|
    decreases run
  {
    if run != [] {
      LogGrows(Apply(s, run[0]), run[1..]);
    }
  }

  /** A call keeps its arguments for ever, and its outcome once it has one. */
  lemma {:induction false} CallsStable(s: State, run: seq<Action>, k: nat)
    requires Inv(s) && Valid(s, run) && k < |s.calls|
    ensures |s.calls| <= |Final(s, run).calls|
    ensures var c, d := s.calls[k], Final(s, run).calls[k];
            d.worker == c.worker && d.inv == c.inv && d.fence == c.fence && d.read == c.read && d.data == c.data
            && (c.outcome.Some? ==> d == c)
    decreases run
  {
    if run != [] {
      var a := run[0];
      if (a.Publish? || a.Respond?) && At(s, a.w).call == k {
        assert WorkerOk(s, a.w);
      }
      LogGrows(s, [a]);
      InvStep(s, a);
      CallsStable(Apply(s, a), run[1..], k);
    }
  }

  // ---- retry idempotence ----

  lemma FencedRecordsDiffer(s: State, i: nat, j: nat)
    requires Inv(s) && i < j < |s.log| && s.log[i].subject == s.log[j].subject
    requires s.log[i].fence.Some? && s.log[j].fence.Some?
    ensures s.log[i].fence.value < s.log[j].fence.value
  {
    assert RecordOk(s, i) && RecordOk(s, j);
    assert s.log[..j][i] == s.log[i];
    LastSeqAtLeast(s.log[..j], i);
  }

  /** Of all publishes ever sent with the same invocation and fence, by any attempts of any calls of any
      workers, at most one is applied, however late they land. */
  lemma RetryIdempotence(run: seq<Action>, i: nat, j: nat)
    requires Valid(INIT, run)
    requires i < |After(run).log| && j < |After(run).log|
    requires var log := After(run).log;
             log[i].subject == log[j].subject && log[i].fence.Some? && log[i].fence == log[j].fence
    ensures i == j
  {
    InvRun(INIT, run);
    if i < j {
      FencedRecordsDiffer(After(run), i, j);
    } else if j < i {
      FencedRecordsDiffer(After(run), j, i);
    }
  }

  /** One call applies at most one of its attempts. */
  lemma OneRecordPerCall(s: State, i: nat, j: nat)
    requires Inv(s) && i < |s.log| && j < |s.log|
    requires s.log[i].author.Fat? && s.log[j].author.Fat? && s.log[i].author.call == s.log[j].author.call
    ensures i == j
  {
    assert RecordOk(s, i) && RecordOk(s, j);
    if i < j {
      FencedRecordsDiffer(s, i, j);
    } else if j < i {
      FencedRecordsDiffer(s, j, i);
    }
  }

  // ---- the shape of the stream ----

  /** A record that SubmitResult lands is never the first of its subject: its immediate predecessor there
      is the record at its fence. */
  lemma LandedAfterFence(run: seq<Action>, i: nat)
    requires Valid(INIT, run) && i < |After(run).log| && After(run).log[i].author.Fat?
    ensures var log := After(run).log;
            var r := log[i];
            r.fence.Some? && 0 < r.fence.value <= i && log[r.fence.value - 1].subject == r.subject
            && Successor(log, r.subject, r.fence.value, i)
  {
    InvRun(INIT, run);
    var s := After(run);
    assert RecordOk(s, i);
    var r := s.log[i];
    assert CallOk(s, r.author.call);
    assert s.log[r.fence.value - 1] == s.log[..i][r.fence.value - 1];
    forall j | r.fence.value <= j < i
      ensures s.log[j].subject != r.subject
    {
      assert s.log[j] == s.log[..i][j];
    }
  }

  /** The invocation whose subject a step appends to, if it appends at all. */
  function Touches(s: State, a: Action): Option<string>
    requires Enabled(s, a)
  {
    match a
    case Land(m) => if FenceHolds(s, s.calls[m.call]) then Some(s.calls[m.call].inv) else None
    case EngineAppend(inv, data) => Some(inv)
    case PeerAppend(inv, data, fence, view) => Some(inv)
    case _ => None
  }

  /** A step moves the last sequence of exactly the invocation it appends to. */
  lemma AppendsAreIsolated(s: State, a: Action, inv: string)
    requires Enabled(s, a)
    ensures var last := LastSeq(Apply(s, a).log, SubjectForInv(inv));
            last == (if Touches(s, a) == Some(inv) then |s.log| + 1 else LastSeq(s.log, SubjectForInv(inv)))
  {
    var t := Apply(s, a);
    if t.log != s.log {
      var r := t.log[|s.log|];
      assert t.log == s.log + [r];
      LastSeqAppend(s.log, r, SubjectForInv(inv));
      if r.subject == SubjectForInv(inv) {
        SubjectInjective(Touches(s, a).value, inv);
      }
    }
  }

  // ---- what the outcome of a call means ----

  /** Success: exactly this call's bytes stand at the returned sequence, right after the fence, for ever. */
  lemma SuccessMeans(run: seq<Action>, more: seq<Action>, k: nat)
    requires Valid(INIT, run) && Valid(After(run), more)
    requires k < |After(run).calls| && After(run).calls[k].outcome.Some? && After(run).calls[k].outcome.value.Success?
    ensures var c := After(run).calls[k];
            var log := Final(After(run), more).log;
            var q := c.outcome.value.seqNo;
            && 0 < q <= |log| && log[q - 1].subject == Subject(c) && log[q - 1].data == c.data
            && LastSeq(log[..q - 1], Subject(c)) == c.fence
            && forall i :: 0 <= i < |log| && log[i].author.Fat? && log[i].author.call == k ==> i == q - 1
  {
    InvRun(INIT, run);
    var s := After(run);
    assert CallOk(s, k);
    var q := s.calls[k].outcome.value.seqNo;
    InvRun(s, more);
    LogGrows(s, more);
    CallsStable(s, more, k);
    var t := Final(s, more);
    assert t.log[q - 1] == s.log[q - 1] && RecordOk(t, q - 1);
    forall i | 0 <= i < |t.log| && t.log[i].author.Fat? && t.log[i].author.call == k
      ensures i == q - 1
    {
      OneRecordPerCall(t, i, q - 1);
    }
  }

  /** Conflict on a fence that LastJournalSeq returned: the fence is stale for ever; the record right after
      it is foreign or was put there by an attempt of this very call; and the call has a record at all exactly
      in the second case. That attempt is an earlier one or, if its publish was delivered twice, the one that
      saw the conflict. */
  lemma ConflictMeans(run: seq<Action>, more: seq<Action>, k: nat) returns (i: nat)
    requires Valid(INIT, run) && Valid(After(run), more)
    requires k < |After(run).calls| && After(run).calls[k].outcome.Some? && After(run).calls[k].outcome.value.Conflict?
    requires After(run).calls[k].read
    ensures var c := After(run).calls[k];
            var log := Final(After(run), more).log;
            && LastSeq(log, Subject(c)) > c.fence
            && i < |After(run).log| && Successor(log, Subject(c), c.fence, i)
            && (log[i].author.Fat? && log[i].author.call == k ==> log[i].author.attempt <= c.outcome.value.attempt)
            && forall j :: 0 <= j < |log| && log[j].author.Fat? && log[j].author.call == k ==> j == i
  {
    InvRun(INIT, run);
    var s := After(run);
    var c := s.calls[k];
    assert CallOk(s, k);
    i := SuccessorExists(s.log, Subject(c), c.fence);
    assert RecordOk(s, i);
    InvRun(s, more);
    LogGrows(s, more);
    CallsStable(s, more, k);
    SuccessorStays(s.log, Final(s, more).log, Subject(c), c.fence, i);
    OwnRecordIsSuccessor(Final(s, more), k, i);
  }

  /** A conflict is final exactly when the stream has reached the fence: a fence that fails can hold later if
      and only if it lies beyond the last sequence of the whole stream, which LastJournalSeq never returns. */
  lemma FenceFinalExact(s: State, c: Call)
    requires !FenceHolds(s, c)
    ensures c.fence <= |s.log| <==> forall more :: Valid(s, more) ==> !FenceHolds(Final(s, more), c)
  {
    forall more | Valid(s, more) && c.fence <= |s.log|
      ensures !FenceHolds(Final(s, more), c)
    {
      LogGrows(s, more);
      ReachedFenceIsFinal(s.log, Final(s, more).log, Subject(c), c.fence);
    }
    if c.fence > |s.log| {
      var more := Reach(s, c.inv, c.fence);
      assert FenceHolds(Final(s, more), c);
    }
  }

  lemma ReachedFenceIsFinal(log: Log, longer: Log, subject: string, fence: nat)
    requires log <= longer && fence <= |log|
    ensures LastSeq(longer, subject) == fence ==> LastSeq(log, subject) == fence
  {
    assert forall i :: 0 <= i < |log| ==> longer[i] == log[i];
  }

  /** Engine appends bring a subject to any sequence beyond the stream's last one. */
  lemma {:induction false} Reach(s: State, inv: string, fence: nat) returns (more: seq<Action>)
    requires |s.log| < fence
    ensures Valid(s, more) && LastSeq(Final(s, more).log, SubjectForInv(inv)) == fence
    decreases fence - |s.log|
  {
    var a := EngineAppend(inv, []);
    more := [a];
    if |s.log| + 1 == fence {
      LastSeqAppend(s.log, Record(SubjectForInv(inv), [], false, Engine, None), SubjectForInv(inv));
      assert Final(Apply(s, a), []) == Apply(s, a);
    } else {
      var rest := Reach(Apply(s, a), inv, fence);
      more := [a] + rest;
      assert more[1..] == rest;
    }
  }

  lemma SuccessorStays(log: Log, longer: Log, subject: string, n: nat, i: nat)
    requires log <= longer && Successor(log, subject, n, i)
    ensures Successor(longer, subject, n, i) && longer[i] == log[i] && LastSeq(longer, subject) > n
  {
    assert forall j :: 0 <= j < |log| ==> longer[j] == log[j];
    LastSeqAtLeast(longer, i);
  }

  lemma OwnRecordIsSuccessor(t: State, k: nat, i: nat)
    requires Inv(t) && k < |t.calls| && Successor(t.log, Subject(t.calls[k]), t.calls[k].fence, i)
    ensures forall j :: 0 <= j < |t.log| && t.log[j].author.Fat? && t.log[j].author.call == k ==> j == i
  {
    forall j | 0 <= j < |t.log| && t.log[j].author.Fat? && t.log[j].author.call == k
      ensures j == i
    {
      assert RecordOk(t, j);
      RecordAtFence(t, j, i);
    }
  }

  /** A record fenced at n is the successor of n. */
  lemma RecordAtFence(s: State, j: nat, i: nat)
    requires j < |s.log| && RecordOk(s, j) && s.log[j].fence.Some?
    requires Successor(s.log, s.log[j].subject, s.log[j].fence.value, i)
    ensures j == i
  {
    forall x | s.log[j].fence.value <= x < j
      ensures s.log[x].subject != s.log[j].subject
    {
      assert s.log[..j][x] == s.log[x];
    }
  }

  /** A call that returned before publishing leaves no record; one that ended in any other way leaves at
      most one, in every continuation. */
  lemma AnyOutcomeAtMostOnce(run: seq<Action>, more: seq<Action>, k: nat)
    requires Valid(INIT, run) && Valid(After(run), more) && k < |After(run).calls|
    ensures var log := Final(After(run), more).log;
            var own := set i | 0 <= i < |log| && log[i].author.Fat? && log[i].author.call == k;
            |own| <= 1 && (After(run).calls[k].fence == 0 ==> own == {})
  {
    InvRun(INIT, run);
    var s := After(run);
    InvRun(s, more);
    CallsStable(s, more, k);
    var t := Final(s, more);
    var own := set i | 0 <= i < |t.log| && t.log[i].author.Fat? && t.log[i].author.call == k;
    if own != {} {
      var i :| i in own;
      forall j | j in own ensures j == i { OneRecordPerCall(t, i, j); }
      assert own == {i};
      assert RecordOk(t, i) && CallOk(t, k);
    }
  }

  // ---- at most one terminal record ----

  /** The rule of the idempotency guard: HasTerminal was false on a snapshot no older than the fence. Other
      terminal writers follow it too. */
  predicate Guarded(s: State, a: Action)
    requires Enabled(s, a)
  {
    match a
    case Submit(w, fence, data) =>
      var p := At(s, w);
      fence == 0 ||
      (p.view.Some? && fence <= p.view.value <= |s.log|
       && !HasTerminal(s.log, p.view.value, SubjectForInv(p.inv)))
    case PeerAppend(inv, data, fence, view) => fence <= view && !HasTerminal(s.log, view, SubjectForInv(inv))
    case _ => true
  }

  /** Is a a terminal write on inv, by worker w or, without w, by any writer? */
  predicate WritesTerminal(s: State, a: Action, inv: string, w: Option<nat>)
    requires Enabled(s, a)
  {
    match a
    case Submit(v, _, _) => At(s, v).inv == inv && (w.None? || v == w.value)
    case PeerAppend(i, _, _, _) => i == inv && w.None?
    case _ => false
  }

  /** The terminal writes of worker w on inv or, without w, of all writers on inv follow the rule. Nothing is
      asked of writes on other invocations or, with w, of other writers. */
  predicate GuardedRun(s: State, run: seq<Action>, inv: string, w: Option<nat>)
    requires Valid(s, run)
    decreases run
  {
    run == [] ||
    ((WritesTerminal(s, run[0], inv, w) ==> Guarded(s, run[0])) && GuardedRun(Apply(s, run[0]), run[1..], inv, w))
  }

  /** Calls on inv, by worker w or, without w, by anybody, have no terminal record at or below their fence. */
  ghost predicate CallsClean(s: State, inv: string, w: Option<nat>) {
    forall k :: 0 <= k < |s.calls| && s.calls[k].inv == inv && (w.None? || s.calls[k].worker == w.value) ==>
      s.calls[k].fence <= |s.log| && !HasTerminal(s.log, s.calls[k].fence, SubjectForInv(inv))
  }

  /** A snapshot reads the same in every extension of the log. */
  lemma PrefixTerminal(log: Log, longer: Log, n: nat, subject: string)
    requires n <= |log| && log <= longer
    ensures HasTerminal(longer, n, subject) == HasTerminal(log, n, subject)
  {
    assert forall i :: 0 <= i < n ==> longer[i] == log[i];
  }

  /** When the fence holds, the whole subject lies at or below it. */
  lemma NothingAboveFence(log: Log, fence: nat, subject: string)
    requires LastSeq(log, subject) == fence
    ensures HasTerminal(log, |log|, subject) == HasTerminal(log, fence, subject)
  {
  }

  lemma SnapshotCoversFence(log: Log, fence: nat, view: nat, subject: string)
    requires fence <= view <= |log| && !HasTerminal(log, view, subject)
    ensures !HasTerminal(log, fence, subject)
  {
  }

  lemma ArgumentsKept(s: State, a: Action, k: nat)
    requires Enabled(s, a) && k < |s.calls|
    ensures k < |Apply(s, a).calls|
    ensures var c, d := s.calls[k], Apply(s, a).calls[k];
            d.worker == c.worker && d.inv == c.inv && d.fence == c.fence
  {
  }

  lemma CallsCleanStep(s: State, a: Action, inv: string, w: Option<nat>)
    requires CallsClean(s, inv, w) && Enabled(s, a) && (WritesTerminal(s, a, inv, w) ==> Guarded(s, a))
    ensures CallsClean(Apply(s, a), inv, w)
  {
    var t := Apply(s, a);
    LogGrows(s, [a]);
    forall k | 0 <= k < |t.calls| && t.calls[k].inv == inv && (w.None? || t.calls[k].worker == w.value)
      ensures t.calls[k].fence <= |t.log| && !HasTerminal(t.log, t.calls[k].fence, SubjectForInv(inv))
    {
      var fence := t.calls[k].fence;
      if k < |s.calls| {
        ArgumentsKept(s, a, k);
      } else if fence != 0 {
        SnapshotCoversFence(s.log, fence, At(s, a.w).view.value, SubjectForInv(inv));
      }
      PrefixTerminal(s.log, t.log, fence, SubjectForInv(inv));
    }
  }

  lemma AppendSingle(log: Log, r: Record, subject: string)
    requires SingleTerminal(log, subject)
    requires r.terminal && r.subject == subject ==> !HasTerminal(log, |log|, subject)
    ensures SingleTerminal(log + [r], subject)
  {
    assert forall i :: 0 <= i < |log| ==> (log + [r])[i] == log[i];
  }

  lemma SingleTerminalStep(s: State, a: Action, inv: string)
    requires CallsClean(s, inv, None) && SingleTerminal(s.log, SubjectForInv(inv))
    requires Enabled(s, a) && (WritesTerminal(s, a, inv, None) ==> Guarded(s, a))
    ensures SingleTerminal(Apply(s, a).log, SubjectForInv(inv))
  {
    var subject := SubjectForInv(inv);
    match a {
      case Land(m) =>
        var c := s.calls[m.call];
        if FenceHolds(s, c) {
          if Subject(c) == subject {
            SubjectInjective(c.inv, inv);
            NothingAboveFence(s.log, c.fence, subject);
          }
          AppendSingle(s.log, LandedRecord(s, m), subject);
        }
      case EngineAppend(i, data) => AppendSingle(s.log, Record(SubjectForInv(i), data, false, Engine, None), subject);
      case PeerAppend(i, data, fence, view) =>
        if SubjectForInv(i) == subject {
          SubjectInjective(i, inv);
          SnapshotCoversFence(s.log, fence, view, subject);
          NothingAboveFence(s.log, fence, subject);
        }
        AppendSingle(s.log, Record(SubjectForInv(i), data, true, Peer, Some(fence)), subject);
      case _ =>
    }
  }

  lemma {:induction false} CallsCleanRun(s: State, run: seq<Action>, inv: string, w: Option<nat>)
    requires CallsClean(s, inv, w) && Valid(s, run) && GuardedRun(s, run, inv, w)
    ensures CallsClean(Final(s, run), inv, w)
    decreases run
  {
    if run != [] {
      CallsCleanStep(s, run[0], inv, w);
      CallsCleanRun(Apply(s, run[0]), run[1..], inv, w);
    }
  }

  lemma {:induction false} SingleTerminalRun(s: State, run: seq<Action>, inv: string)
    requires CallsClean(s, inv, None) && SingleTerminal(s.log, SubjectForInv(inv))
    requires Valid(s, run) && GuardedRun(s, run, inv, None)
    ensures SingleTerminal(Final(s, run).log, SubjectForInv(inv))
    decreases run
  {
    if run != [] {
      CallsCleanStep(s, run[0], inv, None);
      SingleTerminalStep(s, run[0], inv);
      SingleTerminalRun(Apply(s, run[0]), run[1..], inv);
    }
  }

  /** Every run in which the terminal writers of one invocation follow the guard leaves at most one terminal
      record there, whatever crashes, retries, lost acknowledgements and late publishes it contains, and
      whatever writers of other invocations do. */
  lemma SingleTerminalAlways(run: seq<Action>, inv: string)
    requires Valid(INIT, run) && GuardedRun(INIT, run, inv, None)
    ensures SingleTerminal(After(run).log, SubjectForInv(inv))
  {
    SingleTerminalRun(INIT, run, inv);
  }

  /** The guard is exact. For a call submitted in state s with a fence the stream has reached, whatever
      happens next, the moment one of its attempts passes the fence keeps the subject single-terminal if
      and only if it held no terminal record at or below the fence when the call was submitted. */
  lemma GuardExact(s: State, w: nat, fence: nat, data: seq<Byte>, more: seq<Action>, m: Attempt)
    requires Inv(s) && Enabled(s, Submit(w, fence, data)) && fence <= |s.log|
    requires Valid(Apply(s, Submit(w, fence, data)), more) && m.call == |s.calls|
    requires var t := Final(Apply(s, Submit(w, fence, data)), more);
             && Enabled(t, Land(m)) && FenceHolds(t, t.calls[m.call])
             && SingleTerminal(t.log, SubjectForInv(At(s, w).inv))
    ensures var t := Final(Apply(s, Submit(w, fence, data)), more);
            var subject := SubjectForInv(At(s, w).inv);
            SingleTerminal(Apply(t, Land(m)).log, subject) <==> !HasTerminal(s.log, fence, subject)
  {
    var s1 := Apply(s, Submit(w, fence, data));
    InvStep(s, Submit(w, fence, data));
    LogGrows(s1, more);
    CallsStable(s1, more, m.call);
    var t := Final(s1, more);
    var c := t.calls[m.call];
    PrefixTerminal(s.log, t.log, fence, Subject(c));
    NothingAboveFence(t.log, fence, Subject(c));
    LandingExact(t.log, LandedRecord(t, m));
  }

  lemma LandingExact(log: Log, r: Record)
    requires SingleTerminal(log, r.subject) && r.terminal
    ensures SingleTerminal(log + [r], r.subject) <==> !HasTerminal(log, |log|, r.subject)
  {
    var longer := log + [r];
    assert forall i :: 0 <= i < |log| ==> longer[i] == log[i];
    if i :| 0 <= i < |log| && log[i].subject == r.subject && log[i].terminal {
      assert longer[i].terminal && longer[|log|].terminal && longer[i].subject == longer[|log|].subject;
    }
  }
}
