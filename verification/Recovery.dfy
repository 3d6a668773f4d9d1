/** The documented recovery from ErrFatConflict: re-read the fence, re-hydrate, check HasTerminal, call
    SubmitResult again. It terminates: foreign appends bound the conflicts. */
module Recovery {
  import opened Prelude
  import opened Journal
  import opened Protocol
  import opened Guarantees

  predicate ConflictOf(c: Call, w: nat, inv: string) {
    c.worker == w && c.inv == inv && c.read && c.outcome.Some? && c.outcome.value.Conflict?
  }

  /** Fence f of worker w on inv lies beyond every fence its calls on inv saw conflict. */
  ghost predicate Beyond(s: State, w: nat, inv: string, f: nat, calls: nat)
    requires calls <= |s.calls|
  {
    forall c :: 0 <= c < calls && ConflictOf(s.calls[c], w, inv) ==> s.calls[c].fence < f
  }

  /** A worker that saw a conflict holds, and uses, only fences beyond the conflicting one. */
  ghost predicate FencesGrow(s: State) {
    && (forall d :: 0 <= d < |s.calls| ==> UsedBeyond(s, d))
    && (forall w :: w in s.workers ==> HeldBeyond(s, w))
  }

  ghost predicate UsedBeyond(s: State, d: nat)
    requires d < |s.calls|
  {
    s.calls[d].read ==> Beyond(s, s.calls[d].worker, s.calls[d].inv, s.calls[d].fence, d)
  }

  ghost predicate HeldBeyond(s: State, w: nat) {
    At(s, w).Preparing? && At(s, w).fence.Some? ==>
      Beyond(s, w, At(s, w).inv, At(s, w).fence.value, |s.calls|)
  }

  lemma SetWorkerGrows(s: State, w: nat, k: Worker)
    requires FencesGrow(s) && HeldBeyond(SetWorker(s, w, k), w)
    ensures FencesGrow(SetWorker(s, w, k))
  {
    var t := SetWorker(s, w, k);
    forall d | 0 <= d < |t.calls|
      ensures UsedBeyond(t, d)
    {
      assert UsedBeyond(s, d);
    }
    forall v | v in t.workers
      ensures HeldBeyond(t, v)
    {
      if v != w { assert HeldBeyond(s, v) && At(t, v) == At(s, v); }
    }
  }

  lemma FencesGrowStep(s: State, a: Action)
    requires Inv(s) && FencesGrow(s) && Enabled(s, a)
    ensures FencesGrow(Apply(s, a))
  {
    match a {
      case ReadFence(w) =>
        var last := LastSeq(s.log, SubjectForInv(At(s, w).inv));
        forall c | 0 <= c < |s.calls| && ConflictOf(s.calls[c], w, At(s, w).inv)
          ensures s.calls[c].fence < last
        {
          assert CallOk(s, c);
        }
        SetWorkerGrows(s, w, At(s, w).(fence := Some(last)));
      case Hydrate(w, n) =>
        assert HeldBeyond(s, w);
        SetWorkerGrows(s, w, At(s, w).(view := Some(n)));
      case Submit(w, fence, data) => SubmitGrows(s, w, fence, data);
      case Publish(w) => PublishGrows(s, w);
      case Respond(w, r) => RespondGrows(s, w, r);
      case Begin(w, inv) => SetWorkerGrows(s, w, Preparing(inv, None, None));
      case Crash(w) => SetWorkerGrows(s, w, Idle);
      case _ => SameCallsGrow(s, Apply(s, a));
    }
  }

  lemma SameCallsGrow(s: State, t: State)
    requires FencesGrow(s) && t.calls == s.calls && t.workers == s.workers
    ensures FencesGrow(t)
  {
    forall d | 0 <= d < |t.calls|
      ensures UsedBeyond(t, d)
    {
      assert UsedBeyond(s, d);
    }
    forall v | v in t.workers ensures HeldBeyond(t, v) { assert HeldBeyond(s, v) && At(t, v) == At(s, v); }
  }

  lemma SubmitGrows(s: State, w: nat, fence: nat, data: seq<Byte>)
    requires Inv(s) && FencesGrow(s) && Enabled(s, Submit(w, fence, data))
    ensures FencesGrow(DoSubmit(s, w, fence, data))
  {
    var t := DoSubmit(s, w, fence, data);
    assert forall c :: 0 <= c < |s.calls| ==> t.calls[c] == s.calls[c];
    assert HeldBeyond(s, w);
    forall d | 0 <= d < |t.calls|
      ensures UsedBeyond(t, d)
    {
      if d < |s.calls| { assert UsedBeyond(s, d); }
    }
    forall v | v in t.workers
      ensures HeldBeyond(t, v)
    {
      if v != w { assert HeldBeyond(s, v) && At(t, v) == At(s, v); }
    }
  }

  lemma PublishGrows(s: State, w: nat)
    requires Inv(s) && FencesGrow(s) && Enabled(s, Publish(w))
    ensures FencesGrow(DoPublish(s, w))
  {
    var t := DoPublish(s, w);
    assert forall c :: 0 <= c < |s.calls| ==> t.calls[c] == s.calls[c].(sent := t.calls[c].sent);
    forall d | 0 <= d < |t.calls|
      ensures UsedBeyond(t, d)
    {
      assert UsedBeyond(s, d);
    }
    forall v | v in t.workers
      ensures HeldBeyond(t, v)
    {
      if v != w { assert HeldBeyond(s, v) && At(t, v) == At(s, v); }
    }
  }

  /** A call that ends in a conflict is the latest of its worker, which then holds no fence. */
  lemma RespondGrows(s: State, w: nat, r: PubResult)
    requires Inv(s) && FencesGrow(s) && Enabled(s, Respond(w, r))
    ensures FencesGrow(DoRespond(s, w, r))
  {
    var t := DoRespond(s, w, r);
    var k := At(s, w).call;
    assert WorkerOk(s, w);
    assert forall c :: 0 <= c < |s.calls| && c != k ==> t.calls[c] == s.calls[c];
    assert t.calls[k] == s.calls[k].(outcome := t.calls[k].outcome);
    forall d | 0 <= d < |t.calls|
      ensures UsedBeyond(t, d)
    {
      assert UsedBeyond(s, d);
    }
    forall v | v in t.workers
      ensures HeldBeyond(t, v)
    {
      if v != w { assert HeldBeyond(s, v) && At(t, v) == At(s, v); }
    }
  }

  lemma {:induction false} FencesGrowRun(s: State, run: seq<Action>)
    requires Inv(s) && FencesGrow(s) && Valid(s, run)
    ensures FencesGrow(Final(s, run))
    decreases run
  {
    if run != [] {
      FencesGrowStep(s, run[0]);
      InvStep(s, run[0]);
      FencesGrowRun(Apply(s, run[0]), run[1..]);
    }
  }

  // ---- counting ----

  lemma {:induction false} InjectionBound(a: set<nat>, b: set<nat>, f: map<nat, nat>)
    requires a <= f.Keys && (forall x :: x in a ==> f[x] in b)
    requires forall x, y :: x in a && y in a && x != y ==> f[x] != f[y]
    ensures |a| <= |b|
    decreases a
  {
    if x :| x in a {
      InjectionBound(a - {x}, b - {f[x]}, f);
    }
  }

  /** The calls of worker w on inv, with a fence it had read, that ended in a conflict. */
  ghost function Conflicts(s: State, w: nat, inv: string): set<nat> {
    set k | 0 <= k < |s.calls| && ConflictOf(s.calls[k], w, inv)
  }

  ghost predicate OwnRecord(s: State, w: nat, i: nat)
    requires i < |s.log|
  {
    s.log[i].author.Fat? && s.log[i].author.call < |s.calls| && s.calls[s.log[i].author.call].worker == w
  }

  /** The records of the subject after sequence base, those of worker w excepted. */
  ghost function Foreign(s: State, w: nat, inv: string, base: nat): set<nat> {
    set i | base <= i < |s.log| && s.log[i].subject == SubjectForInv(inv) && !OwnRecord(s, w, i)
  }

  ghost function Records(s: State, inv: string, base: nat): set<nat> {
    set i | base <= i < |s.log| && s.log[i].subject == SubjectForInv(inv)
  }

  /** Each conflict is answered by its own record: the one right after its fence. */
  lemma ConflictsHaveRecords(s: State, w: nat, inv: string, base: nat)
    requires Inv(s) && FencesGrow(s)
    requires forall k :: k in Conflicts(s, w, inv) ==> base <= s.calls[k].fence
    ensures |Conflicts(s, w, inv)| <= |Records(s, inv, base)|
  {
    var conflicts := Conflicts(s, w, inv);
    forall k | k in conflicts
      ensures exists i :: Successor(s.log, SubjectForInv(inv), s.calls[k].fence, i)
    {
      assert CallOk(s, k);
      var i := SuccessorExists(s.log, SubjectForInv(inv), s.calls[k].fence);
    }
    var next := map k | k in conflicts :: SuccessorOf(s.log, SubjectForInv(inv), s.calls[k].fence);
    forall j, k | j in conflicts && k in conflicts && j < k
      ensures next[j] < next[k]
    {
      LaterConflictLaterRecord(s, w, inv, j, k, next[j], next[k]);
    }
    InjectionBound(conflicts, Records(s, inv, base), next);
  }

  lemma LaterConflictLaterRecord(s: State, w: nat, inv: string, j: nat, k: nat, x: nat, y: nat)
    requires Inv(s) && FencesGrow(s) && j < k < |s.calls|
    requires ConflictOf(s.calls[j], w, inv) && ConflictOf(s.calls[k], w, inv)
    requires Successor(s.log, SubjectForInv(inv), s.calls[j].fence, x)
    requires Successor(s.log, SubjectForInv(inv), s.calls[k].fence, y)
    ensures x < y
  {
    assert UsedBeyond(s, k);
    assert CallOk(s, k);
    assert s.log[s.calls[k].fence - 1].subject == SubjectForInv(inv);
  }

  ghost function SuccessorOf(log: Log, subject: string, n: nat): (i: nat)
    requires exists i: nat :: Successor(log, subject, n, i)
    ensures Successor(log, subject, n, i)
  {
    var i: nat :| Successor(log, subject, n, i);
    i
  }

  lemma OwnNotAfterOwn(s: State, w: nat, inv: string, i: nat, j: nat)
    requires Inv(s) && CallsClean(s, inv, Some(w)) && i < j < |s.log| && OwnRecord(s, w, i) && OwnRecord(s, w, j)
    ensures !(s.log[i].subject == SubjectForInv(inv) && s.log[j].subject == SubjectForInv(inv))
  {
    if s.log[i].subject == SubjectForInv(inv) && s.log[j].subject == SubjectForInv(inv) {
      assert RecordOk(s, i) && RecordOk(s, j);
      var c := s.calls[s.log[j].author.call];
      SubjectInjective(c.inv, inv);
      assert s.log[..j][i] == s.log[i];
      LastSeqAtLeast(s.log[..j], i);
    }
  }

  /** A worker's records are terminal, so once it has one, its guard admits no fence beyond it. */
  lemma OwnAtMostOne(s: State, w: nat, inv: string, base: nat)
    requires Inv(s) && CallsClean(s, inv, Some(w))
    ensures |Records(s, inv, base)| <= |Foreign(s, w, inv, base)| + 1
  {
    var own := Records(s, inv, base) - Foreign(s, w, inv, base);
    assert Records(s, inv, base) == Foreign(s, w, inv, base) + own;
    if i :| i in own {
      forall j | j in own
        ensures j == i
      {
        if i < j { OwnNotAfterOwn(s, w, inv, i, j); }
        if j < i { OwnNotAfterOwn(s, w, inv, j, i); }
      }
      assert own == {i};
    }
  }

  /** A worker that follows the guard on an invocation sees at most one conflict more there than there are
      records of other writers after the first fence it used, whatever those other writers do. */
  lemma BoundedRecovery(run: seq<Action>, w: nat, inv: string, base: nat)
    requires Valid(INIT, run) && GuardedRun(INIT, run, inv, Some(w))
    requires forall k :: k in Conflicts(After(run), w, inv) ==> base <= After(run).calls[k].fence
    ensures |Conflicts(After(run), w, inv)| <= |Foreign(After(run), w, inv, base)| + 1
  {
    InvRun(INIT, run);
    CallsCleanRun(INIT, run, inv, Some(w));
    FencesGrowRun(INIT, run);
    ConflictsHaveRecords(After(run), w, inv, base);
    OwnAtMostOne(After(run), w, inv, base);
  }
}
