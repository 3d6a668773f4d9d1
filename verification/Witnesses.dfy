/** Concrete runs of the fat-mode protocol: why the order of guard and fence matters, and what an
    ErrFatConflict or ErrFatTimeout does not exclude. */
module Witnesses {
  import opened Prelude
  import opened Classifier
  import opened Journal
  import opened Protocol
  import opened Guarantees

  /** The guard without the ordering: HasTerminal was false on some snapshot of the log. */
  predicate Checked(s: State, a: Action)
    requires Enabled(s, a)
  {
    a.Submit? ==>
      var p := At(s, a.w);
      p.view.Some? && p.view.value <= |s.log| && !HasTerminal(s.log, p.view.value, SubjectForInv(p.inv))
  }

  predicate CheckedRun(s: State, run: seq<Action>)
    requires Valid(s, run)
    decreases run
  {
    run == [] || (Checked(s, run[0]) && CheckedRun(Apply(s, run[0]), run[1..]))
  }

  lemma {:induction false} CheckedConcat(s: State, run: seq<Action>, a: Action)
    requires Valid(s, run) && CheckedRun(s, run) && Enabled(Final(s, run), a) && Checked(Final(s, run), a)
    ensures Valid(s, run + [a]) && CheckedRun(s, run + [a]) && Final(s, run + [a]) == Apply(Final(s, run), a)
    decreases run
  {
    if run == [] {
      assert run + [a] == [a];
    } else {
      assert (run + [a])[0] == run[0] && (run + [a])[1..] == run[1..] + [a];
      CheckedConcat(Apply(s, run[0]), run[1..], a);
    }
  }

  lemma Go(run: seq<Action>, s: State, a: Action) returns (longer: seq<Action>, t: State)
    requires Valid(INIT, run) && CheckedRun(INIT, run) && After(run) == s && Enabled(s, a) && Checked(s, a)
    ensures longer == run + [a] && Valid(INIT, longer) && CheckedRun(INIT, longer)
    ensures t == Apply(s, a) && After(longer) == t
  {
    CheckedConcat(INIT, run, a);
    longer, t := run + [a], Apply(s, a);
  }

  const TIMEOUT_ERROR := Error("timeout", true)
  const CONFLICT_ERROR := Error("wrong last sequence", false)

  lemma ErrorClasses()
    ensures Classify(TIMEOUT_ERROR).Transient? && Classify(CONFLICT_ERROR).Conflict?
  {
    assert OccursAt(CONFLICT_ERROR.text, "wrong last sequence", 0);
    ThirdTextSubsumed("timeout", true);
    ShortText("timeout", "wrong last msg seq");
    ShortText("timeout", "wrong last sequence");
  }

  lemma ShortText(s: string, sub: string)
    requires |s| < |sub|
    ensures !Contains(s, sub)
  {
  }

  /** A worker has journalled its start and read the fence. */
  lemma Prepared(w: nat) returns (run: seq<Action>, s: State)
    ensures Valid(INIT, run) && CheckedRun(INIT, run) && After(run) == s
    ensures |s.log| == 1 && s.log[0].subject == SubjectForInv("i") && !s.log[0].terminal
    ensures s.calls == [] && s.inflight == {} && s.replies == {}
    ensures s.workers == map[w := Preparing("i", Some(1), Some(1))]
  {
    run, s := [], INIT;
    run, s := Go(run, s, EngineAppend("i", []));
    run, s := Go(run, s, Begin(w, "i"));
    run, s := Go(run, s, Hydrate(w, 1));
    run, s := Go(run, s, ReadFence(w));
  }

  /** The prepared worker submits its result and the publish lands. */
  lemma Landed(run0: seq<Action>, s0: State, data: seq<Byte>) returns (run: seq<Action>, s: State)
    requires Valid(INIT, run0) && CheckedRun(INIT, run0) && After(run0) == s0
    requires |s0.log| == 1 && s0.log[0].subject == SubjectForInv("i") && !s0.log[0].terminal
    requires s0.calls == [] && s0.inflight == {} && At(s0, 1) == Preparing("i", Some(1), Some(1))
    ensures Valid(INIT, run) && CheckedRun(INIT, run) && After(run) == s
    ensures s.log == s0.log + [Record(SubjectForInv("i"), data, true, Fat(0, 0), Some(1))]
    ensures |s.calls| == 1 && s.calls[0] == Call(1, "i", 1, true, data, 1, None) && s.inflight == {Attempt(0, 0)}
    ensures s.replies == s0.replies + {Applied(Attempt(0, 0), |s.log|)}
    ensures At(s, 1) == Awaiting(0, 0) && forall w :: w != 1 ==> At(s, w) == At(s0, w)
  {
    run, s := Go(run0, s0, Submit(1, 1, data));
    run, s := Go(run, s, Publish(1));
    run, s := Go(run, s, Land(Attempt(0, 0)));
  }

  /** Reading the fence after the guarded snapshot is not enough: two workers both check HasTerminal, the
      second reads its fence once the first has finished, and both results are journalled. */
  lemma FenceNewerThanSnapshotFails()
    ensures exists run :: Valid(INIT, run) && CheckedRun(INIT, run)
              && !SingleTerminal(After(run).log, SubjectForInv("i"))
              && forall k :: 0 <= k < |After(run).calls| ==> After(run).calls[k].read
  {
    var run, s := Prepared(1);
    run, s := Go(run, s, Begin(2, "i"));
    run, s := Go(run, s, Hydrate(2, 1));
    run, s := Landed(run, s, [1]);
    run, s := SecondLands(run, s);
  }

  lemma SecondLands(run0: seq<Action>, s0: State) returns (run: seq<Action>, s: State)
    requires Valid(INIT, run0) && CheckedRun(INIT, run0) && After(run0) == s0
    requires |s0.log| == 2 && s0.log[1].subject == SubjectForInv("i") && s0.log[1].terminal && !s0.log[0].terminal
    requires |s0.calls| == 1 && s0.calls[0].read && At(s0, 2) == Preparing("i", Some(1), None)
    ensures Valid(INIT, run) && CheckedRun(INIT, run) && After(run) == s
    ensures !SingleTerminal(s.log, SubjectForInv("i")) && forall k :: 0 <= k < |s.calls| ==> s.calls[k].read
  {
    run, s := Go(run0, s0, ReadFence(2));
    run, s := Go(run, s, Submit(2, 2, [2]));
    run, s := Go(run, s, Publish(2));
    run, s := Go(run, s, Land(Attempt(1, 0)));
    assert s.log[1] == s0.log[1] && s.log[2].subject == s.log[1].subject && s.log[2].terminal;
  }

  /** A call can return ErrFatConflict although its own result is journalled: the acknowledgement of its
      first attempt was lost, and the retry ran into it. */
  lemma ConflictWithOwnRecord()
    ensures exists run :: Valid(INIT, run)
              && var s := After(run);
                 |s.calls| == 1 && s.calls[0].outcome == Some(Outcome.Conflict(1))
                 && |s.log| == 2 && s.log[1].author == Fat(0, 0)
  {
    ErrorClasses();
    var run, s := Prepared(1);
    run, s := Landed(run, s, [1]);
    run, s := Go(run, s, Respond(1, Failed(TIMEOUT_ERROR)));
    run, s := Go(run, s, Publish(1));
    run, s := Go(run, s, Land(Attempt(0, 1)));
    run, s := Go(run, s, Respond(1, Failed(CONFLICT_ERROR)));
  }

  /** The same can happen to the only attempt of a call: its publish was delivered twice, and the second
      delivery ran into the record of the first. */
  lemma ConflictWithItself()
    ensures exists run :: Valid(INIT, run)
              && var s := After(run);
                 |s.calls| == 1 && s.calls[0].sent == 1 && s.calls[0].outcome == Some(Outcome.Conflict(0))
                 && |s.log| == 2 && s.log[1].author == Fat(0, 0)
  {
    ErrorClasses();
    var run, s := Prepared(1);
    run, s := Landed(run, s, [1]);
    run, s := Go(run, s, Land(Attempt(0, 0)));
    run, s := Go(run, s, Respond(1, Failed(CONFLICT_ERROR)));
  }

  /** One attempt is published and times out; nothing lands. */
  lemma TimesOut(run0: seq<Action>, s0: State, k: nat) returns (run: seq<Action>, s: State)
    requires Valid(INIT, run0) && CheckedRun(INIT, run0) && After(run0) == s0
    requires k < 3 && |s0.calls| == 1 && At(s0, 1) == Publishing(0, k)
    ensures Valid(INIT, run) && CheckedRun(INIT, run) && After(run) == s
    ensures s.log == s0.log && s.inflight == s0.inflight + {Attempt(0, k)} && |s.calls| == 1
    ensures s.calls[0].inv == s0.calls[0].inv && s.calls[0].fence == s0.calls[0].fence
    ensures k < 2 ==> At(s, 1) == Publishing(0, k + 1)
    ensures k == 2 ==> s.calls[0].outcome == Some(Timeout)
  {
    ErrorClasses();
    run, s := Go(run0, s0, Publish(1));
    run, s := Go(run, s, Respond(1, Failed(TIMEOUT_ERROR)));
  }

  /** A publish can land after its call has returned ErrFatTimeout. */
  lemma LandsAfterTimeout()
    ensures exists run, last :: Valid(INIT, run + [last])
              && Valid(INIT, run) && After(run).calls != [] && After(run).calls[0].outcome == Some(Timeout)
              && |After(run).log| == 1 && |After(run + [last]).log| == 2
  {
    var run, s := Prepared(1);
    run, s := Go(run, s, Submit(1, 1, [1]));
    run, s := TimesOut(run, s, 0);
    run, s := TimesOut(run, s, 1);
    run, s := TimesOut(run, s, 2);
    var longer, t := Go(run, s, Land(Attempt(0, 0)));
    assert longer == run + [Land(Attempt(0, 0))];
  }

  /** The prepared worker has published its result; nothing has been delivered yet. */
  lemma Published() returns (run: seq<Action>, s: State)
    ensures Valid(INIT, run) && CheckedRun(INIT, run) && After(run) == s
    ensures |s.log| == 1 && s.log[0].subject == SubjectForInv("i") && !s.log[0].terminal && s.replies == {}
    ensures s.calls == [Call(1, "i", 1, true, [1], 1, None)] && s.inflight == {Attempt(0, 0)}
    ensures At(s, 1) == Awaiting(0, 0)
  {
    run, s := Prepared(1);
    run, s := Go(run, s, Submit(1, 1, [1]));
    run, s := Go(run, s, Publish(1));
  }

  /** Nor does a crash recall what is in flight: a publish can land after its worker has crashed and begun
      again, and its call never gets an outcome. */
  lemma LandsAfterCrash()
    ensures exists run, last :: Valid(INIT, run + [last])
              && Valid(INIT, run) && At(After(run), 1).Preparing? && |After(run).log| == 1
              && var s := After(run + [last]);
                 |s.calls| == 1 && s.calls[0].outcome == None && |s.log| == 2 && s.log[1].author == Fat(0, 0)
  {
    var run, s := Published();
    run, s := Go(run, s, Crash(1));
    run, s := Go(run, s, Begin(1, "i"));
    var last := Land(Attempt(0, 0));
    var longer, t := Go(run, s, last);
    assert longer == run + [last];
    assert |t.calls| == 1 && t.calls[0].outcome == None && |t.log| == 2 && t.log[1].author == Fat(0, 0);
    assert At(After(run), 1).Preparing? && After(run + [last]) == t;
  }

  lemma {:induction false} GuardedConcat(s: State, run: seq<Action>, a: Action, inv: string)
    requires Valid(s, run) && GuardedRun(s, run, inv, None) && Enabled(Final(s, run), a) && Valid(s, run + [a])
    requires WritesTerminal(Final(s, run), a, inv, None) ==> Guarded(Final(s, run), a)
    ensures GuardedRun(s, run + [a], inv, None)
    decreases run
  {
    if run == [] {
      assert run + [a] == [a];
    } else {
      assert (run + [a])[0] == run[0] && (run + [a])[1..] == run[1..] + [a];
      GuardedConcat(Apply(s, run[0]), run[1..], a, inv);
    }
  }

  lemma GoGuarded(run: seq<Action>, s: State, a: Action) returns (longer: seq<Action>, t: State)
    requires Valid(INIT, run) && CheckedRun(INIT, run) && After(run) == s && Enabled(s, a) && Checked(s, a)
    requires GuardedRun(INIT, run, "i", None) && (WritesTerminal(s, a, "i", None) ==> Guarded(s, a))
    ensures longer == run + [a] && Valid(INIT, longer) && CheckedRun(INIT, longer)
    ensures t == Apply(s, a) && After(longer) == t && GuardedRun(INIT, longer, "i", None)
  {
    longer, t := Go(run, s, a);
    GuardedConcat(INIT, run, a, "i");
  }

  lemma GuardedSubmit() returns (run: seq<Action>, s: State)
    ensures Valid(INIT, run) && CheckedRun(INIT, run) && After(run) == s && GuardedRun(INIT, run, "i", None)
    ensures |s.log| == 1 && s.log[0].subject == SubjectForInv("i") && !s.log[0].terminal && s.replies == {}
    ensures s.calls == [Call(1, "i", 1, true, [1], 0, None)] && At(s, 1) == Publishing(0, 0)
  {
    run, s := [], INIT;
    run, s := GoGuarded(run, s, EngineAppend("i", []));
    run, s := GoGuarded(run, s, Begin(1, "i"));
    run, s := GoGuarded(run, s, Hydrate(1, 1));
    run, s := GoGuarded(run, s, ReadFence(1));
    run, s := GoGuarded(run, s, Submit(1, 1, [1]));
  }

  /** The guard can be followed: a worker that hydrates, checks and reads its fence in the required order
      succeeds, and its record is the one terminal record. */
  lemma GuardedSuccess()
    ensures exists run :: Valid(INIT, run) && GuardedRun(INIT, run, "i", None)
              && var s := After(run);
                 |s.calls| == 1 && s.calls[0].outcome == Some(Success(2)) && |s.log| == 2 && s.log[1].terminal
  {
    var run, s := GuardedSubmit();
    run, s := GoGuarded(run, s, Publish(1));
    run, s := GoGuarded(run, s, Land(Attempt(0, 0)));
    run, s := GoGuarded(run, s, Respond(1, Acked(2)));
  }

  /** Following the guard does not exclude conflicts: here with another terminal writer that follows it too;
      the call then leaves no record of its own. */
  lemma ConflictWithPeer()
    ensures exists run :: Valid(INIT, run) && GuardedRun(INIT, run, "i", None)
              && var s := After(run);
                 |s.calls| == 1 && s.calls[0].outcome == Some(Outcome.Conflict(0))
                 && |s.log| == 2 && s.log[1].author == Peer && s.log[1].terminal
  {
    ErrorClasses();
    var run, s := GuardedSubmit();
    run, s := GoGuarded(run, s, PeerAppend("i", [2], 1, 1));
    run, s := GoGuarded(run, s, Publish(1));
    run, s := GoGuarded(run, s, Land(Attempt(0, 0)));
    run, s := GoGuarded(run, s, Respond(1, Failed(CONFLICT_ERROR)));
  }
}
