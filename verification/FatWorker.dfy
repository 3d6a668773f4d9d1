/** SubmitResult and LastJournalSeq as the code runs them, against a server shared with every other
    writer. */
module FatWorker {
  import opened Prelude
  import opened Classifier
  import opened Journal
  import opened Protocol
  import opened Guarantees
  import Envelope

  datatype FatError = ErrFatUsage | ErrFatConflict | ErrFatTimeout | NonTransient(err: Error)

  datatype SubmitReturn = Submitted(seqNo: nat) | Refused(err: FatError)

  datatype FenceReturn = Fence(seqNo: nat) | StreamNotOpened | LookupFailed

  /** What the stream answers to GetLastMsgForSubject; NotFound is ErrMsgNotFound. */
  datatype LastMsg = Message(seqNo: nat) | NotFound | Unanswered

  /** What the caller of SubmitResult sees of an outcome. */
  function Report(o: Outcome): SubmitReturn {
    match o
    case Success(q) => Submitted(q)
    case Conflict(_) => Refused(ErrFatConflict)
    case Timeout => Refused(ErrFatTimeout)
    case Substrate(err) => Refused(NonTransient(err))
    case Usage => Refused(ErrFatUsage)
  }

  /** Is a an action of worker w? */
  predicate ActionOf(a: Action, w: nat) {
    match a
    case Begin(v, _) => v == w
    case Hydrate(v, _) => v == w
    case ReadFence(v) => v == w
    case Submit(v, _, _) => v == w
    case Publish(v) => v == w
    case Respond(v, _) => v == w
    case Crash(v) => v == w
    case _ => false
  }

  /** The calls of worker w are the same in both lists: the old ones unchanged, the new ones not its own. */
  predicate SameCallsOf(w: nat, before: seq<Call>, after: seq<Call>) {
    && |before| <= |after|
    && (forall k :: 0 <= k < |before| && before[k].worker == w ==> after[k] == before[k])
    && (forall k :: 0 <= k < |before| ==> after[k].worker == before[k].worker)
    && (forall k :: |before| <= k < |after| ==> after[k].worker != w)
  }

  /** The calls of worker w are the same in both lists but for call k. */
  predicate SameCallsBut(k: nat, w: nat, before: seq<Call>, after: seq<Call>) {
    && k < |before| <= |after|
    && (forall j :: 0 <= j < |before| && before[j].worker == w && j != k ==> after[j] == before[j])
    && (forall j :: 0 <= j < |before| ==> after[j].worker == before[j].worker)
    && (forall j :: |before| <= j < |after| ==> after[j].worker != w)
  }

  lemma OthersLeaveMine(s: State, a: Action, w: nat)
    requires Inv(s) && Enabled(s, a) && !ActionOf(a, w)
    ensures At(Apply(s, a), w) == At(s, w) && SameCallsOf(w, s.calls, Apply(s, a).calls)
  {
    if (a.Publish? || a.Respond?) {
      assert WorkerOk(s, a.w);
    }
  }

  lemma RespondEffect(s: State, w: nat, r: PubResult)
    requires Enabled(s, Respond(w, r))
    ensures var p, t := At(s, w), Apply(s, Respond(w, r));
            && |t.calls| == |s.calls|
            && t.calls[p.call] == s.calls[p.call].(outcome := t.calls[p.call].outcome)
            && (forall k :: 0 <= k < |s.calls| && k != p.call ==> t.calls[k] == s.calls[k])
            && match AfterAttempt(p.attempt, r)
               case Return(o) => At(t, w).Idle? && t.calls[p.call].outcome == Some(o)
               case Retry => At(t, w) == Publishing(p.call, p.attempt + 1)
  {
  }

  /** The answers that the publishes of worker w received in a run, in order. */
  ghost function Answers(run: seq<Action>, w: nat): seq<PubResult> {
    if run == [] then []
    else
      var last := run[|run| - 1];
      Answers(run[..|run| - 1], w) + if last.Respond? && last.w == w then [last.r] else []
  }

  lemma AnswersAppend(run: seq<Action>, a: Action, w: nat)
    ensures Answers(run + [a], w) == Answers(run, w) + if a.Respond? && a.w == w then [a.r] else []
  {
    assert (run + [a])[..|run|] == run;
  }

  predicate Retried(answer: PubResult) { answer.Failed? && Classify(answer.err).Transient? }

  /** What the answers of the loop make it return: the sequence of an acknowledgement; otherwise by the class of
      the last error, after at most three attempts of which all but the last were transient. */
  predicate LoopReturns(answers: seq<PubResult>, r: SubmitReturn) {
    && 1 <= |answers| <= 3
    && (forall i :: 0 <= i < |answers| - 1 ==> Retried(answers[i]))
    && match answers[|answers| - 1]
       case Acked(q) => r == Submitted(q)
       case Failed(err) =>
         && (r == Refused(ErrFatConflict) <==> Classify(err).Conflict?)
         && (r == Refused(NonTransient(err)) <==> Classify(err).Other?)
         && (r == Refused(ErrFatTimeout) <==> Classify(err).Transient?)
         && (Classify(err).Transient? ==> |answers| == 3)
  }

  predicate Returns(expectedLast: nat, answers: seq<PubResult>, r: SubmitReturn) {
    if expectedLast == 0 then answers == [] && r == Refused(ErrFatUsage) else LoopReturns(answers, r)
  }

  /** The data stand at sequence q on the invocation's subject, right after the fence. */
  predicate StandsAfter(log: Log, inv: string, fence: nat, data: seq<Byte>, q: nat) {
    var subject := "tenax.journal." + inv;
    && 0 < q <= |log| && log[q - 1].subject == subject && log[q - 1].data == data
    && LastSeq(log[..q - 1], subject) == fence
  }

  /** What a returned value tells its caller about the stream: a sequence is that of this call's record; a
      conflict on a fence that was read means that the subject has moved on. */
  ghost predicate TellsTruth(log: Log, inv: string, fence: nat, read: bool, data: seq<Byte>, r: SubmitReturn) {
    && (r.Submitted? ==> StandsAfter(log, inv, fence, data, r.seqNo))
    && (r == Refused(ErrFatConflict) && read ==> LastSeq(log, "tenax.journal." + inv) > fence)
  }

  lemma ReportTellsTruth(run: seq<Action>, k: nat, r: SubmitReturn)
    requires Valid(INIT, run) && k < |After(run).calls|
    requires After(run).calls[k].outcome.Some? && r == Report(After(run).calls[k].outcome.value)
    ensures var c := After(run).calls[k]; TellsTruth(After(run).log, c.inv, c.fence, c.read, c.data, r)
  {
    InvRun(INIT, run);
    var s := After(run);
    assert CallOk(s, k);
    assert Valid(s, []) && Final(s, []) == s;
    if r.Submitted? {
      SuccessMeans(run, [], k);
    }
  }

  /** The record of a finished call: its arguments, at most three publishes, and the outcome reported. It
      publishes nothing exactly when the fence is zero. */
  predicate CallReturned(c: Call, w: nat, inv: string, fence: nat, data: seq<Byte>, r: SubmitReturn) {
    && c.worker == w && c.inv == inv && c.fence == fence && c.data == data
    && c.sent <= 3
    && c.outcome.Some? && r == Report(c.outcome.value)
    && (fence == 0 <==> c.sent == 0)
  }

  /** The JetStream server and everything that shares it; trace is the run so far. */
  class JetStream {
    var state: State
    ghost var trace: seq<Action>

    ghost predicate Consistent()
      reads this
    {
      Valid(INIT, trace) && After(trace) == state
    }

    constructor ()
      ensures Consistent() && state == INIT
    {
      state, trace := INIT, [];
    }

    method Perform(a: Action)
      requires Consistent() && Enabled(state, a)
      modifies this
      ensures Consistent() && state == Apply(old(state), a) && trace == old(trace) + [a]
    {
      RunConcat(INIT, trace, [a]);
      state, trace := Apply(state, a), trace + [a];
    }

    /** Any number of steps that are not worker w's: other workers, other writers, late publishes. */
    method Others(w: nat)
      requires Consistent()
      modifies this
      ensures Consistent() && old(trace) <= trace
      ensures At(state, w) == old(At(state, w)) && SameCallsOf(w, old(state.calls), state.calls)
      ensures Answers(trace, w) == old(Answers(trace, w))
    {
      var n: nat := *;
      while n > 0
        invariant Consistent() && old(trace) <= trace
        invariant At(state, w) == old(At(state, w)) && SameCallsOf(w, old(state.calls), state.calls)
        invariant Answers(trace, w) == old(Answers(trace, w))
      {
        var a: Action := *;
        if Enabled(state, a) && !ActionOf(a, w) {
          InvRun(INIT, trace);
          OthersLeaveMine(state, a, w);
          AnswersAppend(trace, a, w);
          Perform(a);
        }
        n := n - 1;
      }
    }

    /** js.Publish with the fence option: send, wait, and be answered or not. */
    method JsPublish(w: nat) returns (r: PubResult)
      requires Consistent() && Enabled(state, Protocol.Publish(w))
      modifies this
      ensures Consistent() && old(trace) <= trace && CanRespond(state, w, r)
      ensures Answers(trace, w) == old(Answers(trace, w))
      ensures var p := old(At(state, w));
              && At(state, w) == Awaiting(p.call, p.attempt)
              && SameCallsBut(p.call, w, old(state.calls), state.calls)
              && (old(state.calls)[p.call].worker == w ==>
                    state.calls[p.call] == old(state.calls)[p.call].(sent := p.attempt + 1))
    {
      AnswersAppend(trace, Protocol.Publish(w), w);
      Perform(Protocol.Publish(w));
      Others(w);
      r := *;
      if !CanRespond(state, w, r) {
        r := Failed(Error("context deadline exceeded", true));
        DeadlineText();
      }
    }

    /** One attempt of the loop: publish, and record the answer. */
    method TryOnce(w: nat, k: nat, attempt: nat) returns (pub: PubResult)
      requires Consistent() && At(state, w) == Publishing(k, attempt) && k < |state.calls|
      requires state.calls[k].worker == w
      modifies this
      ensures Consistent() && old(trace) <= trace && SameCallsBut(k, w, old(state.calls), state.calls)
      ensures var c, d := old(state.calls)[k], state.calls[k];
              d == c.(sent := attempt + 1, outcome := d.outcome)
      ensures match AfterAttempt(attempt, pub)
              case Return(o) => At(state, w).Idle? && state.calls[k].outcome == Some(o)
              case Retry => At(state, w) == Publishing(k, attempt + 1)
      ensures Answers(trace, w) == old(Answers(trace, w)) + [pub]
    {
      pub := JsPublish(w);
      RespondEffect(state, w, pub);
      AnswersAppend(trace, Respond(w, pub), w);
      Perform(Respond(w, pub));
    }

    /** The bounded retry loop: at most three publishes of the same bytes with the same fence. */
    method RetryLoop(w: nat, k: nat) returns (r: SubmitReturn, ghost answers: seq<PubResult>)
      requires Consistent() && At(state, w) == Publishing(k, 0) && k < |state.calls|
      requires state.calls[k].worker == w && state.calls[k].sent == 0
      modifies this
      ensures Consistent() && old(trace) <= trace && At(state, w).Idle?
      ensures SameCallsBut(k, w, old(state.calls), state.calls)
      ensures var c, d := old(state.calls)[k], state.calls[k];
              && d == c.(sent := d.sent, outcome := d.outcome)
              && d.sent == |answers| && d.outcome.Some? && r == Report(d.outcome.value)
      ensures Answers(trace, w) == old(Answers(trace, w)) + answers && LoopReturns(answers, r)
    {
      var attempt := 0;
      answers := [];
      while attempt < MAX_ATTEMPTS
        invariant 0 <= attempt <= MAX_ATTEMPTS
        invariant Consistent() && old(trace) <= trace && SameCallsBut(k, w, old(state.calls), state.calls)
        invariant var c, d := old(state.calls)[k], state.calls[k];
                  d == c.(sent := attempt, outcome := d.outcome)
        invariant if attempt < MAX_ATTEMPTS then At(state, w) == Publishing(k, attempt)
                  else At(state, w).Idle? && state.calls[k].outcome == Some(Timeout)
        invariant Answers(trace, w) == old(Answers(trace, w)) + answers && |answers| == attempt
        invariant forall i :: 0 <= i < attempt ==> Retried(answers[i])
      {
        var pub := TryOnce(w, k, attempt);
        answers := answers + [pub];
        if pub.Acked? {
          return Submitted(pub.seqNo), answers;
        }
        var conflict := FatConflict(Some(pub.err));
        if conflict {
          return Refused(ErrFatConflict), answers;
        }
        var transient := FatTransient(Some(pub.err));
        if !transient {
          return Refused(NonTransient(pub.err)), answers;
        }
        attempt := attempt + 1;
      }
      return Refused(ErrFatTimeout), answers;
    }

    /** The fence check and the retry loop, for bytes already built. */
    method AppendTerminal(w: nat, expectedLast: nat, outerBytes: seq<Byte>)
      returns (r: SubmitReturn, ghost answers: seq<PubResult>)
      requires Consistent() && At(state, w).Preparing?
      modifies this
      ensures Consistent() && old(trace) <= trace && At(state, w).Idle?
      ensures var n := |old(state.calls)|;
              n < |state.calls| && SameCallsOf(w, old(state.calls), state.calls[..n])
              && forall k :: n < k < |state.calls| ==> state.calls[k].worker != w
      ensures CallReturned(state.calls[|old(state.calls)|], w, old(At(state, w)).inv, expectedLast, outerBytes, r)
      ensures Answers(trace, w) == old(Answers(trace, w)) + answers && Returns(expectedLast, answers, r)
      ensures state.calls[|old(state.calls)|].sent == |answers|
      ensures var p := old(At(state, w));
              TellsTruth(state.log, p.inv, expectedLast, p.fence == Some(expectedLast), outerBytes, r)
      ensures expectedLast == 0 ==> state.log == old(state.log) && state.inflight == old(state.inflight)
    {
      AnswersAppend(trace, Submit(w, expectedLast, outerBytes), w);
      Perform(Submit(w, expectedLast, outerBytes));
      if expectedLast == 0 {
        return Refused(ErrFatUsage), [];
      }
      r, answers := RetryLoop(w, |state.calls| - 1);
      ReportTellsTruth(trace, |old(state.calls)|, r);
    }

    /** What it does is a run of the protocol with one call more. What it returns follows from the answers its
        publishes received, is the outcome the run records for the call, and tells the truth about the stream. */
    method SubmitResult(w: nat, inv: string, expectedLast: nat, payload: Option<seq<Byte>>)
      returns (r: SubmitReturn, ghost answers: seq<PubResult>)
      requires Consistent() && At(state, w).Preparing? && At(state, w).inv == inv
      modifies this
      ensures Consistent() && old(trace) <= trace && At(state, w).Idle?
      ensures var n := |old(state.calls)|;
              n < |state.calls| && SameCallsOf(w, old(state.calls), state.calls[..n])
              && forall k :: n < k < |state.calls| ==> state.calls[k].worker != w
      ensures CallReturned(state.calls[|old(state.calls)|], w, inv, expectedLast, Envelope.Wire(payload), r)
      ensures Answers(trace, w) == old(Answers(trace, w)) + answers && Returns(expectedLast, answers, r)
      ensures state.calls[|old(state.calls)|].sent == |answers|
      ensures var read := old(At(state, w)).fence == Some(expectedLast);
              TellsTruth(state.log, inv, expectedLast, read, Envelope.Wire(payload), r)
      ensures expectedLast == 0 ==> state.log == old(state.log) && state.inflight == old(state.inflight)
    {
      var outerBytes := Envelope.Wire(payload);
      r, answers := AppendTerminal(w, expectedLast, outerBytes);
    }

    /** The last message of the invocation's subject; answered tells whether the stream answers in time. */
    method GetLastMsgForSubject(w: nat, inv: string, answered: bool) returns (m: LastMsg)
      requires Consistent() && At(state, w).Preparing? && At(state, w).inv == inv
      modifies this
      ensures Consistent() && old(trace) <= trace && SameCallsOf(w, old(state.calls), state.calls)
      ensures m.Unanswered? <==> !answered
      ensures var subject := "tenax.journal." + inv;
              && (m.Message? ==> 0 < m.seqNo <= |state.log| && state.log[m.seqNo - 1].subject == subject
                                 && forall i :: m.seqNo <= i < |state.log| ==> state.log[i].subject != subject)
              && (m.NotFound? ==> forall i :: 0 <= i < |state.log| ==> state.log[i].subject != subject)
      ensures var p := old(At(state, w));
              At(state, w) == match m
                              case Message(q) => p.(fence := Some(q))
                              case NotFound => p.(fence := Some(0))
                              case Unanswered => p
    {
      Others(w);
      if !answered {
        return Unanswered;
      }
      Perform(ReadFence(w));
      var last := At(state, w).fence.value;
      return if last == 0 then NotFound else Message(last);
    }

    /** The fence: the last sequence of the invocation's subject, 0 when it has no record. The two parameters
        tell whether the stream can be opened and whether it answers; each failure has its own error, and there
        is no other. */
    method LastJournalSeq(w: nat, inv: string, streamOpened: bool, answered: bool) returns (r: FenceReturn)
      requires Consistent() && At(state, w).Preparing? && At(state, w).inv == inv
      modifies this
      ensures Consistent() && old(trace) <= trace && SameCallsOf(w, old(state.calls), state.calls)
      ensures r.StreamNotOpened? <==> !streamOpened
      ensures r.Fence? <==> streamOpened && answered
      ensures At(state, w) == if r.Fence? then old(At(state, w)).(fence := Some(r.seqNo)) else old(At(state, w))
      ensures var subject := "tenax.journal." + inv;
              r.Fence? ==>
                && (r.seqNo == 0 <==> forall i :: 0 <= i < |state.log| ==> state.log[i].subject != subject)
                && (r.seqNo > 0 ==> r.seqNo <= |state.log| && state.log[r.seqNo - 1].subject == subject)
                && forall i :: 0 <= i < |state.log| && state.log[i].subject == subject ==> i + 1 <= r.seqNo
    {
      Others(w);
      if !streamOpened {
        return StreamNotOpened;
      }
      var m := GetLastMsgForSubject(w, inv, answered);
      match m {
        case Unanswered => return LookupFailed;
        case NotFound => return Fence(0);
        case Message(q) => return Fence(q);
      }
    }
  }

  /** Both conflict texts begin with a letter that the deadline text does not have. */
  lemma DeadlineText()
    ensures !Classify(Error("context deadline exceeded", true)).Conflict?
  {
    var text := "context deadline exceeded";
    assert forall i :: 0 <= i < |text| ==> text[i] != 'w';
    ThirdTextSubsumed(text, true);
    NoFirstLetter(text, "wrong last msg seq");
    NoFirstLetter(text, "wrong last sequence");
  }

  lemma NoFirstLetter(text: string, sub: string)
    requires sub != "" && forall i :: 0 <= i < |text| ==> text[i] != sub[0]
    ensures !Contains(text, sub)
  {
    forall i | 0 <= i <= |text| - |sub|
      ensures !OccursAt(text, sub, i)
    {
      assert text[i..i + |sub|][0] == text[i];
    }
  }

  // ---- the guarantee in terms of the journalled bytes ----

  /** A writer on inv sends what it claims to: terminal bytes where it appends a terminal record, other bytes
      where it does not. */
  ghost predicate Faithful(s: State, a: Action, inv: string, terminal: seq<Byte> -> bool)
    requires Enabled(s, a)
  {
    match a
    case Submit(w, _, data) => At(s, w).inv == inv ==> terminal(data)
    case EngineAppend(i, data) => i == inv ==> !terminal(data)
    case PeerAppend(i, data, _, _) => i == inv ==> terminal(data)
    case _ => true
  }

  ghost predicate FaithfulRun(s: State, run: seq<Action>, inv: string, terminal: seq<Byte> -> bool)
    requires Valid(s, run)
    decreases run
  {
    run == [] || (Faithful(s, run[0], inv, terminal) && FaithfulRun(Apply(s, run[0]), run[1..], inv, terminal))
  }

  ghost predicate BytesAgree(s: State, inv: string, terminal: seq<Byte> -> bool) {
    && (forall i :: 0 <= i < |s.log| && s.log[i].subject == SubjectForInv(inv) ==>
          (s.log[i].terminal <==> terminal(s.log[i].data)))
    && (forall k :: 0 <= k < |s.calls| && s.calls[k].inv == inv ==> terminal(s.calls[k].data))
  }

  lemma BytesAgreeStep(s: State, a: Action, inv: string, terminal: seq<Byte> -> bool)
    requires BytesAgree(s, inv, terminal) && Enabled(s, a) && Faithful(s, a, inv, terminal)
    ensures BytesAgree(Apply(s, a), inv, terminal)
  {
    var t := Apply(s, a);
    if Touches(s, a).Some? {
      var i := Touches(s, a).value;
      if SubjectForInv(i) == SubjectForInv(inv) {
        SubjectInjective(i, inv);
      }
    }
    assert forall i :: 0 <= i < |s.log| ==> t.log[i] == s.log[i];
  }

  lemma {:induction false} BytesAgreeRun(s: State, run: seq<Action>, inv: string, terminal: seq<Byte> -> bool)
    requires BytesAgree(s, inv, terminal) && Valid(s, run) && FaithfulRun(s, run, inv, terminal)
    ensures BytesAgree(Final(s, run), inv, terminal)
    decreases run
  {
    if run != [] {
      BytesAgreeStep(s, run[0], inv, terminal);
      BytesAgreeRun(Apply(s, run[0]), run[1..], inv, terminal);
    }
  }

  /** SubmitResult is faithful: what it sends decodes to a terminal entry. */
  lemma SubmitFaithful(s: State, w: nat, fence: nat, payload: Option<seq<Byte>>, inv: string)
    requires Enabled(s, Submit(w, fence, Envelope.Wire(payload)))
    ensures Faithful(s, Submit(w, fence, Envelope.Wire(payload)), inv, Envelope.IsTerminal)
  {
    Envelope.WireOpens(payload);
  }

  /** At most one entry of an invocation decodes to a terminal type, if its writers follow the guard and send
      what they claim to; nothing is asked of the writers of other invocations. */
  lemma SingleTerminalInBytes(run: seq<Action>, inv: string, i: nat, j: nat)
    requires Valid(INIT, run) && GuardedRun(INIT, run, inv, None)
    requires FaithfulRun(INIT, run, inv, Envelope.IsTerminal)
    requires i < |After(run).log| && j < |After(run).log|
    requires var log := After(run).log;
             && log[i].subject == SubjectForInv(inv) && log[j].subject == SubjectForInv(inv)
             && Envelope.IsTerminal(log[i].data) && Envelope.IsTerminal(log[j].data)
    ensures i == j
  {
    SingleTerminalAlways(run, inv);
    BytesAgreeRun(INIT, run, inv, Envelope.IsTerminal);
  }

  /** A successful call's entry, read back at the sequence it returned and however long afterwards, opens to
      the payload the call was given. */
  lemma SuccessReadsBack(run: seq<Action>, more: seq<Action>, k: nat, payload: Option<seq<Byte>>)
    requires Valid(INIT, run) && Valid(After(run), more)
    requires k < |After(run).calls| && After(run).calls[k].outcome.Some? && After(run).calls[k].outcome.value.Success?
    requires After(run).calls[k].data == Envelope.Wire(payload)
    ensures var log := Final(After(run), more).log;
            var q := After(run).calls[k].outcome.value.seqNo;
            && 0 < q <= |log| && Envelope.Open(log[q - 1].data).Some?
            && Envelope.Open(log[q - 1].data).value.output.result == payload
  {
    SuccessMeans(run, more, k);
    Envelope.WireOpens(payload);
  }
}
