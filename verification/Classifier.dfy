/** The error classifier of sdk/fat.go: substring search and the two predicates that steer the
    retry loop of SubmitResult. */
module Classifier {
  import opened Prelude

  /** What the classifier can observe of a Go error: its text, and whether errors.Is finds
      context.DeadlineExceeded in its chain. */
  datatype Error = Error(text: string, deadline: bool)

  datatype Class = Conflict | Transient | Other

  const CONFLICT_TEXTS: seq<string> := ["wrong last msg seq", "wrong last sequence", "nats: wrong last msg seq"]

  const TRANSIENT_TEXTS: seq<string> :=
    ["timeout", "deadline exceeded", "nats: connection closed", "nats: connection reset", "no responders"]

  predicate OccursAt(s: string, sub: string, i: int) {
    0 <= i <= |s| - |sub| && s[i..i + |sub|] == sub
  }

  predicate Contains(s: string, sub: string) {
    exists i | 0 <= i <= |s| - |sub| :: OccursAt(s, sub, i)
  }

  /** The index loop of fatContains. */
  method FatContains(s: string, sub: string) returns (found: bool)
    ensures found <==> exists before, after :: s == before + sub + after
    ensures found <==> Contains(s, sub)
  {
    OccurrenceIsSplit(s, sub);
    if sub == "" {
      assert OccursAt(s, sub, 0);
      return true;
    }
    if |sub| > |s| {
      return false;
    }
    var i := 0;
    while i <= |s| - |sub|
      invariant 0 <= i <= |s| - |sub| + 1
      invariant forall j :: 0 <= j < i ==> !OccursAt(s, sub, j)
    {
      if s[i..i + |sub|] == sub {
        assert OccursAt(s, sub, i);
        return true;
      }
      i := i + 1;
    }
    return false;
  }

  /** The index formulation of an occurrence and the split formulation agree. */
  lemma OccurrenceIsSplit(s: string, sub: string)
    ensures Contains(s, sub) <==> exists before, after :: s == before + sub + after
  {
    if Contains(s, sub) {
      var i :| 0 <= i <= |s| - |sub| && OccursAt(s, sub, i);
      assert s == s[..i] + sub + s[i + |sub|..];
    }
    if before, after :| s == before + sub + after {
      assert OccursAt(s, sub, |before|);
    }
  }

  /** isFatConflict, nil error included. */
  predicate IsFatConflict(err: Option<Error>) {
    err.Some? &&
    (Contains(err.value.text, CONFLICT_TEXTS[0]) || Contains(err.value.text, CONFLICT_TEXTS[1]) ||
     Contains(err.value.text, CONFLICT_TEXTS[2]))
  }

  /** isFatTransient, nil error included. */
  predicate IsFatTransient(err: Option<Error>) {
    err.Some? && !IsFatConflict(err) &&
    (err.value.deadline || exists i :: 0 <= i < |TRANSIENT_TEXTS| && Contains(err.value.text, TRANSIENT_TEXTS[i]))
  }

  /** The code of isFatConflict: three searches, in order, until one succeeds. */
  method FatConflict(err: Option<Error>) returns (yes: bool)
    ensures yes <==> IsFatConflict(err)
    ensures err == None ==> !yes
    ensures err.Some? ==> (yes <==> Classify(err.value).Conflict?)
  {
    if err == None {
      return false;
    }
    var msg := err.value.text;
    yes := FatContains(msg, CONFLICT_TEXTS[0]);
    if !yes {
      yes := FatContains(msg, CONFLICT_TEXTS[1]);
    }
    if !yes {
      yes := FatContains(msg, CONFLICT_TEXTS[2]);
    }
  }

  /** The code of isFatTransient: no conflict, then the deadline marker, then five searches. */
  method FatTransient(err: Option<Error>) returns (yes: bool)
    ensures yes <==> IsFatTransient(err)
    ensures err == None ==> !yes
    ensures err.Some? ==> (yes <==> Classify(err.value).Transient?)
  {
    if err == None {
      return false;
    }
    var conflict := FatConflict(err);
    if conflict {
      return false;
    }
    if err.value.deadline {
      return true;
    }
    var msg := err.value.text;
    yes := FatContains(msg, TRANSIENT_TEXTS[0]);
    if !yes {
      yes := FatContains(msg, TRANSIENT_TEXTS[1]);
    }
    if !yes {
      yes := FatContains(msg, TRANSIENT_TEXTS[2]);
    }
    if !yes {
      yes := FatContains(msg, TRANSIENT_TEXTS[3]);
    }
    if !yes {
      yes := FatContains(msg, TRANSIENT_TEXTS[4]);
    }
  }

  /** The branch the retry loop takes for a non-nil error. */
  function Classify(err: Error): (c: Class)
    ensures c.Conflict? <==> IsFatConflict(Some(err))
    ensures c.Transient? <==> IsFatTransient(Some(err))
  {
    if IsFatConflict(Some(err)) then Conflict
    else if IsFatTransient(Some(err)) then Transient
    else Other
  }

  lemma ContainsTransitive(s: string, mid: string, sub: string)
    requires Contains(s, mid) && Contains(mid, sub)
    ensures Contains(s, sub)
  {
    var i :| 0 <= i <= |s| - |mid| && OccursAt(s, mid, i);
    var j :| 0 <= j <= |mid| - |sub| && OccursAt(mid, sub, j);
    forall k | 0 <= k < |sub|
      ensures s[i + j + k] == sub[k]
    {
      assert s[i..i + |mid|][j + k] == mid[j..j + |sub|][k];
    }
    assert OccursAt(s, sub, i + j);
  }

  /** The third disjunct of isFatConflict never decides the answer: it is subsumed by the first, so
      two texts characterise a conflict. */
  lemma ThirdTextSubsumed(text: string, deadline: bool)
    ensures IsFatConflict(Some(Error(text, deadline))) <==>
            Contains(text, "wrong last msg seq") || Contains(text, "wrong last sequence")
  {
    var third := "nats: wrong last msg seq";
    if Contains(text, third) {
      assert third == "nats: " + "wrong last msg seq";
      assert OccursAt(third, "wrong last msg seq", 6);
      ContainsTransitive(text, third, "wrong last msg seq");
    }
  }

  /** A transient error, in full: no conflict text, and the deadline marker or one of five texts. */
  lemma TransientExact(text: string, deadline: bool)
    ensures Classify(Error(text, deadline)).Transient? <==>
            && !Contains(text, "wrong last msg seq") && !Contains(text, "wrong last sequence")
            && (|| deadline || Contains(text, "timeout") || Contains(text, "deadline exceeded")
                || Contains(text, "nats: connection closed") || Contains(text, "nats: connection reset")
                || Contains(text, "no responders"))
  {
    ThirdTextSubsumed(text, deadline);
    var texts := TRANSIENT_TEXTS;
    assert texts[0] == "timeout" && texts[1] == "deadline exceeded" && texts[2] == "nats: connection closed"
        && texts[3] == "nats: connection reset" && texts[4] == "no responders" && |texts| == 5;
  }

  /** Wrapping: whatever text or deadline marker surrounds a conflict, it stays a conflict and never
      becomes retryable. */
  lemma WrappedConflictStays(inner: Error, before: string, after: string, deadline: bool)
    requires Classify(inner).Conflict?
    ensures Classify(Error(before + inner.text + after, deadline)).Conflict?
  {
    var outer := before + inner.text + after;
    assert OccursAt(outer, inner.text, |before|);
    var i :| 0 <= i < |CONFLICT_TEXTS| && Contains(inner.text, CONFLICT_TEXTS[i]);
    ContainsTransitive(outer, inner.text, CONFLICT_TEXTS[i]);
  }

  /** Wrapping a transient error keeps it retryable exactly when the wrapping introduces no conflict
      text; errors.Is sees through the wrap, so the deadline marker can only be gained. */
  lemma WrappedTransientExact(inner: Error, before: string, after: string, deadline: bool)
    requires Classify(inner).Transient? && (inner.deadline ==> deadline)
    ensures var outer := Error(before + inner.text + after, deadline);
            Classify(outer).Transient? <==>
            !Contains(outer.text, "wrong last msg seq") && !Contains(outer.text, "wrong last sequence")
  {
    var outer := Error(before + inner.text + after, deadline);
    ThirdTextSubsumed(outer.text, deadline);
    if !inner.deadline {
      assert OccursAt(outer.text, inner.text, |before|);
      var i :| 0 <= i < |TRANSIENT_TEXTS| && Contains(inner.text, TRANSIENT_TEXTS[i]);
      ContainsTransitive(outer.text, inner.text, TRANSIENT_TEXTS[i]);
    }
  }
}
