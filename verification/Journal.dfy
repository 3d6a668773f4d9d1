/** The journal stream: one sequence of records shared by all invocations, the record at position i
    carrying stream sequence i + 1. */
module Journal {
  import opened Prelude

  /** Who appended a record: the engine without a fence, an attempt of a SubmitResult call, or another
      fenced terminal writer. */
  datatype Author = Engine | Fat(call: nat, attempt: nat) | Peer

  datatype Record = Record(subject: string, data: seq<Byte>, terminal: bool, author: Author, fence: Option<nat>)

  type Log = seq<Record>

  const SUBJECT_PREFIX := "tenax.journal."

  function SubjectForInv(inv: string): string { SUBJECT_PREFIX + inv }

  lemma SubjectInjective(a: string, b: string)
    requires SubjectForInv(a) == SubjectForInv(b)
    ensures a == b
  {
    assert a == SubjectForInv(a)[|SUBJECT_PREFIX|..];
    assert b == SubjectForInv(b)[|SUBJECT_PREFIX|..];
  }

  /** The last sequence of a subject, 0 when it has no record: the highest sequence under it. */
  function LastSeq(log: Log, subject: string): (last: nat)
    ensures last <= |log|
    ensures last > 0 ==> log[last - 1].subject == subject
    ensures forall i :: last <= i < |log| ==> log[i].subject != subject
  {
    if log == [] then 0
    else if log[|log| - 1].subject == subject then |log|
    else LastSeq(log[..|log| - 1], subject)
  }

  /** Those three facts determine the last sequence. */
  lemma LastSeqUnique(log: Log, subject: string, n: nat)
    requires n <= |log| && (n > 0 ==> log[n - 1].subject == subject)
    requires forall i :: n <= i < |log| ==> log[i].subject != subject
    ensures LastSeq(log, subject) == n
  {
  }

  lemma LastSeqAppend(log: Log, r: Record, subject: string)
    ensures LastSeq(log + [r], subject) == if r.subject == subject then |log| + 1 else LastSeq(log, subject)
  {
    assert (log + [r])[..|log|] == log;
  }

  /** A record in the log keeps the last sequence of its subject at or above its own. */
  lemma LastSeqAtLeast(log: Log, i: nat)
    requires i < |log|
    ensures LastSeq(log, log[i].subject) >= i + 1
  {
  }

  lemma {:induction false} LastSeqMonotone(log: Log, n: nat, subject: string)
    requires n <= |log|
    ensures LastSeq(log[..n], subject) <= LastSeq(log, subject)
  {
    var last := LastSeq(log[..n], subject);
    if last > 0 {
      assert log[last - 1] == log[..n][last - 1];
      LastSeqAtLeast(log, last - 1);
    }
  }

  /** Does the snapshot of the first n records hold a terminal record of the subject? */
  predicate HasTerminal(log: Log, n: nat, subject: string)
    requires n <= |log|
  {
    exists i :: 0 <= i < n && log[i].subject == subject && log[i].terminal
  }

  /** The subject holds at most one terminal record. */
  ghost predicate SingleTerminal(log: Log, subject: string) {
    forall i, j :: 0 <= i < j < |log| && log[i].subject == subject && log[j].subject == subject && log[i].terminal ==>
      !log[j].terminal
  }

  /** The record right after sequence n on a subject. */
  ghost predicate Successor(log: Log, subject: string, n: nat, i: nat) {
    n <= i < |log| && log[i].subject == subject && forall j :: n <= j < i ==> log[j].subject != subject
  }

  lemma {:induction false} SuccessorExists(log: Log, subject: string, n: nat) returns (i: nat)
    requires n < LastSeq(log, subject)
    ensures Successor(log, subject, n, i)
  {
    i := n;
    while log[i].subject != subject
      invariant n <= i < LastSeq(log, subject)
      invariant forall j :: n <= j < i ==> log[j].subject != subject
      decreases |log| - i
    {
      i := i + 1;
    }
  }
}
