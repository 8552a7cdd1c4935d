/** The refresh loop closes: evidence handed over and recorded makes the intent's subject
    view current. */
module RefreshLoop {
  import opened Wrappers
  import opened Text
  import opened GoTime
  import opened Envelope
  import opened Refresh
  import opened SubjectView
  import opened SubjectViewLaws
  import opened EnvelopeRegistry
  import opened RegistryRuns

  /** The row is about what the intent asked, and its current evidence is new enough. */
  predicate AnswersIntent(auth: AuthorityRows, row: Row, i: Intent) {
    && auth.producer == i.producer && auth.domain == i.domain && row.assertion == i.assertion
    && row.latestCurrent.Some? && row.latestCurrent.value.isFresh
    && i.requestedAt.instant <= row.latestCurrent.value.envelope.observedAt.instant
    && (i.latestObservedAt.Some? ==> i.latestObservedAt.value.instant <= i.requestedAt.instant)
  }

  /** What closing the loop for an intent means to a reader of its subject view. */
  ghost predicate Closed(v: View, i: Intent) {
    && v.state == CURRENT && !v.refreshRequired
    && exists a, r :: 0 <= a < |v.authorities| && 0 <= r < |v.authorities[a].rows|
                      && AnswersIntent(v.authorities[a], v.authorities[a].rows[r], i)
  }

  /** The evidence answers the intent's question, in time. */
  predicate Answers(e: Envelope, i: Intent) {
    && e.producer.system == i.producer && e.domain == i.domain && e.subject == i.subject && e.assertion == i.assertion
    && i.requestedAt.instant <= e.observedAt.instant
    && (i.latestObservedAt.Some? ==> i.latestObservedAt.value.instant <= i.requestedAt.instant)
  }

  lemma StillFresh(input: Envelope, e: Envelope, t: Time, later: Time)
    ensures Normalize(input, t, true) == Ok(e) && later.instant <= e.validUntil.instant ==> FreshAt(e, later)
  {
    NormalizeMeaning(input, t, true);
    hide Normalize, Tidy, TrimSpace;
  }

  lemma HeldAnswerCloses(m: Contents, e: Envelope, i: Intent, v: View, later: Time)
    requires Legal(m) && e.id in m && m[e.id] == e
    requires Answers(e, i) && FreshAt(e, later)
    requires IsView(v, m, i.subject.kind, i.subject.id, i.subject.scope, later)
    ensures Closed(v, i)
  {
    assert AboutSubject(m, e, i.subject.kind, i.subject.id, i.subject.scope);
    hide Stored, FreshAt, IsView, Legal, AboutSubject, SomeRowCurrent, Less, Answers, AnswersIntent;
    CurrentHasRow(v, m, e, i.subject.kind, i.subject.id, i.subject.scope, later);
    var a, r :| 0 <= a < |v.authorities| && 0 <= r < |v.authorities[a].rows|
                && CurrentRow(v.authorities[a], v.authorities[a].rows[r], e);
    RowAnswers(v.authorities[a], v.authorities[a].rows[r], e, i);
    assert SomeRowCurrent(v) by { assert v.authorities[a].rows[r].latestCurrent.Some?; ShowsCurrent(v, a, r); }
    StateMeans(v, m, i.subject.kind, i.subject.id, i.subject.scope, later);
  }

  lemma ShowsCurrent(v: View, a: nat, r: nat)
    requires a < |v.authorities| && r < |v.authorities[a].rows| && v.authorities[a].rows[r].latestCurrent.Some?
    ensures SomeRowCurrent(v)
  {
  }

  lemma RowAnswers(auth: AuthorityRows, row: Row, e: Envelope, i: Intent)
    requires CurrentRow(auth, row, e) && Answers(e, i)
    ensures AnswersIntent(auth, row, i)
  {
  }

  /** If a handoff is accepted at t and the registry holds its evidence, then at every
      instant from t to the evidence's deadline the view of the intent's subject is current,
      asks for no refresh, and has a row for the intent's producer, domain and assertion
      whose current evidence was observed no earlier than the request, which in turn is no
      earlier than any observation the intent knew of. */
  lemma RefreshCloses(response: Response, intent: Intent, evidence: Envelope, t: Time,
                      h: Handoff, i: Intent, m: Contents, v: View, later: Time)
    requires t.instant <= later.instant <= h.evidence.validUntil.instant
    requires h.evidence.id in m && m[h.evidence.id] == h.evidence
    requires IsView(v, m, i.subject.kind, i.subject.id, i.subject.scope, later)
    ensures Legal(m) && NormalizeHandoff(response, intent, evidence, t) == Ok(h) && NormalizeIntent(intent, t) == Ok(i) ==> Closed(v, i)
  {
    hide NormalizeHandoff, NormalizeIntent, Normalize, Stored, FreshAt, IsView, Legal, Closed;
    if Legal(m) && NormalizeHandoff(response, intent, evidence, t) == Ok(h) && NormalizeIntent(intent, t) == Ok(i) {
      HandoffMeaning(response, intent, evidence, t);
      StillFresh(evidence, h.evidence, t, later);
      HeldAnswerCloses(m, h.evidence, i, v, later);
    }
  }

  /** Recording the handed-over evidence at the same instant puts it into the registry, or
      finds it there, unless its ID is taken by other content or the write fails. */
  lemma HandoverIsRecorded(response: Response, intent: Intent, evidence: Envelope, t: Time, h: Handoff, m: Contents, persisted: bool)
    ensures NormalizeHandoff(response, intent, evidence, t) == Ok(h) ==>
              var (m', r) := Outcome(m, evidence, t, persisted);
              && (r.Ok? <==> if h.evidence.id in m then m[h.evidence.id] == h.evidence else persisted)
              && (r.Ok? ==> h.evidence.id in m' && m'[h.evidence.id] == h.evidence && r.value.envelope == h.evidence)
  {
    HandoffMeaning(response, intent, evidence, t);
    hide NormalizeHandoff, NormalizeIntent, Normalize;
  }

  /** And it stays closed: in any run of the registry in which some call was told that the
      evidence is recorded, every view read later, across crashes and restarts, is closed
      for the intent until the deadline. */
  lemma LoopStaysClosed(response: Response, intent: Intent, evidence: Envelope, t: Time, h: Handoff, i: Intent,
                        trace: seq<Sys>, steps: seq<Step>, a: nat, b: nat, p: nat, v: View, later: Time)
    requires IsRun(trace, steps) && a <= b < |trace|
    requires p < |trace[a].reports| && trace[a].reports[p].envelope == h.evidence
    requires trace[b].up && trace[b].section.Idle?
    requires t.instant <= later.instant <= h.evidence.validUntil.instant
    requires IsView(v, trace[b].mem, i.subject.kind, i.subject.id, i.subject.scope, later)
    ensures NormalizeHandoff(response, intent, evidence, t) == Ok(h) && NormalizeIntent(intent, t) == Ok(i) ==> Closed(v, i)
  {
    hide IsView, Closed, NormalizeHandoff, NormalizeIntent;
    OneContentForEver(trace, steps, a, b);
    MemoryIsLegal(trace, steps, b);
    hide IsRun, FileMap, Legal;
    RefreshCloses(response, intent, evidence, t, h, i, trace[b].mem, v, later);
  }
}
