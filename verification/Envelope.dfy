/** The evidence envelope and its normaliser. */
module Envelope {
  import opened Wrappers
  import opened Text
  import opened GoTime
  import opened Authority

  datatype Producer = Producer(system: System, repository: string, revision: string, contract: string)

  datatype Subject = Subject(kind: string, id: string, scope: string)

  datatype Envelope = Envelope(
    version: string,
    id: string,
    producer: Producer,
    domain: string,
    subject: Subject,
    assertion: string,
    outcome: string,
    source: string,
    observedAt: Time,
    validUntil: Time,
    dataClass: string,
    summary: string,
    payloadDigest: string,
    userContent: bool,
    secretMaterial: bool)

  datatype Rejection =
    | VersionUnsupported | IdInvalid | ProducerUnknown | RepositoryForeign | RevisionInexact
    | ContractMissing | ContractForeign | DomainForeign | SubjectMissing | SubjectTooLong
    | ClaimMissing | ClaimTooLong | ObservationMissing | ObservationInFuture | ValidityMissing
    | ValidityNotForward | Expired | DataClassInvalid | HoldsUserContent | HoldsSecrets
    | SummaryTooLong | DigestMalformed

  const ENVELOPE_VERSION := "goreecloud.evidence-envelope.v1"
  const DATA_CLASSES: seq<string> := ["public", "operational", "derived"]

  function TrimSubject(s: Subject): Subject {
    Subject(TrimSpace(s.kind), TrimSpace(s.id), TrimSpace(s.scope))
  }

  /** Every text field trimmed; the producer system, the data class and the flags are not. */
  function Trimmed(v: Envelope): Envelope {
    v.(version := TrimSpace(v.version),
    id := TrimSpace(v.id),
    producer := v.producer.(repository := TrimSpace(v.producer.repository),
    revision := TrimSpace(v.producer.revision),
    contract := TrimSpace(v.producer.contract)),
    domain := TrimSpace(v.domain),
    subject := TrimSubject(v.subject),
    assertion := TrimSpace(v.assertion),
    outcome := TrimSpace(v.outcome),
    source := TrimSpace(v.source),
    summary := TrimSpace(v.summary),
    payloadDigest := TrimSpace(v.payloadDigest))
  }

  function InUtc(v: Envelope): Envelope {
    v.(observedAt := v.observedAt.Utc(), validUntil := v.validUntil.Utc())
  }

  predicate SubjectTooBig(s: Subject) {
    ByteLen(s.kind) > 64 || ByteLen(s.id) > 256 || ByteLen(s.scope) > 256
  }

  /** The checks of normalizeEvidenceEnvelope, in its order: first who is speaking, */
  function ProvenanceProblem(v: Envelope): Option<Rejection> {
    if v.version != ENVELOPE_VERSION then Some(VersionUnsupported)
    else if v.id == "" || ByteLen(v.id) > 128 then Some(IdInvalid)
    else if RepositoryOf(v.producer.system).None? then Some(ProducerUnknown)
    else if v.producer.repository != RepositoryOf(v.producer.system).value then Some(RepositoryForeign)
    else if !IsFullGitRevision(v.producer.revision) then Some(RevisionInexact)
    else if v.producer.contract == "" then Some(ContractMissing)
    else if !ContractAllowed(v.producer.system, v.producer.contract) then Some(ContractForeign)
    else if v.domain !in DomainsOf(v.producer.system) then Some(DomainForeign)
    else None
  }

  /** then about what, */
  function ClaimProblem(v: Envelope): Option<Rejection> {
    if v.subject.kind == "" || v.subject.id == "" then Some(SubjectMissing)
    else if SubjectTooBig(v.subject) then Some(SubjectTooLong)
    else if v.assertion == "" || v.outcome == "" || v.source == "" then Some(ClaimMissing)
    else if ByteLen(v.assertion) > 128 || ByteLen(v.outcome) > 128 || ByteLen(v.source) > 512 then Some(ClaimTooLong)
    else None
  }

  /** then when, */
  function TimeProblem(v: Envelope, evaluatedAt: Time, requireFresh: bool): Option<Rejection> {
    if v.observedAt.IsZero() then Some(ObservationMissing)
    else if v.observedAt.Utc().After(evaluatedAt.Utc()) then Some(ObservationInFuture)
    else if v.validUntil.IsZero() then Some(ValidityMissing)
    else if !v.validUntil.Utc().After(v.observedAt.Utc()) then Some(ValidityNotForward)
    else if requireFresh && evaluatedAt.Utc().After(v.validUntil.Utc()) then Some(Expired)
    else None
  }

  /** and last what else it carries. */
  function PayloadProblem(v: Envelope): Option<Rejection> {
    if v.dataClass !in DATA_CLASSES then Some(DataClassInvalid)
    else if v.userContent then Some(HoldsUserContent)
    else if v.secretMaterial then Some(HoldsSecrets)
    else if ByteLen(v.summary) > 512 then Some(SummaryTooLong)
    else if v.payloadDigest != "" && !IsSha256Digest(v.payloadDigest) then Some(DigestMalformed)
    else None
  }

  /** normalizeEvidenceEnvelope: fresh mode for new evidence, stored mode for the file. */
  function Normalize(input: Envelope, evaluatedAt: Time, requireFresh: bool): Result<Envelope, Rejection> {
    var v := Trimmed(input);
    if ProvenanceProblem(v).Some? then Err(ProvenanceProblem(v).value)
    else if ClaimProblem(v).Some? then Err(ClaimProblem(v).value)
    else if TimeProblem(v, evaluatedAt, requireFresh).Some? then Err(TimeProblem(v, evaluatedAt, requireFresh).value)
    else if PayloadProblem(v).Some? then Err(PayloadProblem(v).value)
    else Ok(InUtc(v))
  }

  /** EvidenceEnvelope.FreshAt: the deadline itself still counts. */
  predicate FreshAt(v: Envelope, evaluatedAt: Time) {
    !v.validUntil.IsZero() && !evaluatedAt.Utc().After(v.validUntil.Utc())
  }

  lemma FreshMeans(v: Envelope, t: Time)
    ensures FreshAt(v, t) <==> v.validUntil.instant != 0 && t.instant <= v.validUntil.instant
  {
  }

  // ---------- what acceptance means ----------

  /** The one spelling of an envelope. */
  function Canonical(v: Envelope): Envelope {
    InUtc(Trimmed(v))
  }

  /** The provenance and authority requirements, which no clock can change. */
  ghost predicate Attributed(v: Envelope) {
    && RepositoryOf(v.producer.system) == Some(v.producer.repository)
    && HexDigits(v.producer.revision, 40)
    && v.producer.contract != "" && ContractAllowed(v.producer.system, v.producer.contract)
    && v.domain in DomainsOf(v.producer.system)
  }

  /** A text that must be there, and how long it may be in bytes. */
  ghost predicate Given(s: string, limit: nat) {
    s != "" && ByteLen(s) <= limit
  }

  ghost predicate WellFormed(v: Envelope) {
    && v.version == "goreecloud.evidence-envelope.v1"
    && Given(v.id, 128)
    && Attributed(v)
    && Given(v.subject.kind, 64) && Given(v.subject.id, 256) && ByteLen(v.subject.scope) <= 256
    && Given(v.assertion, 128) && Given(v.outcome, 128) && Given(v.source, 512)
    && 0 !in [v.observedAt.instant, v.validUntil.instant] && v.observedAt.instant < v.validUntil.instant
    && v.dataClass in ["public", "operational", "derived"]
    && !v.userContent && !v.secretMaterial
    && ByteLen(v.summary) <= 512
    && (v.payloadDigest == "" || IsDigest(v.payloadDigest))
  }

  ghost predicate IsDigest(s: string) {
    exists h: string :: s == "sha256:" + h && HexDigits(h, 64)
  }

  /** No text field has white space around it, and both times are shown in UTC. */
  predicate Tidy(v: Envelope) {
    && Tight(v.version) && Tight(v.id) && Tight(v.producer.repository) && Tight(v.producer.revision)
    && Tight(v.producer.contract) && Tight(v.domain)
    && Tight(v.subject.kind) && Tight(v.subject.id) && Tight(v.subject.scope)
    && Tight(v.assertion) && Tight(v.outcome) && Tight(v.source) && Tight(v.summary) && Tight(v.payloadDigest)
    && v.observedAt.offset == 0 && v.validUntil.offset == 0
  }

  /** What the registry may hold. */
  ghost predicate Stored(v: Envelope) {
    WellFormed(v) && Tidy(v)
  }

  function Key(v: Envelope): string { v.id }

  lemma StoredProblems(c: Envelope)
    ensures WellFormed(c) <==>
            && ProvenanceProblem(c).None? && ClaimProblem(c).None? && PayloadProblem(c).None?
            && !c.observedAt.IsZero() && !c.validUntil.IsZero() && c.observedAt.Before(c.validUntil)
  {
    PatternsMean(c.producer.revision);
    PatternsMean(c.payloadDigest);
    assert IsDigest(c.payloadDigest) <==> IsSha256Digest(c.payloadDigest);
    hide RepositoryOf, DomainsOf, ContractAllowed, IsFullGitRevision, IsSha256Digest, IsDigest, HexDigits, ByteLen;
  }

  /** The normaliser accepts exactly the well-formed spellings observed by now (and, in
      fresh mode, not past their deadline), and returns the one spelling. */
  lemma NormalizeMeaning(v: Envelope, t: Time, requireFresh: bool)
    ensures Normalize(v, t, requireFresh).Ok? <==>
            && WellFormed(Canonical(v))
            && v.observedAt.instant <= t.instant
            && (requireFresh ==> t.instant <= v.validUntil.instant)
    ensures Normalize(v, t, requireFresh).Ok? ==> Normalize(v, t, requireFresh).value == Canonical(v)
  {
    var c := Canonical(v);
    StoredProblems(c);
    CanonicalProblems(v);
    hide RepositoryOf, DomainsOf, ContractAllowed, WellFormed, ProvenanceProblem, ClaimProblem, PayloadProblem, TrimSpace;
  }

  /** Only the checks of the times look at the times. */
  lemma CanonicalProblems(v: Envelope)
    ensures ProvenanceProblem(Canonical(v)) == ProvenanceProblem(Trimmed(v))
    ensures ClaimProblem(Canonical(v)) == ClaimProblem(Trimmed(v))
    ensures PayloadProblem(Canonical(v)) == PayloadProblem(Trimmed(v))
  {
    hide RepositoryOf, DomainsOf, ContractAllowed, IsFullGitRevision, IsSha256Digest, ByteLen, TrimSpace;
  }

  // ---------- which rejection ----------

  /** What is wrong, in the one spelling c of an envelope, when a rejection applies. */
  ghost predicate Ground(c: Envelope, t: Time, requireFresh: bool, why: Rejection) {
    match why
    case VersionUnsupported => c.version != "goreecloud.evidence-envelope.v1"
    case IdInvalid => !Given(c.id, 128)
    case ProducerUnknown => c.producer.system.Foreign?
    case RepositoryForeign => RepositoryOf(c.producer.system) != Some(c.producer.repository)
    case RevisionInexact => !HexDigits(c.producer.revision, 40)
    case ContractMissing => c.producer.contract == ""
    case ContractForeign => !ContractAllowed(c.producer.system, c.producer.contract)
    case DomainForeign => c.domain !in DomainsOf(c.producer.system)
    case SubjectMissing => "" in [c.subject.kind, c.subject.id]
    case SubjectTooLong => ByteLen(c.subject.kind) > 64 || ByteLen(c.subject.id) > 256 || ByteLen(c.subject.scope) > 256
    case ClaimMissing => "" in [c.assertion, c.outcome, c.source]
    case ClaimTooLong => ByteLen(c.assertion) > 128 || ByteLen(c.outcome) > 128 || ByteLen(c.source) > 512
    case ObservationMissing => c.observedAt.instant == 0
    case ObservationInFuture => t.instant < c.observedAt.instant
    case ValidityMissing => c.validUntil.instant == 0
    case ValidityNotForward => c.validUntil.instant <= c.observedAt.instant
    case Expired => requireFresh && c.validUntil.instant < t.instant
    case DataClassInvalid => c.dataClass !in ["public", "operational", "derived"]
    case HoldsUserContent => c.userContent
    case HoldsSecrets => c.secretMaterial
    case SummaryTooLong => ByteLen(c.summary) > 512
    case DigestMalformed => c.payloadDigest != "" && !IsDigest(c.payloadDigest)
  }

  /** The order in which the grounds are looked for. */
  ghost function Rank(why: Rejection): nat {
    match why
    case VersionUnsupported => 1 case IdInvalid => 2 case ProducerUnknown => 3 case RepositoryForeign => 4
    case RevisionInexact => 5 case ContractMissing => 6 case ContractForeign => 7 case DomainForeign => 8
    case SubjectMissing => 9 case SubjectTooLong => 10 case ClaimMissing => 11 case ClaimTooLong => 12
    case ObservationMissing => 13 case ObservationInFuture => 14 case ValidityMissing => 15 case ValidityNotForward => 16
    case Expired => 17 case DataClassInvalid => 18 case HoldsUserContent => 19 case HoldsSecrets => 20
    case SummaryTooLong => 21 case DigestMalformed => 22
  }

  /** The problem is a ground of a rank from first to last, and no other of these ranks comes
      before it; without a problem there is no ground of these ranks. */
  ghost predicate Finds(c: Envelope, t: Time, requireFresh: bool, problem: Option<Rejection>, first: nat, last: nat, other: Rejection) {
    if problem.None? then first <= Rank(other) <= last ==> !Ground(c, t, requireFresh, other)
    else
      && first <= Rank(problem.value) <= last && Ground(c, t, requireFresh, problem.value)
      && (first <= Rank(other) < Rank(problem.value) ==> !Ground(c, t, requireFresh, other))
  }

  lemma ProvenanceGrounds(c: Envelope, t: Time, requireFresh: bool)
    ensures Ground(c, t, requireFresh, VersionUnsupported) <==> c.version != ENVELOPE_VERSION
    ensures Ground(c, t, requireFresh, IdInvalid) <==> c.id == "" || ByteLen(c.id) > 128
    ensures Ground(c, t, requireFresh, ProducerUnknown) <==> RepositoryOf(c.producer.system).None?
    ensures Ground(c, t, requireFresh, RepositoryForeign) <==> RepositoryOf(c.producer.system) != Some(c.producer.repository)
    ensures Ground(c, t, requireFresh, RevisionInexact) <==> !IsFullGitRevision(c.producer.revision)
    ensures Ground(c, t, requireFresh, ContractMissing) <==> c.producer.contract == ""
    ensures Ground(c, t, requireFresh, ContractForeign) <==> !ContractAllowed(c.producer.system, c.producer.contract)
    ensures Ground(c, t, requireFresh, DomainForeign) <==> c.domain !in DomainsOf(c.producer.system)
  {
    PatternsMean(c.producer.revision);
    assert c.producer.system.Foreign? <==> RepositoryOf(c.producer.system).None?;
    hide RepositoryOf, DomainsOf, ContractAllowed, IsFullGitRevision, HexDigits, ByteLen;
  }

  lemma ProvenanceRanks(other: Rejection)
    ensures Rank(VersionUnsupported) == 1 && Rank(IdInvalid) == 2 && Rank(ProducerUnknown) == 3 && Rank(RepositoryForeign) == 4
    ensures Rank(RevisionInexact) == 5 && Rank(ContractMissing) == 6 && Rank(ContractForeign) == 7 && Rank(DomainForeign) == 8
    ensures Rank(other) <= 8 ==>
              other in [VersionUnsupported, IdInvalid, ProducerUnknown, RepositoryForeign,
                        RevisionInexact, ContractMissing, ContractForeign, DomainForeign]
  {
  }

  lemma ProvenanceFirst(c: Envelope, t: Time, requireFresh: bool, other: Rejection)
    ensures Finds(c, t, requireFresh, ProvenanceProblem(c), 1, 8, other)
  {
    ProvenanceGrounds(c, t, requireFresh);
    ProvenanceRanks(other);
    hide Ground, Rank, RepositoryOf, DomainsOf, ContractAllowed, IsFullGitRevision, ByteLen;
  }

  lemma ClaimFirst(c: Envelope, t: Time, requireFresh: bool, other: Rejection)
    ensures Finds(c, t, requireFresh, ClaimProblem(c), 9, 12, other)
  {
    hide RepositoryOf, DomainsOf, ContractAllowed, IsDigest, HexDigits, ByteLen;
  }

  lemma TimeFirst(c: Envelope, t: Time, requireFresh: bool, other: Rejection)
    ensures Finds(c, t, requireFresh, TimeProblem(c, t, requireFresh), 13, 17, other)
  {
    hide RepositoryOf, DomainsOf, ContractAllowed, IsDigest, HexDigits, ByteLen;
  }

  lemma PayloadGrounds(c: Envelope, t: Time, requireFresh: bool)
    ensures Ground(c, t, requireFresh, DataClassInvalid) <==> c.dataClass !in DATA_CLASSES
    ensures Ground(c, t, requireFresh, HoldsUserContent) <==> c.userContent
    ensures Ground(c, t, requireFresh, HoldsSecrets) <==> c.secretMaterial
    ensures Ground(c, t, requireFresh, SummaryTooLong) <==> ByteLen(c.summary) > 512
    ensures Ground(c, t, requireFresh, DigestMalformed) <==> c.payloadDigest != "" && !IsSha256Digest(c.payloadDigest)
  {
    DigestMeans(c.payloadDigest);
    hide RepositoryOf, DomainsOf, ContractAllowed, IsDigest, IsSha256Digest, HexDigits, ByteLen;
  }

  lemma DigestMeans(s: string)
    ensures IsDigest(s) <==> IsSha256Digest(s)
  {
    PatternsMean(s);
  }

  lemma PayloadRanks(other: Rejection)
    ensures Rank(DataClassInvalid) == 18 && Rank(HoldsUserContent) == 19 && Rank(HoldsSecrets) == 20
    ensures Rank(SummaryTooLong) == 21 && Rank(DigestMalformed) == 22
    ensures Rank(other) >= 18 ==> other in [DataClassInvalid, HoldsUserContent, HoldsSecrets, SummaryTooLong, DigestMalformed]
  {
  }

  lemma PayloadFirst(c: Envelope, t: Time, requireFresh: bool, other: Rejection)
    ensures Finds(c, t, requireFresh, PayloadProblem(c), 18, 22, other)
  {
    PayloadGrounds(c, t, requireFresh);
    PayloadRanks(other);
    hide Ground, Rank, IsSha256Digest, ByteLen, DATA_CLASSES;
  }

  /** The first problem of the four groups of checks. */
  ghost function FirstProblem(c: Envelope, t: Time, requireFresh: bool): Option<Rejection> {
    if ProvenanceProblem(c).Some? then ProvenanceProblem(c)
    else if ClaimProblem(c).Some? then ClaimProblem(c)
    else if TimeProblem(c, t, requireFresh).Some? then TimeProblem(c, t, requireFresh)
    else PayloadProblem(c)
  }

  lemma NormalizeProblem(v: Envelope, t: Time, requireFresh: bool)
    ensures Normalize(v, t, requireFresh).Err? ==> FirstProblem(Canonical(v), t, requireFresh) == Some(Normalize(v, t, requireFresh).error)
  {
    hide ProvenanceProblem, ClaimProblem, TimeProblem, PayloadProblem, Canonical, Trimmed, InUtc;
    CanonicalProblems(v);
    CanonicalTimes(v, t, requireFresh);
  }

  lemma CanonicalTimes(v: Envelope, t: Time, requireFresh: bool)
    ensures TimeProblem(Canonical(v), t, requireFresh) == TimeProblem(Trimmed(v), t, requireFresh)
  {
    hide TrimSpace, TrimSubject;
    assert Trimmed(v).observedAt == v.observedAt && Trimmed(v).validUntil == v.validUntil;
    assert Canonical(v).observedAt == v.observedAt.Utc() && Canonical(v).validUntil == v.validUntil.Utc();
    hide Trimmed, InUtc, Canonical;
  }

  lemma FirstProblemFirst(c: Envelope, t: Time, requireFresh: bool, other: Rejection)
    ensures Finds(c, t, requireFresh, FirstProblem(c, t, requireFresh), 1, 22, other)
  {
    hide Ground, Rank, ProvenanceProblem, ClaimProblem, TimeProblem, PayloadProblem;
    ProvenanceFirst(c, t, requireFresh, other);
    ClaimFirst(c, t, requireFresh, other);
    TimeFirst(c, t, requireFresh, other);
    PayloadFirst(c, t, requireFresh, other);
  }

  /** The rejection names the first ground in the order of the checks. */
  lemma RejectedByFirstGround(v: Envelope, t: Time, requireFresh: bool, other: Rejection)
    ensures Normalize(v, t, requireFresh).Err? ==>
              var why := Normalize(v, t, requireFresh).error;
              Ground(Canonical(v), t, requireFresh, why) && (Rank(other) < Rank(why) ==> !Ground(Canonical(v), t, requireFresh, other))
  {
    hide Normalize, Canonical, Ground, FirstProblem;
    assert Rank(other) >= 1;
    hide Rank;
    NormalizeProblem(v, t, requireFresh);
    FirstProblemFirst(Canonical(v), t, requireFresh, other);
  }

  /** Canonical yields a tidy envelope and leaves exactly the tidy ones alone. */
  lemma CanonicalIsTidy(v: Envelope)
    ensures Tidy(Canonical(v))
    ensures Canonical(v) == v <==> Tidy(v)
    ensures Canonical(Canonical(v)) == Canonical(v)
  {
    hide WellFormed, Normalize, TrimSpace, Tight;
    TrimTight(v.version); TrimTight(v.id);
    TrimTight(v.producer.repository); TrimTight(v.producer.revision); TrimTight(v.producer.contract);
    TrimTight(v.domain); TrimTight(v.subject.kind); TrimTight(v.subject.id); TrimTight(v.subject.scope);
    TrimTight(v.assertion); TrimTight(v.outcome); TrimTight(v.source);
    TrimTight(v.summary); TrimTight(v.payloadDigest);
  }

  /** Normalisation is idempotent and stable: an accepted envelope is a fixed point of the
      stored mode at every later time, and of the fresh mode exactly until its deadline. */
  lemma NormalizeIsStable(v: Envelope, t: Time, later: Time, requireFresh: bool)
    requires t.instant <= later.instant
    ensures Normalize(v, t, requireFresh).Ok? ==>
              var c := Normalize(v, t, requireFresh).value;
              && Stored(c)
              && Normalize(c, later, false) == Ok(c)
              && Normalize(c, later, true) == if FreshAt(c, later) then Ok(c) else Err(Expired)
  {
    hide Normalize, WellFormed, Tidy, TrimSpace;
    if Normalize(v, t, requireFresh).Ok? {
      var c := Normalize(v, t, requireFresh).value;
      NormalizeMeaning(v, t, requireFresh);
      CanonicalIsTidy(v);
      StoredReload(c, later);
    }
  }

  /** Stored evidence is refused on reload only when it lies in the reader's future; expiry
      matters to the fresh mode alone. */
  lemma StoredReload(c: Envelope, t: Time)
    ensures Stored(c) ==>
              Normalize(c, t, false) == if c.observedAt.instant <= t.instant then Ok(c) else Err(ObservationInFuture)
    ensures Stored(c) && c.observedAt.instant <= t.instant ==>
              Normalize(c, t, true) == if FreshAt(c, t) then Ok(c) else Err(Expired)
  {
    CanonicalIsTidy(c);
    StoredProblems(c);
    hide WellFormed, Tidy, ProvenanceProblem, ClaimProblem, PayloadProblem, TrimSpace;
  }

  lemma StoredIsCanonical(c: Envelope)
    ensures Stored(c) <==> WellFormed(c) && Canonical(c) == c
  {
    hide WellFormed, TrimSpace, Tight;
    CanonicalIsTidy(c);
  }

  /** Stored evidence always has a deadline. */
  lemma StoredDeadline(c: Envelope, t: Time)
    ensures Stored(c) ==> (FreshAt(c, t) <==> t.instant <= c.validUntil.instant)
  {
    FreshMeans(c, t);
    hide Attributed, Given, IsDigest, ByteLen, Tidy, FreshAt;
  }

  /** In stored evidence the domain alone, and the contract alone, name the producer. */
  lemma StoredAuthority(a: Envelope, b: Envelope)
    ensures Stored(a) && Stored(b) && a.domain == b.domain ==> a.producer.system == b.producer.system
    ensures Stored(a) && Stored(b) && a.producer.contract == b.producer.contract ==> a.producer.system == b.producer.system
    ensures Stored(a) ==> !a.producer.system.Foreign?
  {
    hide DomainsOf, ContractAllowed, IsFullGitRevision, IsSha256Digest, ByteLen, Tidy;
    if Stored(a) && Stored(b) {
      AuthorityIsExclusive(a.producer.system, b.producer.system, a.domain, a.producer.contract);
    }
  }
}
