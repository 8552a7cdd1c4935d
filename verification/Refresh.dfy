/** The refresh loop: an intent that asks a producer for evidence, the response that
    answers it, and the handoff that binds both to an evidence envelope. */
module Refresh {
  import opened Wrappers
  import opened Text
  import opened GoTime
  import opened Authority
  import opened Envelope

  datatype Coordinator = Coordinator(system: string, repository: string, revision: string, contract: string)

  datatype Intent = Intent(
    version: string,
    id: string,
    coordinator: Coordinator,
    producer: System,
    domain: string,
    subject: Subject,
    assertion: string,
    reason: string,
    requestedAt: Time,
    latestObservedAt: Option<Time>,
    userContent: bool,
    secretMaterial: bool,
    authorityTransferred: bool,
    executionAuthorized: bool)

  datatype IntentReference = IntentReference(id: string, coordinatorRevision: string, reason: string, requestedAt: Time)

  datatype Responder = Responder(system: System, repository: string, revision: string)

  datatype Response = Response(
    version: string,
    id: string,
    intent: IntentReference,
    producer: Responder,
    domain: string,
    subject: Subject,
    assertion: string,
    status: string,
    reasonCode: string,
    respondedAt: Time,
    evidenceProduced: bool,
    evidenceEnvelopeId: string,
    userContent: bool,
    secretMaterial: bool,
    authorityTransferred: bool,
    executionAuthorized: bool)

  datatype Handoff = Handoff(
    response: Response,
    evidence: Envelope,
    currentEvidenceEstablished: bool,
    producerAuthorityPreserved: bool,
    executionAuthorized: bool)

  datatype Refusal =
    | OtherVersion | BadId | NotCoordinatedByMesh | LooseRevision | OtherContract
    | MeshTargetsItself | OtherDomain | NoSubject | LongSubject | AssertionInvalid
    | ReasonInvalid | RequestTimeMissing | RequestInFuture | LatestAfterRequest | StaleNeedsLatest
    | EmptyClaimsLatest | HoldsPrivateMaterial | TransfersAuthority
    | IntentIdInvalid | OtherRepository | LooseProducerRevision | StatusInvalid | ReasonCodeTooLong | ResponseTimeMissing
    | ResponseTimeOutOfRange | EvidenceWithoutCompletion | EvidenceIdInvalid | EvidenceIdForbidden
    | NotThisIntent | ChangedTheRequest
    | HandoffIncomplete | EvidenceRefused(why: Rejection) | OtherEvidence | OtherProvenance
    | ChangedTheResponse | ObservedBeforeRequest | ObservedAfterResponse

  const INTENT_VERSION := "goreecloud.evidence-refresh-intent.v1"
  const INTENT_CONTRACT := "contracts/mesh.evidence-refresh-intent.schema.json"
  const RESPONSE_VERSION := "goreecloud.evidence-refresh-response.v1"
  const COORDINATOR := "goreecloud-mesh"
  const COORDINATOR_REPOSITORY := "GoreeCloud/goreecloud-mesh"

  const STALE := "stale"
  const EMPTY := "empty"
  const MANUAL := "manual"
  const RECEIVED := "received"
  const COMPLETED := "completed"
  const DECLINED := "declined"
  const UNAVAILABLE := "unavailable"

  predicate ValidReason(reason: string) {
    reason == STALE || reason == EMPTY || reason == MANUAL
  }

  predicate ValidStatus(status: string) {
    status == RECEIVED || status == COMPLETED || status == DECLINED || status == UNAVAILABLE
  }

  // ---------- intent ----------

  function TrimmedIntent(v: Intent): Intent {
    v.(version := TrimSpace(v.version),
    id := TrimSpace(v.id),
    coordinator := Coordinator(TrimSpace(v.coordinator.system), TrimSpace(v.coordinator.repository),
                               TrimSpace(v.coordinator.revision), TrimSpace(v.coordinator.contract)),
    domain := TrimSpace(v.domain),
    subject := TrimSubject(v.subject),
    assertion := TrimSpace(v.assertion))
  }

  function IntentInUtc(v: Intent): Intent {
    v.(requestedAt := v.requestedAt.Utc(),
    latestObservedAt := if v.latestObservedAt.Some? then Some(v.latestObservedAt.value.Utc()) else None)
  }

  /** The checks up to the request time, then those on it, then the rest, in order. */
  function IntentProblem(v: Intent): Option<Refusal> {
    if v.version != INTENT_VERSION then Some(OtherVersion)
    else if v.id == "" || ByteLen(v.id) > 128 then Some(BadId)
    else if v.coordinator.system != COORDINATOR || v.coordinator.repository != COORDINATOR_REPOSITORY then Some(NotCoordinatedByMesh)
    else if !IsFullGitRevision(v.coordinator.revision) then Some(LooseRevision)
    else if v.coordinator.contract != INTENT_CONTRACT then Some(OtherContract)
    else if v.producer == Mesh then Some(MeshTargetsItself)
    else if v.domain !in DomainsOf(v.producer) then Some(OtherDomain)
    else if v.subject.kind == "" || v.subject.id == "" then Some(NoSubject)
    else if SubjectTooBig(v.subject) then Some(LongSubject)
    else if v.assertion == "" || ByteLen(v.assertion) > 128 then Some(AssertionInvalid)
    else if !ValidReason(v.reason) then Some(ReasonInvalid)
    else None
  }

  function IntentTimeProblem(v: Intent, evaluatedAt: Time): Option<Refusal> {
    if v.requestedAt.IsZero() then Some(RequestTimeMissing)
    else if v.requestedAt.Utc().After(evaluatedAt.Utc()) then Some(RequestInFuture)
    else if v.latestObservedAt.Some? && v.latestObservedAt.value.Utc().After(v.requestedAt.Utc()) then Some(LatestAfterRequest)
    else if v.reason == STALE && v.latestObservedAt.None? then Some(StaleNeedsLatest)
    else if v.reason == EMPTY && v.latestObservedAt.Some? then Some(EmptyClaimsLatest)
    else if v.userContent || v.secretMaterial then Some(HoldsPrivateMaterial)
    else if v.authorityTransferred || v.executionAuthorized then Some(TransfersAuthority)
    else None
  }

  /** normalizeEvidenceRefreshIntentAt */
  function NormalizeIntent(input: Intent, evaluatedAt: Time): Result<Intent, Refusal> {
    var v := TrimmedIntent(input);
    if IntentProblem(v).Some? then Err(IntentProblem(v).value)
    else if IntentTimeProblem(v, evaluatedAt).Some? then Err(IntentTimeProblem(v, evaluatedAt).value)
    else Ok(IntentInUtc(v))
  }

  // ---------- response ----------

  function TrimmedResponse(v: Response): Response {
    v.(version := TrimSpace(v.version),
    id := TrimSpace(v.id),
    intent := v.intent.(id := TrimSpace(v.intent.id), coordinatorRevision := TrimSpace(v.intent.coordinatorRevision)),
    producer := v.producer.(repository := TrimSpace(v.producer.repository), revision := TrimSpace(v.producer.revision)),
    domain := TrimSpace(v.domain),
    subject := TrimSubject(v.subject),
    assertion := TrimSpace(v.assertion),
    reasonCode := TrimSpace(v.reasonCode),
    evidenceEnvelopeId := TrimSpace(v.evidenceEnvelopeId))
  }

  function ResponseInUtc(v: Response): Response {
    v.(intent := v.intent.(requestedAt := v.intent.requestedAt.Utc()), respondedAt := v.respondedAt.Utc())
  }

  function ReferenceProblem(v: Response, evaluatedAt: Time): Option<Refusal> {
    if v.version != RESPONSE_VERSION then Some(OtherVersion)
    else if v.id == "" || ByteLen(v.id) > 128 then Some(BadId)
    else if v.intent.id == "" || ByteLen(v.intent.id) > 128 then Some(IntentIdInvalid)
    else if !IsFullGitRevision(v.intent.coordinatorRevision) then Some(LooseRevision)
    else if !ValidReason(v.intent.reason) then Some(ReasonInvalid)
    else if v.intent.requestedAt.IsZero() then Some(RequestTimeMissing)
    else if v.intent.requestedAt.Utc().After(evaluatedAt.Utc()) then Some(RequestInFuture)
    else None
  }

  function ResponderProblem(v: Response): Option<Refusal> {
    if v.producer.system == Mesh then Some(MeshTargetsItself)
    else if RepositoryOf(v.producer.system) != Some(v.producer.repository) then Some(OtherRepository)
    else if !IsFullGitRevision(v.producer.revision) then Some(LooseProducerRevision)
    else if v.domain !in DomainsOf(v.producer.system) then Some(OtherDomain)
    else if v.subject.kind == "" || v.subject.id == "" then Some(NoSubject)
    else if SubjectTooBig(v.subject) then Some(LongSubject)
    else if v.assertion == "" || ByteLen(v.assertion) > 128 then Some(AssertionInvalid)
    else None
  }

  function AnswerProblem(v: Response, evaluatedAt: Time): Option<Refusal> {
    if !ValidStatus(v.status) then Some(StatusInvalid)
    else if ByteLen(v.reasonCode) > 64 then Some(ReasonCodeTooLong)
    else if v.respondedAt.IsZero() then Some(ResponseTimeMissing)
    else if v.respondedAt.Utc().Before(v.intent.requestedAt.Utc()) || v.respondedAt.Utc().After(evaluatedAt.Utc()) then Some(ResponseTimeOutOfRange)
    else if v.status != COMPLETED && v.evidenceProduced then Some(EvidenceWithoutCompletion)
    else if v.evidenceProduced && (v.evidenceEnvelopeId == "" || ByteLen(v.evidenceEnvelopeId) > 128) then Some(EvidenceIdInvalid)
    else if !v.evidenceProduced && v.evidenceEnvelopeId != "" then Some(EvidenceIdForbidden)
    else if v.userContent || v.secretMaterial then Some(HoldsPrivateMaterial)
    else if v.authorityTransferred || v.executionAuthorized then Some(TransfersAuthority)
    else None
  }

  /** normalizeEvidenceRefreshResponseAt */
  function NormalizeResponse(input: Response, evaluatedAt: Time): Result<Response, Refusal> {
    var v := TrimmedResponse(input);
    if ReferenceProblem(v, evaluatedAt).Some? then Err(ReferenceProblem(v, evaluatedAt).value)
    else if ResponderProblem(v).Some? then Err(ResponderProblem(v).value)
    else if AnswerProblem(v, evaluatedAt).Some? then Err(AnswerProblem(v, evaluatedAt).value)
    else Ok(ResponseInUtc(v))
  }

  /** normalizeEvidenceRefreshResponseForIntentAt */
  function NormalizeResponseFor(input: Response, intent: Intent, evaluatedAt: Time): Result<Response, Refusal> {
    var i := NormalizeIntent(intent, evaluatedAt);
    var v := NormalizeResponse(input, evaluatedAt);
    if i.Err? then Err(i.error)
    else if v.Err? then v
    else if v.value.intent.id != i.value.id || v.value.intent.coordinatorRevision != i.value.coordinator.revision
            || v.value.intent.reason != i.value.reason || !v.value.intent.requestedAt.Equal(i.value.requestedAt) then Err(NotThisIntent)
    else if v.value.producer.system != i.value.producer || v.value.domain != i.value.domain
            || v.value.subject != i.value.subject || v.value.assertion != i.value.assertion then Err(ChangedTheRequest)
    else v
  }

  // ---------- handoff ----------

  /** normalizeEvidenceRefreshHandoffAt, which normalises the intent twice. */
  function NormalizeHandoff(response: Response, intent: Intent, evidence: Envelope, evaluatedAt: Time): Result<Handoff, Refusal> {
    var i := NormalizeIntent(intent, evaluatedAt);
    if i.Err? then Err(i.error)
    else
      var r := NormalizeResponseFor(response, i.value, evaluatedAt);
      if r.Err? then Err(r.error)
      else if r.value.status != COMPLETED || !r.value.evidenceProduced || r.value.evidenceEnvelopeId == "" then Err(HandoffIncomplete)
      else
        var e := Normalize(evidence, evaluatedAt, true);
        if e.Err? then Err(EvidenceRefused(e.error)) else BindEvidence(i.value, r.value, e.value)
  }

  function BindEvidence(i: Intent, r: Response, e: Envelope): Result<Handoff, Refusal> {
    if e.id != r.evidenceEnvelopeId then Err(OtherEvidence)
    else if e.producer.system != r.producer.system || e.producer.repository != r.producer.repository
            || e.producer.revision != r.producer.revision then Err(OtherProvenance)
    else if e.domain != r.domain || e.subject != r.subject || e.assertion != r.assertion then Err(ChangedTheResponse)
    else if e.observedAt.Before(i.requestedAt) then Err(ObservedBeforeRequest)
    else if e.observedAt.After(r.respondedAt) then Err(ObservedAfterResponse)
    else Ok(Handoff(r, e, true, true, false))
  }

  // ---------- laws ----------

  lemma TrimSubjectTwice(s: Subject)
    ensures TrimSubject(TrimSubject(s)) == TrimSubject(s)
  {
    TrimTight(s.kind); TrimTight(s.id); TrimTight(s.scope);
    hide TrimSpace;
  }

  lemma TrimIntentTwice(v: Intent)
    ensures TrimmedIntent(IntentInUtc(TrimmedIntent(v))) == IntentInUtc(TrimmedIntent(v))
    ensures IntentInUtc(IntentInUtc(TrimmedIntent(v))) == IntentInUtc(TrimmedIntent(v))
  {
    hide TrimSpace, TrimSubject;
    TrimTight(v.version); TrimTight(v.id); TrimTight(v.domain); TrimTight(v.assertion);
    TrimTight(v.coordinator.system); TrimTight(v.coordinator.repository);
    TrimTight(v.coordinator.revision); TrimTight(v.coordinator.contract);
    TrimSubjectTwice(v.subject);
  }

  lemma IntentChecksIgnoreZone(v: Intent, t: Time, later: Time)
    requires t.instant <= later.instant
    ensures IntentProblem(IntentInUtc(v)) == IntentProblem(v)
    ensures IntentTimeProblem(v, t).None? ==> IntentTimeProblem(IntentInUtc(v), later).None?
    ensures IntentTimeProblem(IntentInUtc(v), t) == IntentTimeProblem(v, t)
  {
    hide ByteLen, IsFullGitRevision, DomainsOf, SubjectTooBig, ValidReason;
  }

  /** A normalised intent is a fixed point of the normaliser from then on. */
  lemma IntentIsStable(v: Intent, t: Time, later: Time)
    requires t.instant <= later.instant
    ensures NormalizeIntent(v, t).Ok? ==> NormalizeIntent(NormalizeIntent(v, t).value, later) == NormalizeIntent(v, t)
  {
    hide TrimmedIntent, IntentInUtc, IntentProblem, IntentTimeProblem;
    TrimIntentTwice(v);
    IntentChecksIgnoreZone(TrimmedIntent(v), t, later);
  }

  /** Hence normalising the intent before checking the response against it is redundant. */
  lemma SecondNormalisationIsRedundant(response: Response, intent: Intent, t: Time)
    ensures NormalizeIntent(intent, t).Ok? ==>
              NormalizeResponseFor(response, NormalizeIntent(intent, t).value, t) == NormalizeResponseFor(response, intent, t)
  {
    hide NormalizeIntent, NormalizeResponse;
    IntentIsStable(intent, t, t);
  }

  lemma TrimResponseTwice(v: Response)
    ensures TrimmedResponse(ResponseInUtc(TrimmedResponse(v))) == ResponseInUtc(TrimmedResponse(v))
    ensures ResponseInUtc(ResponseInUtc(TrimmedResponse(v))) == ResponseInUtc(TrimmedResponse(v))
  {
    hide TrimSpace, TrimSubject;
    TrimTight(v.version); TrimTight(v.id); TrimTight(v.domain); TrimTight(v.assertion);
    TrimTight(v.intent.id); TrimTight(v.intent.coordinatorRevision);
    TrimTight(v.producer.repository); TrimTight(v.producer.revision);
    TrimTight(v.reasonCode); TrimTight(v.evidenceEnvelopeId);
    TrimSubjectTwice(v.subject);
  }

  lemma ResponseChecksIgnoreZone(v: Response, t: Time, later: Time)
    requires t.instant <= later.instant
    ensures ReferenceProblem(v, t).None? ==> ReferenceProblem(ResponseInUtc(v), later).None?
    ensures ResponderProblem(ResponseInUtc(v)) == ResponderProblem(v)
    ensures AnswerProblem(v, t).None? ==> AnswerProblem(ResponseInUtc(v), later).None?
  {
    hide ByteLen, IsFullGitRevision, DomainsOf, SubjectTooBig, ValidReason, ValidStatus, RepositoryOf;
  }

  /** A normalised response is a fixed point of the normaliser from then on. */
  lemma ResponseIsStable(v: Response, t: Time, later: Time)
    requires t.instant <= later.instant
    ensures NormalizeResponse(v, t).Ok? ==> NormalizeResponse(NormalizeResponse(v, t).value, later) == NormalizeResponse(v, t)
  {
    hide TrimmedResponse, ResponseInUtc, ReferenceProblem, ResponderProblem, AnswerProblem;
    TrimResponseTwice(v);
    ResponseChecksIgnoreZone(TrimmedResponse(v), t, later);
  }

  // ---------- what acceptance means ----------

  /** A subject that is named, and how long its parts may be in bytes. */
  ghost predicate ProperSubject(s: Subject) {
    Given(s.kind, 64) && Given(s.id, 256) && ByteLen(s.scope) <= 256
  }

  ghost predicate MovesNothing(userContent: bool, secretMaterial: bool, authorityTransferred: bool, executionAuthorized: bool) {
    !userContent && !secretMaterial && !authorityTransferred && !executionAuthorized
  }

  /** A well-formed intent, whatever the clock says. */
  ghost predicate ProperIntent(v: Intent) {
    && v.version == "goreecloud.evidence-refresh-intent.v1" && Given(v.id, 128)
    && v.coordinator.system == "goreecloud-mesh" && v.coordinator.repository == "GoreeCloud/goreecloud-mesh"
    && v.coordinator.contract == "contracts/mesh.evidence-refresh-intent.schema.json" && HexDigits(v.coordinator.revision, 40)
    && v.producer != Mesh && v.domain in DomainsOf(v.producer)
    && ProperSubject(v.subject) && Given(v.assertion, 128) && v.reason in ["stale", "empty", "manual"]
    && v.requestedAt.instant != 0
    && (v.latestObservedAt.Some? ==> v.latestObservedAt.value.instant <= v.requestedAt.instant && v.reason != "empty")
    && (v.reason == "stale" ==> v.latestObservedAt.Some?)
    && MovesNothing(v.userContent, v.secretMaterial, v.authorityTransferred, v.executionAuthorized)
  }

  /** The form in which an intent is passed on: trimmed but for its reason, in UTC. */
  ghost function IntentSpelling(v: Intent): Intent {
    v.(version := TrimSpace(v.version), id := TrimSpace(v.id),
       coordinator := Coordinator(TrimSpace(v.coordinator.system), TrimSpace(v.coordinator.repository),
                                  TrimSpace(v.coordinator.revision), TrimSpace(v.coordinator.contract)),
       domain := TrimSpace(v.domain), assertion := TrimSpace(v.assertion),
       subject := Subject(TrimSpace(v.subject.kind), TrimSpace(v.subject.id), TrimSpace(v.subject.scope)),
       requestedAt := Time(v.requestedAt.instant, 0),
       latestObservedAt := match v.latestObservedAt case None => None case Some(latest) => Some(Time(latest.instant, 0)))
  }

  lemma IntentMeaning(v: Intent, t: Time)
    ensures NormalizeIntent(v, t).Ok? <==> ProperIntent(IntentSpelling(v)) && v.requestedAt.instant <= t.instant
    ensures NormalizeIntent(v, t).Ok? ==> NormalizeIntent(v, t).value == IntentSpelling(v)
  {
    IntentChecksIgnoreZone(TrimmedIntent(v), t, t);
    IntentChecksMean(IntentSpelling(v), t);
    SpelledIntent(v);
    hide ProperIntent, IntentProblem, IntentTimeProblem, TrimmedIntent, IntentInUtc;
  }

  lemma SpelledIntent(v: Intent)
    ensures IntentInUtc(TrimmedIntent(v)) == IntentSpelling(v)
    ensures IntentSpelling(v).requestedAt.instant == v.requestedAt.instant
  {
    hide TrimSpace;
  }

  lemma IntentChecksMean(w: Intent, t: Time)
    ensures IntentProblem(w).None? && IntentTimeProblem(w, t).None? <==> ProperIntent(w) && w.requestedAt.instant <= t.instant
  {
    PatternsMean(w.coordinator.revision);
    VocabularyMeans(w.reason, "");
    hide ByteLen, IsFullGitRevision, HexDigits, DomainsOf, ValidReason;
  }

  lemma VocabularyMeans(reason: string, status: string)
    ensures ValidReason(reason) <==> reason in ["stale", "empty", "manual"]
    ensures ValidStatus(status) <==> status in ["received", "completed", "declined", "unavailable"]
  {
  }

  /** A well-formed response, whatever the clock says. */
  ghost predicate ProperResponse(v: Response) {
    && v.version == "goreecloud.evidence-refresh-response.v1" && Given(v.id, 128)
    && Given(v.intent.id, 128) && HexDigits(v.intent.coordinatorRevision, 40)
    && v.intent.reason in ["stale", "empty", "manual"] && v.intent.requestedAt.instant != 0
    && v.producer.system != Mesh && RepositoryOf(v.producer.system) == Some(v.producer.repository)
    && HexDigits(v.producer.revision, 40) && v.domain in DomainsOf(v.producer.system)
    && ProperSubject(v.subject) && Given(v.assertion, 128)
    && v.status in ["received", "completed", "declined", "unavailable"] && ByteLen(v.reasonCode) <= 64
    && v.respondedAt.instant != 0 && v.intent.requestedAt.instant <= v.respondedAt.instant
    && (if v.evidenceProduced then v.status == "completed" && Given(v.evidenceEnvelopeId, 128) else v.evidenceEnvelopeId == "")
    && MovesNothing(v.userContent, v.secretMaterial, v.authorityTransferred, v.executionAuthorized)
  }

  /** The form in which a response is passed on: trimmed but for status and reason, in UTC. */
  ghost function ResponseSpelling(v: Response): Response {
    v.(version := TrimSpace(v.version), id := TrimSpace(v.id),
       intent := IntentReference(TrimSpace(v.intent.id), TrimSpace(v.intent.coordinatorRevision), v.intent.reason,
                                 Time(v.intent.requestedAt.instant, 0)),
       producer := Responder(v.producer.system, TrimSpace(v.producer.repository), TrimSpace(v.producer.revision)),
       domain := TrimSpace(v.domain), assertion := TrimSpace(v.assertion),
       subject := Subject(TrimSpace(v.subject.kind), TrimSpace(v.subject.id), TrimSpace(v.subject.scope)),
       reasonCode := TrimSpace(v.reasonCode), evidenceEnvelopeId := TrimSpace(v.evidenceEnvelopeId),
       respondedAt := Time(v.respondedAt.instant, 0))
  }

  lemma ResponseMeaning(v: Response, t: Time)
    ensures NormalizeResponse(v, t).Ok? <==> ProperResponse(ResponseSpelling(v)) && v.respondedAt.instant <= t.instant
    ensures NormalizeResponse(v, t).Ok? ==> NormalizeResponse(v, t).value == ResponseSpelling(v)
  {
    SameResponseChecks(TrimmedResponse(v), t);
    ResponseChecksMean(ResponseSpelling(v), t);
    SpelledResponse(v);
    hide ProperResponse, ReferenceProblem, ResponderProblem, AnswerProblem, TrimmedResponse, ResponseInUtc;
  }

  lemma SpelledResponse(v: Response)
    ensures ResponseInUtc(TrimmedResponse(v)) == ResponseSpelling(v)
    ensures ResponseSpelling(v).respondedAt.instant == v.respondedAt.instant
  {
    hide TrimSpace;
  }

  lemma SameResponseChecks(v: Response, t: Time)
    ensures ReferenceProblem(ResponseInUtc(v), t) == ReferenceProblem(v, t)
    ensures ResponderProblem(ResponseInUtc(v)) == ResponderProblem(v)
    ensures AnswerProblem(ResponseInUtc(v), t) == AnswerProblem(v, t)
  {
    hide ByteLen, IsFullGitRevision, DomainsOf, SubjectTooBig, ValidReason, ValidStatus, RepositoryOf;
  }

  lemma ResponseChecksMean(w: Response, t: Time)
    ensures ReferenceProblem(w, t).None? && ResponderProblem(w).None? && AnswerProblem(w, t).None? <==>
            ProperResponse(w) && w.respondedAt.instant <= t.instant
  {
    PatternsMean(w.intent.coordinatorRevision);
    PatternsMean(w.producer.revision);
    VocabularyMeans(w.intent.reason, w.status);
    hide ByteLen, IsFullGitRevision, HexDigits, DomainsOf, RepositoryOf, ValidReason, ValidStatus;
  }

  // ---------- which refusal ----------

  /** What is wrong with an intent, in the form it is passed on in, when a refusal applies. */
  ghost predicate IntentGround(w: Intent, t: Time, why: Refusal) {
    match why
    case OtherVersion => w.version != "goreecloud.evidence-refresh-intent.v1"
    case BadId => !Given(w.id, 128)
    case NotCoordinatedByMesh => w.coordinator.system != "goreecloud-mesh" || w.coordinator.repository != "GoreeCloud/goreecloud-mesh"
    case LooseRevision => !HexDigits(w.coordinator.revision, 40)
    case OtherContract => w.coordinator.contract != "contracts/mesh.evidence-refresh-intent.schema.json"
    case MeshTargetsItself => w.producer == Mesh
    case OtherDomain => w.domain !in DomainsOf(w.producer)
    case NoSubject => "" in [w.subject.kind, w.subject.id]
    case LongSubject => ByteLen(w.subject.kind) > 64 || ByteLen(w.subject.id) > 256 || ByteLen(w.subject.scope) > 256
    case AssertionInvalid => !Given(w.assertion, 128)
    case ReasonInvalid => w.reason !in ["stale", "empty", "manual"]
    case RequestTimeMissing => w.requestedAt.instant == 0
    case RequestInFuture => t.instant < w.requestedAt.instant
    case LatestAfterRequest => w.latestObservedAt.Some? && w.requestedAt.instant < w.latestObservedAt.value.instant
    case StaleNeedsLatest => w.reason == "stale" && w.latestObservedAt.None?
    case EmptyClaimsLatest => w.reason == "empty" && w.latestObservedAt.Some?
    case HoldsPrivateMaterial => w.userContent || w.secretMaterial
    case TransfersAuthority => w.authorityTransferred || w.executionAuthorized
    case _ => false
  }

  /** The order in which the grounds are looked for. */
  ghost function IntentRank(why: Refusal): nat {
    match why
    case OtherVersion => 1 case BadId => 2 case NotCoordinatedByMesh => 3 case LooseRevision => 4 case OtherContract => 5
    case MeshTargetsItself => 6 case OtherDomain => 7 case NoSubject => 8 case LongSubject => 9 case AssertionInvalid => 10
    case ReasonInvalid => 11 case RequestTimeMissing => 12 case RequestInFuture => 13 case LatestAfterRequest => 14
    case StaleNeedsLatest => 15 case EmptyClaimsLatest => 16 case HoldsPrivateMaterial => 17 case TransfersAuthority => 18
    case _ => 19
  }

  /** What is wrong with a response, likewise. */
  ghost predicate ResponseGround(w: Response, t: Time, why: Refusal) {
    match why
    case OtherVersion => w.version != "goreecloud.evidence-refresh-response.v1"
    case BadId => !Given(w.id, 128)
    case IntentIdInvalid => !Given(w.intent.id, 128)
    case LooseRevision => !HexDigits(w.intent.coordinatorRevision, 40)
    case ReasonInvalid => w.intent.reason !in ["stale", "empty", "manual"]
    case RequestTimeMissing => w.intent.requestedAt.instant == 0
    case RequestInFuture => t.instant < w.intent.requestedAt.instant
    case MeshTargetsItself => w.producer.system == Mesh
    case OtherRepository => RepositoryOf(w.producer.system) != Some(w.producer.repository)
    case LooseProducerRevision => !HexDigits(w.producer.revision, 40)
    case OtherDomain => w.domain !in DomainsOf(w.producer.system)
    case NoSubject => "" in [w.subject.kind, w.subject.id]
    case LongSubject => ByteLen(w.subject.kind) > 64 || ByteLen(w.subject.id) > 256 || ByteLen(w.subject.scope) > 256
    case AssertionInvalid => !Given(w.assertion, 128)
    case StatusInvalid => w.status !in ["received", "completed", "declined", "unavailable"]
    case ReasonCodeTooLong => ByteLen(w.reasonCode) > 64
    case ResponseTimeMissing => w.respondedAt.instant == 0
    case ResponseTimeOutOfRange => !(w.intent.requestedAt.instant <= w.respondedAt.instant <= t.instant)
    case EvidenceWithoutCompletion => w.status != "completed" && w.evidenceProduced
    case EvidenceIdInvalid => w.evidenceProduced && !Given(w.evidenceEnvelopeId, 128)
    case EvidenceIdForbidden => !w.evidenceProduced && w.evidenceEnvelopeId != ""
    case HoldsPrivateMaterial => w.userContent || w.secretMaterial
    case TransfersAuthority => w.authorityTransferred || w.executionAuthorized
    case _ => false
  }

  ghost function ResponseRank(why: Refusal): nat {
    match why
    case OtherVersion => 1 case BadId => 2 case IntentIdInvalid => 3 case LooseRevision => 4 case ReasonInvalid => 5
    case RequestTimeMissing => 6 case RequestInFuture => 7 case MeshTargetsItself => 8 case OtherRepository => 9
    case LooseProducerRevision => 10 case OtherDomain => 11 case NoSubject => 12 case LongSubject => 13
    case AssertionInvalid => 14 case StatusInvalid => 15 case ReasonCodeTooLong => 16 case ResponseTimeMissing => 17
    case ResponseTimeOutOfRange => 18 case EvidenceWithoutCompletion => 19 case EvidenceIdInvalid => 20
    case EvidenceIdForbidden => 21 case HoldsPrivateMaterial => 22 case TransfersAuthority => 23
    case _ => 24
  }

  lemma IntentHeadFirst(w: Intent, t: Time, other: Refusal)
    ensures if IntentProblem(w).None? then IntentRank(other) <= 11 ==> !IntentGround(w, t, other)
            else
              var why := IntentProblem(w).value;
              IntentRank(why) <= 11 && IntentGround(w, t, why) && (IntentRank(other) < IntentRank(why) ==> !IntentGround(w, t, other))
  {
    PatternsMean(w.coordinator.revision);
    VocabularyMeans(w.reason, "");
    hide ByteLen, IsFullGitRevision, HexDigits, DomainsOf, ValidReason;
  }

  lemma IntentTailFirst(w: Intent, t: Time, other: Refusal)
    ensures if IntentTimeProblem(w, t).None? then 11 < IntentRank(other) ==> !IntentGround(w, t, other)
            else
              var why := IntentTimeProblem(w, t).value;
              11 < IntentRank(why) && IntentGround(w, t, why) && (11 < IntentRank(other) < IntentRank(why) ==> !IntentGround(w, t, other))
  {
    hide ByteLen, HexDigits, DomainsOf;
  }

  /** The refusal of an intent names the first ground in the order of the checks. */
  lemma IntentRefusedByFirstGround(v: Intent, t: Time, other: Refusal)
    ensures NormalizeIntent(v, t).Err? ==>
              var w, why := IntentSpelling(v), NormalizeIntent(v, t).error;
              IntentGround(w, t, why) && (IntentRank(other) < IntentRank(why) ==> !IntentGround(w, t, other))
  {
    IntentChecksIgnoreZone(TrimmedIntent(v), t, t);
    SpelledIntent(v);
    IntentHeadFirst(IntentSpelling(v), t, other);
    IntentTailFirst(IntentSpelling(v), t, other);
    hide IntentProblem, IntentTimeProblem, TrimmedIntent, IntentInUtc, IntentGround, IntentRank, IntentSpelling;
  }

  lemma ReferenceFirst(w: Response, t: Time, other: Refusal)
    ensures if ReferenceProblem(w, t).None? then ResponseRank(other) <= 7 ==> !ResponseGround(w, t, other)
            else
              var why := ReferenceProblem(w, t).value;
              ResponseRank(why) <= 7 && ResponseGround(w, t, why) && (ResponseRank(other) < ResponseRank(why) ==> !ResponseGround(w, t, other))
  {
    PatternsMean(w.intent.coordinatorRevision);
    VocabularyMeans(w.intent.reason, w.status);
    hide ByteLen, IsFullGitRevision, HexDigits, DomainsOf, RepositoryOf, ValidReason;
  }

  lemma ResponderFirst(w: Response, t: Time, other: Refusal)
    ensures if ResponderProblem(w).None? then 7 < ResponseRank(other) <= 14 ==> !ResponseGround(w, t, other)
            else
              var why := ResponderProblem(w).value;
              && 7 < ResponseRank(why) <= 14 && ResponseGround(w, t, why)
              && (7 < ResponseRank(other) < ResponseRank(why) ==> !ResponseGround(w, t, other))
  {
    PatternsMean(w.producer.revision);
    hide ByteLen, IsFullGitRevision, HexDigits, DomainsOf, RepositoryOf;
  }

  lemma AnswerFirst(w: Response, t: Time, other: Refusal)
    ensures if AnswerProblem(w, t).None? then 14 < ResponseRank(other) ==> !ResponseGround(w, t, other)
            else
              var why := AnswerProblem(w, t).value;
              14 < ResponseRank(why) && ResponseGround(w, t, why) && (14 < ResponseRank(other) < ResponseRank(why) ==> !ResponseGround(w, t, other))
  {
    VocabularyMeans(w.intent.reason, w.status);
    hide ByteLen, HexDigits, DomainsOf, RepositoryOf, ValidStatus;
  }

  /** The refusal of a response names the first ground in the order of the checks. */
  lemma ResponseRefusedByFirstGround(v: Response, t: Time, other: Refusal)
    ensures NormalizeResponse(v, t).Err? ==>
              var w, why := ResponseSpelling(v), NormalizeResponse(v, t).error;
              ResponseGround(w, t, why) && (ResponseRank(other) < ResponseRank(why) ==> !ResponseGround(w, t, other))
  {
    SameResponseChecks(TrimmedResponse(v), t);
    SpelledResponse(v);
    ReferenceFirst(ResponseSpelling(v), t, other);
    ResponderFirst(ResponseSpelling(v), t, other);
    AnswerFirst(ResponseSpelling(v), t, other);
    hide ReferenceProblem, ResponderProblem, AnswerProblem, TrimmedResponse, ResponseInUtc, ResponseGround, ResponseRank, ResponseSpelling;
  }

  /** The evidence is the one the response names, by the responder's exact source, about
      exactly what was asked, and observed between request and response. */
  ghost predicate Bound(i: Intent, r: Response, e: Envelope) {
    && r.intent.id == i.id && r.intent.coordinatorRevision == i.coordinator.revision && r.intent.reason == i.reason
    && r.intent.requestedAt.instant == i.requestedAt.instant
    && r.status == "completed" && r.evidenceProduced && r.evidenceEnvelopeId == e.id != ""
    && i.producer == r.producer.system == e.producer.system
    && r.producer.repository == e.producer.repository && r.producer.revision == e.producer.revision
    && i.domain == r.domain == e.domain && i.subject == r.subject == e.subject && i.assertion == r.assertion == e.assertion
    && i.requestedAt.instant <= e.observedAt.instant <= r.respondedAt.instant
  }

  /** A handoff is accepted exactly when intent, response and evidence each are, and bind
      to each other. */
  lemma HandoffExactly(response: Response, intent: Intent, evidence: Envelope, t: Time)
    ensures NormalizeHandoff(response, intent, evidence, t).Ok? <==>
            && NormalizeIntent(intent, t).Ok? && NormalizeResponse(response, t).Ok? && Normalize(evidence, t, true).Ok?
            && Bound(NormalizeIntent(intent, t).value, NormalizeResponse(response, t).value, Normalize(evidence, t, true).value)
    ensures NormalizeHandoff(response, intent, evidence, t).Ok? ==>
              NormalizeHandoff(response, intent, evidence, t).value ==
              Handoff(NormalizeResponse(response, t).value, Normalize(evidence, t, true).value, true, true, false)
  {
    SecondNormalisationIsRedundant(response, intent, t);
    hide NormalizeIntent, NormalizeResponse, Normalize;
  }

  /** What is wrong between an intent, the response to it and the evidence e when a refusal of
      the handoff applies. */
  ghost predicate HandoffGround(i: Intent, r: Response, e: Envelope, why: Refusal) {
    match why
    case NotThisIntent =>
      || r.intent.id != i.id || r.intent.coordinatorRevision != i.coordinator.revision || r.intent.reason != i.reason
      || r.intent.requestedAt.instant != i.requestedAt.instant
    case ChangedTheRequest => (r.producer.system, r.domain, r.subject, r.assertion) != (i.producer, i.domain, i.subject, i.assertion)
    case HandoffIncomplete => r.status != "completed" || !r.evidenceProduced
    case OtherEvidence => e.id != r.evidenceEnvelopeId
    case OtherProvenance => Responder(e.producer.system, e.producer.repository, e.producer.revision) != r.producer
    case ChangedTheResponse => (e.domain, e.subject, e.assertion) != (r.domain, r.subject, r.assertion)
    case ObservedBeforeRequest => e.observedAt.instant < i.requestedAt.instant
    case ObservedAfterResponse => r.respondedAt.instant < e.observedAt.instant
    case _ => false
  }

  ghost function HandoffRank(why: Refusal): nat {
    match why
    case NotThisIntent => 1 case ChangedTheRequest => 2 case HandoffIncomplete => 3 case EvidenceRefused(_) => 4
    case OtherEvidence => 5 case OtherProvenance => 6 case ChangedTheResponse => 7 case ObservedBeforeRequest => 8
    case ObservedAfterResponse => 9 case _ => 10
  }

  /** The refusal of a handoff is that of the intent, else that of the response, else the first
      that applies between them and the evidence, whose own rejection comes before what it is
      compared for. */
  lemma HandoffRefusedByFirstGround(response: Response, intent: Intent, evidence: Envelope, t: Time, other: Refusal)
    ensures NormalizeHandoff(response, intent, evidence, t).Err? ==>
              var why := NormalizeHandoff(response, intent, evidence, t).error;
              var i, r, e := IntentSpelling(intent), ResponseSpelling(response), Canonical(evidence);
              if NormalizeIntent(intent, t).Err? then why == NormalizeIntent(intent, t).error
              else if NormalizeResponse(response, t).Err? then why == NormalizeResponse(response, t).error
              else
                && (HandoffGround(i, r, e, why) || (why.EvidenceRefused? && Normalize(evidence, t, true) == Err(why.why)))
                && (HandoffRank(other) < HandoffRank(why) ==> !HandoffGround(i, r, e, other))
                && (HandoffRank(why) > 4 ==> Normalize(evidence, t, true) == Ok(e))
  {
    IntentMeaning(intent, t);
    ResponseMeaning(response, t);
    NormalizeMeaning(evidence, t, true);
    SecondNormalisationIsRedundant(response, intent, t);
    var i, r, e := IntentSpelling(intent), ResponseSpelling(response), Canonical(evidence);
    CompletedNamesEvidence(r);
    MatchFirst(i, r, e, other);
    BindFirst(i, r, e, other);
    hide NormalizeIntent, NormalizeResponse, Normalize, IntentSpelling, ResponseSpelling, Canonical, ProperIntent, ProperResponse,
      WellFormed, BindEvidence, HandoffGround, HandoffRank;
  }

  /** The first three comparisons, and the ranks of the two refusals they meet. */
  lemma MatchFirst(i: Intent, r: Response, e: Envelope, other: Refusal)
    ensures HandoffGround(i, r, e, NotThisIntent) <==>
            || r.intent.id != i.id || r.intent.coordinatorRevision != i.coordinator.revision || r.intent.reason != i.reason
            || !r.intent.requestedAt.Equal(i.requestedAt)
    ensures HandoffGround(i, r, e, ChangedTheRequest) <==>
            r.producer.system != i.producer || r.domain != i.domain || r.subject != i.subject || r.assertion != i.assertion
    ensures HandoffGround(i, r, e, HandoffIncomplete) <==> r.status != COMPLETED || !r.evidenceProduced
    ensures HandoffRank(NotThisIntent) == 1 && HandoffRank(ChangedTheRequest) == 2 && HandoffRank(HandoffIncomplete) == 3
    ensures forall why :: HandoffRank(EvidenceRefused(why)) == 4
    ensures 1 <= HandoffRank(other)
    ensures HandoffRank(other) < 4 ==> other in [NotThisIntent, ChangedTheRequest, HandoffIncomplete]
    ensures HandoffRank(other) == 4 ==> !HandoffGround(i, r, e, other)
  {
  }

  lemma BindFirst(i: Intent, r: Response, e: Envelope, other: Refusal)
    ensures BindEvidence(i, r, e).Err? ==>
              var why := BindEvidence(i, r, e).error;
              4 < HandoffRank(why) && HandoffGround(i, r, e, why) && (4 < HandoffRank(other) < HandoffRank(why) ==> !HandoffGround(i, r, e, other))
  {
  }

  lemma CompletedNamesEvidence(r: Response)
    ensures ProperResponse(r) && r.evidenceProduced ==> r.evidenceEnvelopeId != ""
  {
    hide ByteLen, HexDigits, RepositoryOf, DomainsOf;
  }

  lemma IntentTimes(v: Intent, t: Time)
    ensures NormalizeIntent(v, t).Ok? ==>
              var i := NormalizeIntent(v, t).value;
              && i.requestedAt.instant <= t.instant
              && (i.latestObservedAt.Some? ==> i.latestObservedAt.value.instant <= i.requestedAt.instant)
  {
    hide TrimmedIntent, IntentProblem, ValidReason;
  }

  /** What an accepted handoff says: the evidence is stored-form and current, it is about
      exactly what the intent asked of exactly the producer it asked, and the clock ran
      latest observation, request, new observation, response, evaluation. */
  lemma HandoffMeaning(response: Response, intent: Intent, evidence: Envelope, t: Time)
    ensures NormalizeHandoff(response, intent, evidence, t).Ok? ==>
              var h := NormalizeHandoff(response, intent, evidence, t).value;
              var i := NormalizeIntent(intent, t);
              && i.Ok?
              && Normalize(evidence, t, true) == Ok(h.evidence)
              && h.evidence.producer.system == i.value.producer
              && h.evidence.domain == i.value.domain
              && h.evidence.subject == i.value.subject
              && h.evidence.assertion == i.value.assertion
              && h.response.evidenceEnvelopeId == h.evidence.id
              && h.currentEvidenceEstablished && h.producerAuthorityPreserved && !h.executionAuthorized
              && (i.value.latestObservedAt.Some? ==> i.value.latestObservedAt.value.instant <= i.value.requestedAt.instant)
              && i.value.requestedAt.instant <= h.evidence.observedAt.instant
              && h.evidence.observedAt.instant <= h.response.respondedAt.instant
              && h.response.respondedAt.instant <= t.instant
  {
    ResponseTimes(response, t);
    IntentTimes(intent, t);
    SecondNormalisationIsRedundant(response, intent, t);
    hide NormalizeIntent, NormalizeResponse, Normalize;
  }

  lemma ResponseTimes(v: Response, t: Time)
    ensures NormalizeResponse(v, t).Ok? ==> NormalizeResponse(v, t).value.respondedAt.instant <= t.instant
  {
    hide TrimmedResponse, ReferenceProblem, ResponderProblem, ValidStatus, ByteLen;
  }
}
