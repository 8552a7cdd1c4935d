/** The delivery endpoint: an envelope is recorded only for the principal of the producer
    it names; and the status endpoint, which reads the registry twice. */
module Delivery {
  import opened Wrappers
  import opened Text
  import opened GoTime
  import opened Authority
  import opened Envelope
  import opened EnvelopeRegistry
  import opened Disk
  import opened Filtering
  import Trust

  datatype DeliveryError = NoIdentity | ForeignProducer | NoSubject

  /** validateEvidenceProducerPrincipal */
  function ProducerPrincipal(principal: Option<Trust.Principal>, v: Envelope): Result<Trust.Principal, DeliveryError> {
    if principal.None? then Err(NoIdentity)
    else if principal.value.serviceId != Name(v.producer.system) then Err(ForeignProducer)
    else if TrimSpace(principal.value.subject) == "" then Err(NoSubject)
    else Ok(principal.value)
  }

  /** A principal may deliver exactly the evidence of the producer of its name, and has a
      subject that is not blank. */
  lemma PrincipalMeans(principal: Option<Trust.Principal>, v: Envelope)
    ensures match ProducerPrincipal(principal, v)
            case Ok(p) => principal == Some(p) && p.serviceId == Name(v.producer.system) && TrimSpace(p.subject) != ""
            case Err(NoIdentity) => principal.None?
            case Err(ForeignProducer) => principal.Some? && principal.value.serviceId != Name(v.producer.system)
            case Err(NoSubject) =>
              principal.Some? && principal.value.serviceId == Name(v.producer.system) && TrimSpace(principal.value.subject) == ""
  {
    hide Name, TrimSpace;
  }

  datatype Reply =
    | Forbidden(why: DeliveryError)
    | BadRequest(problem: RecordError)
    | Created(envelope: Envelope, serviceId: string)
    | Repeated(envelope: Envelope, serviceId: string)

  function Receipt(r: Result<Recorded, RecordError>, serviceId: string): Reply {
    match r
    case Err(why) => BadRequest(why)
    case Ok(done) => if done.replayed then Repeated(done.envelope, serviceId) else Created(done.envelope, serviceId)
  }

  /** evidenceEnvelopesRecord, after scope and body were accepted: the principal is checked
      first, and a stranger's envelope never reaches the registry. */
  method RecordEnvelope(registry: Registry, principal: Option<Trust.Principal>, v: Envelope, now: Time, fault: Fault<Document>) returns (reply: Reply)
    requires registry.Valid()
    modifies registry`envelopes, registry.volume
    ensures registry.Valid()
    ensures ProducerPrincipal(principal, v).Err? ==>
              reply == Forbidden(ProducerPrincipal(principal, v).error)
              && registry.envelopes == old(registry.envelopes) && registry.volume.State() == old(registry.volume.State())
    ensures ProducerPrincipal(principal, v).Ok? ==>
              var (m, r) := Outcome(old(registry.envelopes), v, now, registry.path == "" || fault.NoFault?);
              registry.envelopes == m && reply == Receipt(r, ProducerPrincipal(principal, v).value.serviceId)
    ensures !reply.Forbidden? <==>
              principal.Some? && principal.value.serviceId == Name(v.producer.system) && TrimSpace(principal.value.subject) != ""
    ensures reply.Created? ==>
              && reply.serviceId == principal.value.serviceId && reply.envelope == Canonical(v)
              && reply.envelope.id !in old(registry.envelopes)
              && registry.envelopes == old(registry.envelopes)[reply.envelope.id := reply.envelope]
    ensures reply.Repeated? ==>
              && reply.serviceId == principal.value.serviceId
              && reply.envelope.id in old(registry.envelopes) && reply.envelope == old(registry.envelopes)[reply.envelope.id]
    ensures !reply.Created? ==> registry.envelopes == old(registry.envelopes)
  {
    PrincipalMeans(principal, v);
    ReceiptMeans(registry.envelopes, v, now, registry.path == "" || fault.NoFault?);
    hide Normalize, Stored, Legal, InSync, Outcome, Canonical, Name, TrimSpace;
    var checked := ProducerPrincipal(principal, v);
    if checked.Err? {
      return Forbidden(checked.error);
    }
    var result := registry.RecordAt(v, now, fault);
    if result.Err? {
      return BadRequest(result.error);
    }
    if result.value.replayed {
      return Repeated(result.value.envelope, checked.value.serviceId);
    }
    return Created(result.value.envelope, checked.value.serviceId);
  }

  lemma ReceiptMeans(m: Contents, v: Envelope, t: Time, persisted: bool)
    ensures var (after, r) := Outcome(m, v, t, persisted);
            && (r.Ok? && !r.value.replayed ==>
                  r.value.envelope == Canonical(v) && r.value.envelope.id !in m && after == m[r.value.envelope.id := r.value.envelope])
            && (r.Ok? && r.value.replayed ==> r.value.envelope.id in m && r.value.envelope == m[r.value.envelope.id])
            && ((r.Ok? && !r.value.replayed) || after == m)
  {
    NormalizeMeaning(v, t, true);
    hide Normalize, WellFormed, TrimSpace, Canonical;
  }

  /** A receipt binds the envelope to the principal of the producer that the envelope
      names, and the envelope is in the registry. */
  lemma ReceiptIsBound(m: Contents, principal: Option<Trust.Principal>, v: Envelope, now: Time, persisted: bool)
    ensures ProducerPrincipal(principal, v).Ok? && Outcome(m, v, now, persisted).1.Ok? ==>
              var (m', r) := Outcome(m, v, now, persisted);
              var e := r.value.envelope;
              && principal.Some? && principal.value.serviceId == Name(e.producer.system)
              && e.id in m' && m'[e.id] == e && (r.value.replayed <==> e.id in m)
  {
    SystemIsKept(v, now);
    hide Normalize, Name;
  }

  lemma SystemIsKept(v: Envelope, t: Time)
    ensures Normalize(v, t, true).Ok? ==> Normalize(v, t, true).value.producer.system == v.producer.system
  {
    hide ProvenanceProblem, ClaimProblem, TimeProblem, PayloadProblem;
  }

  // ---------- status ----------

  datatype Counts = Counts(current: nat, stale: nat)

  function ProducerName(e: Envelope): string {
    Name(e.producer.system)
  }

  function FreshOnes(t: Time): Envelope -> bool {
    (e: Envelope) => FreshAt(e, t)
  }

  function StaleOnes(t: Time): Envelope -> bool {
    (e: Envelope) => !FreshAt(e, t)
  }

  /** The two counts of one producer over a list of envelopes. */
  function CountsOf(items: seq<Envelope>, t: Time, producer: string): Counts {
    Counts(|Filter(Filter(items, FreshOnes(t)), Labelled(ProducerName, producer))|,
           |Filter(Filter(items, StaleOnes(t)), Labelled(ProducerName, producer))|)
  }

  function Producers(items: seq<Envelope>): set<string> {
    set i | 0 <= i < |items| :: ProducerName(items[i])
  }

  lemma ProducersAppend(items: seq<Envelope>, e: Envelope)
    ensures Producers(items + [e]) == Producers(items) + {ProducerName(e)}
  {
    hide ProducerName;
    assert (items + [e])[|items|] == e;
    assert forall i :: 0 <= i < |items| ==> (items + [e])[i] == items[i];
  }

  /** The table of evidenceStatus over its first listing. */
  method CountByProducer(items: seq<Envelope>, now: Time) returns (byProducer: map<string, Counts>)
    ensures byProducer.Keys == Producers(items)
    ensures forall p :: p in byProducer ==> byProducer[p] == CountsOf(items, now, p)
  {
    hide FreshAt, ProducerName, CountsOf, Producers;
    byProducer := map[];
    NothingCounted(now);
    for i := 0 to |items|
      invariant byProducer.Keys == Producers(items[..i])
      invariant forall p :: (if p in byProducer then byProducer[p] else Counts(0, 0)) == CountsOf(items[..i], now, p)
    {
      var e := items[i];
      assert items[..i + 1] == items[..i] + [e];
      ProducersAppend(items[..i], e);
      forall p ensures CountsOf(items[..i + 1], now, p) == Bumped(CountsOf(items[..i], now, p), ProducerName(e) == p, FreshAt(e, now)) {
        CountsAppend(items[..i], e, now, p);
      }
      var p := ProducerName(e);
      var v := if p in byProducer then byProducer[p] else Counts(0, 0);
      if FreshAt(e, now) {
        v := v.(current := v.current + 1);
      } else {
        v := v.(stale := v.stale + 1);
      }
      byProducer := byProducer[p := v];
    }
    assert items[..|items|] == items;
  }

  /** evidenceStatus when nothing runs beside it: a listing counted by producer, and the
      totals of a second listing. */
  method EvidenceStatus(registry: Registry, now: Time) returns (current: nat, stale: nat, byProducer: map<string, Counts>)
    requires registry.Valid()
    ensures current == |FreshIds(registry.envelopes, now)| && current + stale == |registry.envelopes|
    ensures exists listing :: IsListing(registry.envelopes, listing)
                              && byProducer.Keys == Producers(listing)
                              && forall p :: p in byProducer ==> byProducer[p] == CountsOf(listing, now, p)
    ensures forall p :: p in byProducer <==> exists id :: id in registry.envelopes && Name(registry.envelopes[id].producer.system) == p
    ensures forall p :: p in byProducer ==>
              && byProducer[p].current == |ProducedBy(registry.envelopes, now, p, true)|
              && byProducer[p].stale == |ProducedBy(registry.envelopes, now, p, false)|
  {
    hide IsListing, CountsOf, Producers, Legal, FreshAt, Name;
    var listing := registry.List();
    byProducer := CountByProducer(listing, now);
    forall p { CountsMean(registry.envelopes, listing, now, p); }
    current, stale := registry.CountsAt(now);
  }

  /** The ids of the producer's envelopes that are, or are not, past their deadline. */
  ghost function ProducedBy(m: Contents, t: Time, producer: string, inTime: bool): set<string> {
    set id | id in m && Name(m[id].producer.system) == producer && (t.instant <= m[id].validUntil.instant <==> inTime)
  }

  /** The counts of a producer are those of its stored envelopes. */
  lemma CountsMean(m: Contents, listing: seq<Envelope>, t: Time, producer: string)
    requires Legal(m) && IsListing(m, listing)
    ensures CountsOf(listing, t, producer) == Counts(|ProducedBy(m, t, producer, true)|, |ProducedBy(m, t, producer, false)|)
    ensures producer in Producers(listing) <==> exists id :: id in m && Name(m[id].producer.system) == producer
  {
    ProducersMean(m, listing, producer);
    CountMeans(m, listing, t, producer, FreshOnes(t), true);
    CountMeans(m, listing, t, producer, StaleOnes(t), false);
    hide Legal, IsListing, Name, Filter, Producers;
  }

  lemma CountMeans(m: Contents, listing: seq<Envelope>, t: Time, producer: string, pass: Envelope -> bool, inTime: bool)
    requires Legal(m) && IsListing(m, listing)
    requires forall e :: pass(e) <==> (FreshAt(e, t) <==> inTime)
    ensures |Filter(Filter(listing, pass), Labelled(ProducerName, producer))| == |ProducedBy(m, t, producer, inTime)|
  {
    hide FreshAt, Legal, IsListing, Name, Filter;
    Deadlines(m, t);
    var both: Envelope -> bool := (e: Envelope) => pass(e) && ProducerName(e) == producer;
    FilterTwice(listing, pass, Labelled(ProducerName, producer), both);
    var ids := IdsOf(m, listing, both);
    assert ids == ProducedBy(m, t, producer, inTime);
  }

  lemma Deadlines(m: Contents, t: Time)
    requires Legal(m)
    ensures forall id :: id in m ==> (FreshAt(m[id], t) <==> t.instant <= m[id].validUntil.instant)
  {
    hide FreshAt, Stored;
    forall id | id in m ensures FreshAt(m[id], t) <==> t.instant <= m[id].validUntil.instant { StoredDeadline(m[id], t); }
  }

  lemma ProducersMean(m: Contents, listing: seq<Envelope>, producer: string)
    requires Legal(m) && IsListing(m, listing)
    ensures producer in Producers(listing) <==> exists id :: id in m && Name(m[id].producer.system) == producer
  {
    hide Stored, NewerFirst, Name;
    if producer in Producers(listing) {
      var i :| 0 <= i < |listing| && ProducerName(listing[i]) == producer;
      assert listing[i] in listing && listing[i].id in m;
    }
    if id :| id in m && Name(m[id].producer.system) == producer {
      assert m[id] in listing;
      var i :| 0 <= i < |listing| && listing[i] == m[id];
      assert ProducerName(listing[i]) == producer;
    }
  }

  lemma NothingCounted(t: Time)
    ensures Producers([]) == {} && forall p :: CountsOf([], t, p) == Counts(0, 0)
  {
  }

  function Bumped(c: Counts, mine: bool, isFresh: bool): Counts {
    if !mine then c else if isFresh then c.(current := c.current + 1) else c.(stale := c.stale + 1)
  }

  /** How many of a producer's envelopes pass, after one more. */
  lemma CountAppend(items: seq<Envelope>, e: Envelope, pass: Envelope -> bool, p: string)
    ensures |Filter(Filter(items + [e], pass), Labelled(ProducerName, p))|
            == |Filter(Filter(items, pass), Labelled(ProducerName, p))| + (if pass(e) && ProducerName(e) == p then 1 else 0)
  {
    FilterAppend(items, e, pass);
    FilterAppend(Filter(items, pass), e, Labelled(ProducerName, p));
    assert Filter(items, pass) + [] == Filter(items, pass);
    hide ProducerName, Filter;
  }

  lemma CountsAppend(items: seq<Envelope>, e: Envelope, t: Time, p: string)
    ensures CountsOf(items + [e], t, p) == Bumped(CountsOf(items, t, p), ProducerName(e) == p, FreshAt(e, t))
  {
    hide FreshAt, ProducerName, Filter;
    CountAppend(items, e, FreshOnes(t), p);
    CountAppend(items, e, StaleOnes(t), p);
  }

  function SumCurrent(items: seq<Envelope>, t: Time, producers: seq<string>): nat {
    if producers == [] then 0
    else SumCurrent(items, t, producers[..|producers| - 1]) + CountsOf(items, t, producers[|producers| - 1]).current
  }

  function SumStale(items: seq<Envelope>, t: Time, producers: seq<string>): nat {
    if producers == [] then 0
    else SumStale(items, t, producers[..|producers| - 1]) + CountsOf(items, t, producers[|producers| - 1]).stale
  }

  lemma {:induction false} SumsAreTotals(items: seq<Envelope>, t: Time, producers: seq<string>)
    ensures SumCurrent(items, t, producers) == TotalFor(Filter(items, FreshOnes(t)), ProducerName, producers)
    ensures SumStale(items, t, producers) == TotalFor(Filter(items, StaleOnes(t)), ProducerName, producers)
  {
    hide Filter;
    if producers != [] { SumsAreTotals(items, t, producers[..|producers| - 1]); }
  }

  lemma SumsCountIds(m: Contents, listing: seq<Envelope>, t: Time, producers: seq<string>)
    requires Legal(m) && IsListing(m, listing)
    requires forall i, j :: 0 <= i < j < |producers| ==> producers[i] != producers[j]
    requires forall e :: e in listing ==> ProducerName(e) in producers
    ensures SumCurrent(listing, t, producers) == |FreshIds(m, t)|
    ensures SumStale(listing, t, producers) == |m.Keys - FreshIds(m, t)|
  {
    hide FreshAt, Stored, ProducerName, NewerFirst, IsListing, Legal, SumCurrent, SumStale;
    FilterMembers(listing, FreshOnes(t));
    FilterMembers(listing, StaleOnes(t));
    SumsAreTotals(listing, t, producers);
    Partition(Filter(listing, FreshOnes(t)), ProducerName, producers);
    Partition(Filter(listing, StaleOnes(t)), ProducerName, producers);
    var current := IdsOf(m, listing, FreshOnes(t));
    var stale := IdsOf(m, listing, StaleOnes(t));
    assert current == FreshIds(m, t) && stale == m.Keys - FreshIds(m, t);
  }

  /** The status endpoint lists the registry and later counts it again. When nothing was
      lost in between, the sums of the per-producer counts do not exceed the two totals,
      and they are the totals when nothing was recorded either. */
  lemma StatusIsSound(first: Contents, listing: seq<Envelope>, second: Contents, t: Time, producers: seq<string>)
    requires IsListing(first, listing)
    requires forall id :: id in first ==> id in second && second[id] == first[id]
    requires forall i, j :: 0 <= i < j < |producers| ==> producers[i] != producers[j]
    requires forall e :: e in listing ==> ProducerName(e) in producers
    ensures Legal(first) ==>
              && SumCurrent(listing, t, producers) <= |FreshIds(second, t)|
              && SumStale(listing, t, producers) <= |second| - |FreshIds(second, t)|
              && (first == second ==> && SumCurrent(listing, t, producers) == |FreshIds(second, t)|
                                      && SumStale(listing, t, producers) == |second| - |FreshIds(second, t)|)
  {
    hide FreshAt, Stored, Legal, IsListing, SumCurrent, SumStale, ProducerName;
    if Legal(first) {
      SumsCountIds(first, listing, t, producers);
      SmallerSet(FreshIds(first, t), FreshIds(second, t));
      SmallerSet(first.Keys - FreshIds(first, t), second.Keys - FreshIds(second, t));
      assert FreshIds(second, t) <= second.Keys && |second| == |second.Keys|;
      assert |second.Keys - FreshIds(second, t)| == |second.Keys| - |FreshIds(second, t)|;
    }
  }

  lemma {:induction false} SmallerSet(a: set<string>, b: set<string>)
    requires a <= b
    ensures |a| <= |b|
  {
    if a != {} {
      var x :| x in a;
      SmallerSet(a - {x}, b - {x});
    }
  }

  /** The ids of the listed envelopes that pass a test, one for each. */
  lemma IdsOf(m: Contents, listing: seq<Envelope>, p: Envelope -> bool) returns (ids: set<string>)
    requires IsListing(m, listing) && Legal(m)
    ensures |ids| == |Filter(listing, p)|
    ensures forall id :: id in ids <==> id in m && p(m[id])
  {
    hide Stored, NewerFirst;
    FilterSorted(NewerFirst, listing, p);
    FilterMembers(listing, p);
    ids := SortedIds(m, Filter(listing, p));
    forall id | id in m ensures m[id] in listing {}
  }
}
