/** The consumer view of one subject: a single pass that groups envelopes by producer and
    domain, then by assertion. */
module SubjectView {
  import opened Wrappers
  import opened Text
  import opened GoTime
  import opened Authority
  import opened Envelope
  import opened Filtering
  import Sorting

  /** An envelope with its freshness at the time of the view. */
  datatype Shown = Shown(envelope: Envelope, isFresh: bool)

  datatype Tally = Tally(latest: Option<Shown>, latestCurrent: Option<Shown>, count: nat)

  datatype Bucket = Bucket(producer: System, domain: string, items: map<string, Tally>)

  datatype Row = Row(assertion: string, latest: Shown, latestCurrent: Option<Shown>, historyCount: nat)

  datatype AuthorityRows = AuthorityRows(producer: System, domain: string, rows: seq<Row>)

  datatype View = View(
    subject: Subject,
    state: string,
    currentCount: nat,
    staleCount: nat,
    refreshRequired: bool,
    authorities: seq<AuthorityRows>)

  const CURRENT := "current"
  const STALE_ONLY := "stale-only"
  const EMPTY := "empty"

  /** evidenceTransportLifecycle */
  function Lifecycle(current: nat, stale: nat): (string, bool) {
    if current > 0 then (CURRENT, false) else if stale > 0 then (STALE_ONLY, true) else (EMPTY, true)
  }

  /** The text key of a bucket: producer, NUL, domain. */
  function BucketKey(producer: System, domain: string): string {
    Name(producer) + "\0" + domain
  }

  function KeyOf(e: Envelope): string {
    BucketKey(e.producer.system, e.domain)
  }

  function Matches(kind: string, id: string, scope: string): Envelope -> bool {
    (e: Envelope) => e.subject.kind == kind && e.subject.id == id && (scope == "" || e.subject.scope == scope)
  }

  function WithKey(key: string): Envelope -> bool {
    (e: Envelope) => KeyOf(e) == key
  }

  function InGroup(key: string, assertion: string): Envelope -> bool {
    (e: Envelope) => KeyOf(e) == key && e.assertion == assertion
  }

  function FreshBy(t: Time): Envelope -> bool {
    (e: Envelope) => FreshAt(e, t)
  }

  /** The envelope a strictly-newer-replaces scan ends with: the first of the newest. */
  function Newest(s: seq<Envelope>): Option<Envelope> {
    if s == [] then None
    else
      var before, last := Newest(s[..|s| - 1]), s[|s| - 1];
      if before.None? || last.observedAt.After(before.value.observedAt) then Some(last) else before
  }

  function Show(e: Option<Envelope>, t: Time): Option<Shown> {
    if e.None? then None else Some(Shown(e.value, FreshAt(e.value, t)))
  }

  function ScopeOf(asked: string, s: seq<Envelope>): string {
    if s == [] then asked
    else
      var before := ScopeOf(asked, s[..|s| - 1]);
      if before == "" then s[|s| - 1].subject.scope else before
  }

  function Group(m: seq<Envelope>, key: string, assertion: string): seq<Envelope> {
    Filter(m, InGroup(key, assertion))
  }

  // ---------- the pass ----------

  ghost predicate TallyOf(tally: Tally, group: seq<Envelope>, t: Time) {
    && tally.count == |group|
    && tally.latest == Show(Newest(group), t)
    && tally.latestCurrent == Show(Newest(Filter(group, FreshBy(t))), t)
  }

  ghost predicate BucketOf(b: Bucket, m: seq<Envelope>, key: string, t: Time) {
    && BucketKey(b.producer, b.domain) == key
    && Filter(m, WithKey(key)) != []
    && b.producer == Filter(m, WithKey(key))[0].producer.system
    && b.domain == Filter(m, WithKey(key))[0].domain
    && (forall a :: a in b.items <==> Group(m, key, a) != [])
    && (forall a :: a in b.items ==> TallyOf(b.items[a], Group(m, key, a), t))
  }

  /** The two-level table after the matching envelopes m went through. */
  ghost predicate TableOf(buckets: map<string, Bucket>, m: seq<Envelope>, t: Time) {
    && (forall key :: key in buckets <==> Filter(m, WithKey(key)) != [])
    && (forall key :: key in buckets ==> BucketOf(buckets[key], m, key, t))
  }

  /** One envelope more in its group. */
  function Counted(tally: Tally, e: Envelope, t: Time): Tally {
    var shown := Shown(e, FreshAt(e, t));
    Tally(
      if tally.latest.None? || e.observedAt.After(tally.latest.value.envelope.observedAt) then Some(shown) else tally.latest,
      if shown.isFresh && (tally.latestCurrent.None? || e.observedAt.After(tally.latestCurrent.value.envelope.observedAt))
      then Some(shown) else tally.latestCurrent,
      tally.count + 1)
  }

  lemma NewestAppend(s: seq<Envelope>, e: Envelope)
    ensures Newest(s + [e]) == if Newest(s).None? || e.observedAt.After(Newest(s).value.observedAt) then Some(e) else Newest(s)
  {
    assert (s + [e])[..|s|] == s;
  }

  lemma CountedTally(tally: Tally, group: seq<Envelope>, e: Envelope, t: Time)
    requires TallyOf(tally, group, t)
    ensures TallyOf(Counted(tally, e, t), group + [e], t)
  {
    hide FreshAt, Newest, Filter;
    NewestAppend(group, e);
    FilterAppend(group, e, FreshBy(t));
    var freshOnes := Filter(group, FreshBy(t));
    NewestAppend(freshOnes, e);
    assert freshOnes + [] == freshOnes;
  }

  function Enter(buckets: map<string, Bucket>, e: Envelope, t: Time): map<string, Bucket> {
    var key := KeyOf(e);
    var bucket := if key in buckets then buckets[key] else Bucket(e.producer.system, e.domain, map[]);
    var item := if e.assertion in bucket.items then bucket.items[e.assertion] else Tally(None, None, 0);
    buckets[key := bucket.(items := bucket.items[e.assertion := Counted(item, e, t)])]
  }

  lemma EnterKeepsTable(buckets: map<string, Bucket>, m: seq<Envelope>, e: Envelope, t: Time)
    requires TableOf(buckets, m, t)
    ensures TableOf(Enter(buckets, e, t), m + [e], t)
  {
    hide Newest, Counted, FreshAt, KeyOf, Filter, TallyOf, BucketOf, BucketKey;
    var after := Enter(buckets, e, t);
    forall key ensures Filter(m + [e], WithKey(key)) == Filter(m, WithKey(key)) + if KeyOf(e) == key then [e] else [] {
      FilterAppend(m, e, WithKey(key));
    }
    forall key | key in after ensures BucketOf(after[key], m + [e], key, t) {
      if key == KeyOf(e) {
        EnteredBucket(buckets, m, e, t);
      } else {
        OtherBucket(after[key], m, e, key, t);
      }
    }
  }

  lemma OtherBucket(b: Bucket, m: seq<Envelope>, e: Envelope, key: string, t: Time)
    requires BucketOf(b, m, key, t) && key != KeyOf(e)
    ensures BucketOf(b, m + [e], key, t)
  {
    hide Newest, FreshAt, KeyOf, Filter, TallyOf, BucketKey;
    FilterAppend(m, e, WithKey(key));
    forall a ensures Group(m + [e], key, a) == Group(m, key, a) {
      FilterAppend(m, e, InGroup(key, a));
    }
  }

  lemma EnteredBucket(buckets: map<string, Bucket>, m: seq<Envelope>, e: Envelope, t: Time)
    requires TableOf(buckets, m, t)
    ensures BucketOf(Enter(buckets, e, t)[KeyOf(e)], m + [e], KeyOf(e), t)
  {
    hide Newest, Counted, FreshAt, Filter, TallyOf;
    var key := KeyOf(e);
    FilterAppend(m, e, WithKey(key));
    forall a ensures Group(m + [e], key, a) == if a == e.assertion then Group(m, key, a) + [e] else Group(m, key, a) {
      FilterAppend(m, e, InGroup(key, a));
      assert Group(m, key, a) + [] == Group(m, key, a);
    }
    var bucket := if key in buckets then buckets[key] else Bucket(e.producer.system, e.domain, map[]);
    if key !in buckets {
      forall a ensures Group(m, key, a) == [] { NoGroup(m, key, a); }
    }
    var item := if e.assertion in bucket.items then bucket.items[e.assertion] else Tally(None, None, 0);
    EmptyTally(t);
    CountedTally(item, Group(m, key, e.assertion), e, t);
  }

  lemma EmptyTally(t: Time)
    ensures TallyOf(Tally(None, None, 0), [], t)
  {
  }

  lemma NoGroup(m: seq<Envelope>, key: string, a: string)
    ensures Group(m, key, a) != [] ==> Filter(m, WithKey(key)) != []
  {
    FilterMembers(m, InGroup(key, a));
    FilterMembers(m, WithKey(key));
    if Group(m, key, a) != [] {
      assert Group(m, key, a)[0] in Group(m, key, a);
      assert Group(m, key, a)[0] in Filter(m, WithKey(key));
    }
  }

  // ---------- the rows ----------

  predicate RowLess(a: Row, b: Row) {
    Less(a.assertion, b.assertion)
  }

  predicate AuthorityLess(a: AuthorityRows, b: AuthorityRows) {
    if Name(a.producer) == Name(b.producer) then Less(a.domain, b.domain) else Less(Name(a.producer), Name(b.producer))
  }

  lemma OrdersAreStrict()
    ensures Sorting.IsStrictOrder(RowLess) && Sorting.IsStrictOrder(AuthorityLess)
  {
    hide Name;
    forall s ensures !Less(s, s) { LessIrreflexive(s); }
    forall a, b, c | Less(a, b) && Less(b, c) ensures Less(a, c) { LessTransitive(a, b, c); }
    hide Less;
  }

  /** The assertions a list of rows speaks of, and the keys a list of authorities has. */
  function Assertions(rows: seq<Row>): set<string> {
    set i | 0 <= i < |rows| :: rows[i].assertion
  }

  function Heads(auths: seq<AuthorityRows>): set<string> {
    set i | 0 <= i < |auths| :: HeadKey(auths[i])
  }

  lemma AssertionsAppend(rows: seq<Row>, row: Row)
    ensures Assertions(rows + [row]) == Assertions(rows) + {row.assertion}
  {
    var all := rows + [row];
    assert all[|rows|] == row;
    assert forall i :: 0 <= i < |rows| ==> all[i] == rows[i];
  }

  lemma HeadsAppend(auths: seq<AuthorityRows>, auth: AuthorityRows)
    ensures Heads(auths + [auth]) == Heads(auths) + {HeadKey(auth)}
  {
    hide HeadKey;
    var all := auths + [auth];
    assert all[|auths|] == auth;
    assert forall i :: 0 <= i < |auths| ==> all[i] == auths[i];
  }

  lemma SameLabels(a: seq<Row>, b: seq<Row>)
    requires Sorting.SameElements(a, b)
    ensures Assertions(a) == Assertions(b)
  {
    assert forall i :: 0 <= i < |a| ==> a[i] in b;
    assert forall i :: 0 <= i < |b| ==> b[i] in a;
  }

  lemma SameHeads(a: seq<AuthorityRows>, b: seq<AuthorityRows>)
    requires Sorting.SameElements(a, b)
    ensures Heads(a) == Heads(b)
  {
    hide HeadKey;
    assert forall i :: 0 <= i < |a| ==> a[i] in b;
    assert forall i :: 0 <= i < |b| ==> b[i] in a;
  }

  ghost predicate RowOf(row: Row, m: seq<Envelope>, key: string, t: Time) {
    && Group(m, key, row.assertion) != []
    && TallyOf(Tally(Some(row.latest), row.latestCurrent, row.historyCount), Group(m, key, row.assertion), t)
  }

  ghost predicate RowsOf(rows: seq<Row>, m: seq<Envelope>, key: string, t: Time) {
    && Sorting.Sorted(RowLess, rows)
    && (forall row :: row in rows ==> RowOf(row, m, key, t))
    && (forall a :: Group(m, key, a) != [] ==> a in Assertions(rows))
  }

  function HeadKey(auth: AuthorityRows): string {
    BucketKey(auth.producer, auth.domain)
  }

  ghost predicate AuthorityOf(auth: AuthorityRows, m: seq<Envelope>, t: Time) {
    var members := Filter(m, WithKey(HeadKey(auth)));
    && members != []
    && auth.producer == members[0].producer.system && auth.domain == members[0].domain
    && RowsOf(auth.rows, m, HeadKey(auth), t)
  }

  ghost predicate AuthoritiesOf(authorities: seq<AuthorityRows>, m: seq<Envelope>, t: Time) {
    && Sorting.Sorted(AuthorityLess, authorities)
    && (forall auth :: auth in authorities ==> AuthorityOf(auth, m, t))
    && (forall key :: Filter(m, WithKey(key)) != [] ==> key in Heads(authorities))
  }

  /** The view of the matching envelopes m, in the order in which they were passed. */
  ghost predicate ViewOf(view: View, m: seq<Envelope>, kind: string, id: string, scope: string, t: Time) {
    && view.subject == Subject(kind, id, ScopeOf(scope, m))
    && view.currentCount == |Filter(m, FreshBy(t))|
    && view.currentCount + view.staleCount == |m|
    && (view.state, view.refreshRequired) == Lifecycle(view.currentCount, view.staleCount)
    && AuthoritiesOf(view.authorities, m, t)
  }

  lemma NewestExists(s: seq<Envelope>)
    ensures Newest(s).None? <==> s == []
    ensures Newest(s).Some? ==> Newest(s).value in s
  {
    hide Canonical;
    if s != [] { NewestExists(s[..|s| - 1]); }
  }

  method BuildRows(bucket: Bucket, ghost m: seq<Envelope>, ghost key: string, ghost t: Time) returns (rows: seq<Row>)
    requires BucketOf(bucket, m, key, t)
    ensures RowsOf(rows, m, key, t)
  {
    hide Newest, Filter, FreshAt, Name;
    rows := [];
    var rest := bucket.items.Keys;
    while rest != {}
      invariant rest <= bucket.items.Keys
      invariant forall i :: 0 <= i < |rows| ==> RowOf(rows[i], m, key, t)
      invariant forall i, j :: 0 <= i < j < |rows| ==> rows[i].assertion != rows[j].assertion
      invariant Assertions(rows) == bucket.items.Keys - rest
      decreases rest
    {
      var a :| a in rest;
      var item := bucket.items[a];
      rest := rest - {a};
      NewestExists(Group(m, key, a));
      assert item.latest.Some?;
      var row := Row(a, item.latest.value, item.latestCurrent, item.count);
      assert forall i :: 0 <= i < |rows| ==> rows[i].assertion in Assertions(rows);
      AssertionsAppend(rows, row);
      rows := rows + [row];
    }
    SortRows(rows);
    SameLabels(Sorting.Sort(RowLess, rows), rows);
    rows := Sorting.Sort(RowLess, rows);
  }

  lemma SortRows(rows: seq<Row>)
    requires forall i, j :: 0 <= i < j < |rows| ==> rows[i].assertion != rows[j].assertion
    ensures Sorting.Sorted(RowLess, Sorting.Sort(RowLess, rows)) && Sorting.SameElements(Sorting.Sort(RowLess, rows), rows)
  {
    OrdersAreStrict();
    forall i, j | 0 <= i < j < |rows| ensures RowLess(rows[i], rows[j]) || RowLess(rows[j], rows[i]) {
      LessTotal(rows[i].assertion, rows[j].assertion);
    }
    Sorting.SortSorts(RowLess, rows);
  }

  lemma SortAuthorities(auths: seq<AuthorityRows>)
    requires forall i, j :: 0 <= i < j < |auths| ==> HeadKey(auths[i]) != HeadKey(auths[j])
    ensures Sorting.Sorted(AuthorityLess, Sorting.Sort(AuthorityLess, auths))
    ensures Sorting.SameElements(Sorting.Sort(AuthorityLess, auths), auths)
  {
    OrdersAreStrict();
    forall i, j | 0 <= i < j < |auths| ensures AuthorityLess(auths[i], auths[j]) || AuthorityLess(auths[j], auths[i]) {
      LessTotal(Name(auths[i].producer), Name(auths[j].producer));
      LessTotal(auths[i].domain, auths[j].domain);
      assert HeadKey(auths[i]) != HeadKey(auths[j]);
    }
    Sorting.SortSorts(AuthorityLess, auths);
  }

  lemma BucketMakesAuthority(bucket: Bucket, rows: seq<Row>, m: seq<Envelope>, key: string, t: Time)
    requires BucketOf(bucket, m, key, t) && RowsOf(rows, m, key, t)
    ensures HeadKey(AuthorityRows(bucket.producer, bucket.domain, rows)) == key
    ensures AuthorityOf(AuthorityRows(bucket.producer, bucket.domain, rows), m, t)
  {
    hide Newest, Filter, FreshAt, RowsOf, BucketKey, TallyOf;
  }

  method BuildAuthorities(buckets: map<string, Bucket>, ghost m: seq<Envelope>, ghost t: Time) returns (auths: seq<AuthorityRows>)
    requires TableOf(buckets, m, t)
    ensures AuthoritiesOf(auths, m, t)
  {
    hide Newest, Filter, FreshAt, Name, RowsOf, BucketKey, TallyOf, AuthorityOf, BucketOf, HeadKey;
    auths := [];
    var rest := buckets.Keys;
    while rest != {}
      invariant rest <= buckets.Keys
      invariant forall i :: 0 <= i < |auths| ==> AuthorityOf(auths[i], m, t)
      invariant forall i, j :: 0 <= i < j < |auths| ==> HeadKey(auths[i]) != HeadKey(auths[j])
      invariant Heads(auths) == buckets.Keys - rest
      decreases rest
    {
      var key :| key in rest;
      rest := rest - {key};
      var rows := BuildRows(buckets[key], m, key, t);
      var auth := AuthorityRows(buckets[key].producer, buckets[key].domain, rows);
      BucketMakesAuthority(buckets[key], rows, m, key, t);
      assert forall i :: 0 <= i < |auths| ==> HeadKey(auths[i]) in Heads(auths);
      HeadsAppend(auths, auth);
      auths := auths + [auth];
    }
    SortAuthorities(auths);
    SameHeads(Sorting.Sort(AuthorityLess, auths), auths);
    auths := Sorting.Sort(AuthorityLess, auths);
  }

  /** Which envelopes a view is about: those of the kind and id, and of the scope when one is
      asked for. */
  lemma MatchingMeans(envelopes: seq<Envelope>, kind: string, id: string, scope: string)
    ensures forall e :: e in Filter(envelopes, Matches(kind, id, scope)) <==>
              e in envelopes && e.subject.kind == kind && e.subject.id == id && (scope != "" ==> e.subject.scope == scope)
  {
    FilterMembers(envelopes, Matches(kind, id, scope));
  }

  /** buildEvidenceSubjectView */
  method BuildView(envelopes: seq<Envelope>, kind: string, id: string, scope: string, evaluatedAt: Time) returns (view: View)
    ensures ViewOf(view, Filter(envelopes, Matches(TrimSpace(kind), TrimSpace(id), TrimSpace(scope))),
                   TrimSpace(kind), TrimSpace(id), TrimSpace(scope), evaluatedAt.Utc())
    ensures forall e :: e in Filter(envelopes, Matches(TrimSpace(kind), TrimSpace(id), TrimSpace(scope))) <==>
              && e in envelopes
              && e.subject.kind == TrimSpace(kind) && e.subject.id == TrimSpace(id)
              && (TrimSpace(scope) != "" ==> e.subject.scope == TrimSpace(scope))
  {
    MatchingMeans(envelopes, TrimSpace(kind), TrimSpace(id), TrimSpace(scope));
    hide Newest, FreshAt, Name, RowsOf, Filter, TrimSpace, AuthoritiesOf, TableOf;
    var kind, id, scope := TrimSpace(kind), TrimSpace(id), TrimSpace(scope);
    var t := evaluatedAt.Utc();
    var buckets: map<string, Bucket> := map[];
    var current, stale, resolved := 0, 0, scope;
    ghost var m: seq<Envelope> := [];
    EmptyTable(t, Matches(kind, id, scope));
    for i := 0 to |envelopes|
      invariant m == Filter(envelopes[..i], Matches(kind, id, scope))
      invariant TableOf(buckets, m, t)
      invariant current == |Filter(m, FreshBy(t))| && current + stale == |m|
      invariant resolved == ScopeOf(scope, m)
    {
      var e := envelopes[i];
      assert envelopes[..i + 1] == envelopes[..i] + [e];
      FilterAppend(envelopes[..i], e, Matches(kind, id, scope));
      if e.subject.kind != kind || e.subject.id != id {
        assert m + [] == m;
        continue;
      }
      if scope != "" && e.subject.scope != scope {
        assert m + [] == m;
        continue;
      }
      var isFresh := FreshAt(e, t);
      if isFresh {
        current := current + 1;
      } else {
        stale := stale + 1;
      }
      if resolved == "" && e.subject.scope != "" {
        resolved := e.subject.scope;
      }
      EnterKeepsTable(buckets, m, e, t);
      FilterAppend(m, e, FreshBy(t));
      assert (m + [e])[..|m|] == m;
      buckets := Enter(buckets, e, t);
      m := m + [e];
    }
    assert envelopes[..|envelopes|] == envelopes;
    var authorities := BuildAuthorities(buckets, m, t);
    var (state, refresh) := Lifecycle(current, stale);
    view := View(Subject(kind, id, resolved), state, current, stale, refresh, authorities);
  }

  lemma EmptyTable(t: Time, p: Envelope -> bool)
    ensures TableOf(map[], [], t)
    ensures Filter([], p) == [] && Filter([], FreshBy(t)) == []
  {
  }
}
