/** What the subject view means for the registry it is built from. */
module SubjectViewLaws {
  import opened Wrappers
  import opened Text
  import opened GoTime
  import opened Authority
  import opened Envelope
  import opened Filtering
  import opened SubjectView
  import opened EnvelopeRegistry
  import Sorting

  // ---------- the order of map iteration does not show ----------

  lemma RowsAreUnique(a: seq<Row>, b: seq<Row>, m: seq<Envelope>, key: string, t: Time)
    requires RowsOf(a, m, key, t) && RowsOf(b, m, key, t)
    ensures a == b
  {
    hide Newest, FreshAt, Filter, BucketKey;
    OrdersAreStrict();
    RowsWithin(a, b, m, key, t);
    RowsWithin(b, a, m, key, t);
    Sorting.SortedUnique(RowLess, a, b);
  }

  lemma RowsWithin(a: seq<Row>, b: seq<Row>, m: seq<Envelope>, key: string, t: Time)
    requires RowsOf(a, m, key, t) && RowsOf(b, m, key, t)
    ensures forall row :: row in a ==> row in b
  {
    hide Newest, FreshAt, Filter, BucketKey;
    forall row | row in a ensures row in b {
      assert row.assertion in Assertions(b);
      var i :| 0 <= i < |b| && b[i].assertion == row.assertion;
      assert RowOf(b[i], m, key, t) && RowOf(row, m, key, t);
    }
  }

  lemma AuthoritiesWithin(a: seq<AuthorityRows>, b: seq<AuthorityRows>, m: seq<Envelope>, t: Time)
    requires AuthoritiesOf(a, m, t) && AuthoritiesOf(b, m, t)
    ensures forall auth :: auth in a ==> auth in b
  {
    hide Newest, FreshAt, Filter, BucketKey, RowsOf;
    forall auth | auth in a ensures auth in b {
      assert HeadKey(auth) in Heads(b);
      var i :| 0 <= i < |b| && HeadKey(b[i]) == HeadKey(auth);
      assert AuthorityOf(b[i], m, t) && AuthorityOf(auth, m, t);
      RowsAreUnique(auth.rows, b[i].rows, m, HeadKey(auth), t);
    }
  }

  /** Two views of the same envelopes are equal, however the maps were ranged over. */
  lemma ViewIsUnique(v: View, w: View, m: seq<Envelope>, kind: string, id: string, scope: string, t: Time)
    requires ViewOf(v, m, kind, id, scope, t) && ViewOf(w, m, kind, id, scope, t)
    ensures v == w
  {
    hide Filter, AuthorityOf, ScopeOf;
    OrdersAreStrict();
    AuthoritiesWithin(v.authorities, w.authorities, m, t);
    AuthoritiesWithin(w.authorities, v.authorities, m, t);
    Sorting.SortedUnique(AuthorityLess, v.authorities, w.authorities);
  }

  // ---------- the bucket key ----------

  lemma NameIsInjective(p: System, q: System)
    requires !p.Foreign? && !q.Foreign? && Name(p) == Name(q)
    ensures p == q
  {
    assert |Name(p)| == |Name(q)| && Name(p)[0] == Name(q)[0];
  }

  /** Joining by NUL loses nothing for the producers that evidence can have. */
  lemma BucketKeyIsInjective(p: System, d: string, q: System, e: string)
    requires !p.Foreign? && !q.Foreign?
    requires BucketKey(p, d) == BucketKey(q, e)
    ensures p == q && d == e
  {
    var key := BucketKey(p, d);
    var a, b := Name(p), Name(q);
    assert key[..|a|] == a && key[|a|] == '\0' && key[|a| + 1..] == d;
    assert key[..|b|] == b && key[|b|] == '\0' && key[|b| + 1..] == e;
    hide Name, BucketKey;
    if |a| < |b| {
      NameHasNoNul(q, |a|);
    } else if |b| < |a| {
      NameHasNoNul(p, |b|);
    }
    NameIsInjective(p, q);
  }

  // ---------- the history adds up ----------

  function RowTotal(rows: seq<Row>): nat {
    if rows == [] then 0 else RowTotal(rows[..|rows| - 1]) + rows[|rows| - 1].historyCount
  }

  function HistoryTotal(auths: seq<AuthorityRows>): nat {
    if auths == [] then 0 else HistoryTotal(auths[..|auths| - 1]) + RowTotal(auths[|auths| - 1].rows)
  }

  function AssertionOf(e: Envelope): string { e.assertion }

  function RowLabels(rows: seq<Row>): seq<string> {
    seq(|rows|, i requires 0 <= i < |rows| => rows[i].assertion)
  }

  function HeadLabels(auths: seq<AuthorityRows>): seq<string> {
    seq(|auths|, i requires 0 <= i < |auths| => HeadKey(auths[i]))
  }

  lemma {:induction false} RowTotalIsTotal(rows: seq<Row>, members: seq<Envelope>)
    requires forall row :: row in rows ==> row.historyCount == |Filter(members, Labelled(AssertionOf, row.assertion))|
    ensures RowTotal(rows) == TotalFor(members, AssertionOf, RowLabels(rows))
  {
    hide Filter;
    if rows != [] {
      var front := rows[..|rows| - 1];
      assert rows[|rows| - 1] in rows;
      assert forall row :: row in front ==> row in rows;
      RowTotalIsTotal(front, members);
      assert RowLabels(rows)[..|rows| - 1] == RowLabels(front);
    }
  }

  lemma RowsCoverMembers(rows: seq<Row>, m: seq<Envelope>, key: string, t: Time)
    requires RowsOf(rows, m, key, t)
    ensures RowTotal(rows) == |Filter(m, WithKey(key))|
  {
    hide Newest, FreshAt, BucketKey;
    var members := Filter(m, WithKey(key));
    forall a ensures Filter(members, Labelled(AssertionOf, a)) == Group(m, key, a) {
      forall e: Envelope ensures InGroup(key, a)(e) <==> WithKey(key)(e) && Labelled(AssertionOf, a)(e) {
        assert AssertionOf(e) == e.assertion;
      }
      FilterTwice(m, WithKey(key), Labelled(AssertionOf, a), InGroup(key, a));
    }
    FilterMembers(m, WithKey(key));
    forall e | e in members ensures AssertionOf(e) in RowLabels(rows) {
      FilterMembers(m, InGroup(key, e.assertion));
      assert e in Group(m, key, e.assertion);
      assert e.assertion in Assertions(rows);
      var i :| 0 <= i < |rows| && rows[i].assertion == e.assertion;
      assert RowLabels(rows)[i] == e.assertion;
    }
    hide Filter;
    forall i, j | 0 <= i < j < |rows| ensures RowLabels(rows)[i] != RowLabels(rows)[j] {
      assert RowLess(rows[i], rows[j]);
      LessIrreflexive(rows[i].assertion);
    }
    RowTotalIsTotal(rows, members);
    Partition(members, AssertionOf, RowLabels(rows));
  }

  lemma {:induction false} HistoryTotalIsTotal(auths: seq<AuthorityRows>, m: seq<Envelope>, t: Time)
    requires forall auth :: auth in auths ==> AuthorityOf(auth, m, t)
    ensures HistoryTotal(auths) == TotalFor(m, KeyOf, HeadLabels(auths))
  {
    hide RowsOf, Filter, HeadKey;
    if auths != [] {
      var front, last := auths[..|auths| - 1], auths[|auths| - 1];
      assert last in auths;
      assert forall auth :: auth in front ==> auth in auths;
      HistoryTotalIsTotal(front, m, t);
      assert HeadLabels(auths)[..|auths| - 1] == HeadLabels(front);
      RowsCoverMembers(last.rows, m, HeadKey(last), t);
      FilterSame(m, WithKey(HeadKey(last)), Labelled(KeyOf, HeadKey(last)));
    }
  }

  /** The sum of all HistoryCounts is the number of matching envelopes. */
  lemma HistoryAddsUp(v: View, m: seq<Envelope>, kind: string, id: string, scope: string, t: Time)
    requires ViewOf(v, m, kind, id, scope, t)
    ensures HistoryTotal(v.authorities) == |m| == v.currentCount + v.staleCount
  {
    hide Filter, RowsOf, ScopeOf, Name;
    var auths := v.authorities;
    forall e | e in m ensures KeyOf(e) in HeadLabels(auths) {
      FilterMembers(m, WithKey(KeyOf(e)));
      assert e in Filter(m, WithKey(KeyOf(e)));
      assert KeyOf(e) in Heads(auths);
      var i :| 0 <= i < |auths| && HeadKey(auths[i]) == KeyOf(e);
      assert HeadLabels(auths)[i] == KeyOf(e);
    }
    forall i, j | 0 <= i < j < |auths| ensures HeadLabels(auths)[i] != HeadLabels(auths)[j] {
      HeadsDiffer(auths[i], auths[j], m, t);
    }
    hide AuthorityOf;
    HistoryTotalIsTotal(auths, m, t);
    Partition(m, KeyOf, HeadLabels(auths));
  }

  lemma HeadsDiffer(a: AuthorityRows, b: AuthorityRows, m: seq<Envelope>, t: Time)
    requires AuthorityOf(a, m, t) && AuthorityOf(b, m, t) && AuthorityLess(a, b)
    ensures HeadKey(a) != HeadKey(b)
  {
    hide Filter, RowsOf, BucketKey, Name;
    LessIrreflexive(Name(a.producer));
    LessIrreflexive(a.domain);
  }

  // ---------- the view of a registry ----------

  /** The stored envelopes of the subject, and those under one row. */
  predicate AboutSubject(m: Contents, e: Envelope, kind: string, id: string, scope: string) {
    e.id in m && m[e.id] == e && OfSubject(e, kind, id, scope)
  }

  /** The envelope has the kind and the id, and the scope when one is asked for. */
  predicate OfSubject(e: Envelope, kind: string, id: string, scope: string) {
    e.subject.kind == kind && e.subject.id == id && (scope != "" ==> e.subject.scope == scope)
  }

  predicate UnderRow(e: Envelope, producer: System, domain: string, assertion: string) {
    e.producer.system == producer && e.domain == domain && e.assertion == assertion
  }

  /** best is in the set and was observed after every other member, or with it under a
      smaller ID. */
  ghost predicate NewestOf(best: Envelope, candidates: iset<Envelope>) {
    && best in candidates
    && forall e :: e in candidates && e != best ==>
         || e.observedAt.instant < best.observedAt.instant
         || (e.observedAt.instant == best.observedAt.instant && Less(best.id, e.id))
  }

  ghost function RowSet(m: Contents, kind: string, id: string, scope: string, auth: AuthorityRows, row: Row): iset<Envelope> {
    iset e | AboutSubject(m, e, kind, id, scope) && UnderRow(e, auth.producer, auth.domain, row.assertion)
  }

  /** One row, against filter and maximum over the stored envelopes. */
  ghost predicate RowMeans(m: Contents, kind: string, id: string, scope: string, t: Time, auth: AuthorityRows, row: Row) {
    var members := RowSet(m, kind, id, scope, auth, row);
    && NewestOf(row.latest.envelope, members) && row.latest.isFresh == FreshAt(row.latest.envelope, t)
    && (row.latestCurrent.None? ==> forall e :: e in members ==> !FreshAt(e, t))
    && (row.latestCurrent.Some? ==>
          row.latestCurrent.value.isFresh && NewestOf(row.latestCurrent.value.envelope, iset e | e in members && FreshAt(e, t)))
    && row.historyCount == |set i | i in m && m[i] in members|
  }

  lemma {:induction false} SortedNewest(s: seq<Envelope>)
    requires Sorting.Sorted(NewerFirst, s)
    ensures Newest(s) == if s == [] then None else Some(s[0])
  {
    if |s| > 1 {
      SortedNewest(s[..|s| - 1]);
      assert NewerFirst(s[0], s[|s| - 1]);
    }
  }

  lemma HeadIsNewest(s: seq<Envelope>, members: iset<Envelope>)
    requires Sorting.Sorted(NewerFirst, s)
    requires forall e :: e in s <==> e in members
    ensures s == [] ==> forall e :: e !in members
    ensures s != [] ==> NewestOf(s[0], members)
  {
    hide Less;
    forall e | e in members ensures s != [] && (e == s[0] || NewerFirst(s[0], e)) {
      assert e in s;
      var j :| 0 <= j < |s| && s[j] == e;
    }
  }

  /** The matching part of a listing: sorted, and the stored envelopes of the subject. */
  lemma MatchingListing(m: Contents, listing: seq<Envelope>, kind: string, id: string, scope: string)
    requires IsListing(m, listing)
    ensures Sorting.Sorted(NewerFirst, Filter(listing, Matches(kind, id, scope)))
    ensures forall e :: e in Filter(listing, Matches(kind, id, scope)) <==> AboutSubject(m, e, kind, id, scope)
  {
    FilterSorted(NewerFirst, listing, Matches(kind, id, scope));
    FilterMembers(listing, Matches(kind, id, scope));
  }

  lemma NoForeignProducer(m: Contents, e: Envelope)
    requires Legal(m)
    ensures e.id in m && m[e.id] == e ==> !e.producer.system.Foreign?
  {
    StoredAuthority(e, e);
    hide Stored;
  }

  lemma GroupMeans(m: Contents, s: seq<Envelope>, kind: string, id: string, scope: string, t: Time, auth: AuthorityRows, row: Row)
    requires Legal(m)
    requires forall e :: e in s <==> AboutSubject(m, e, kind, id, scope)
    requires AuthorityOf(auth, s, t) && row in auth.rows
    ensures !auth.producer.Foreign?
    ensures forall e :: e in Group(s, HeadKey(auth), row.assertion) <==> e in RowSet(m, kind, id, scope, auth, row)
  {
    hide FreshAt, RowsOf, Name, Stored, BucketKey, Legal, Filter;
    FilterMembers(s, WithKey(HeadKey(auth)));
    var first := Filter(s, WithKey(HeadKey(auth)))[0];
    assert first in Filter(s, WithKey(HeadKey(auth)));
    NoForeignProducer(m, first);
    FilterMembers(s, InGroup(HeadKey(auth), row.assertion));
    forall e | e in s && KeyOf(e) == HeadKey(auth) ensures e.producer.system == auth.producer && e.domain == auth.domain {
      NoForeignProducer(m, e);
      BucketKeyIsInjective(e.producer.system, e.domain, auth.producer, auth.domain);
    }
  }

  lemma RowMeaning(m: Contents, s: seq<Envelope>, kind: string, id: string, scope: string, t: Time, auth: AuthorityRows, row: Row)
    requires Legal(m)
    requires Sorting.Sorted(NewerFirst, s)
    requires forall e :: e in s <==> AboutSubject(m, e, kind, id, scope)
    requires AuthorityOf(auth, s, t) && row in auth.rows
    ensures RowMeans(m, kind, id, scope, t, auth, row)
  {
    hide FreshAt, Name, Stored, BucketKey, AboutSubject, Newest, NewerFirst;
    GroupMeans(m, s, kind, id, scope, t, auth, row);
    var group := Group(s, HeadKey(auth), row.assertion);
    FilterSorted(NewerFirst, s, InGroup(HeadKey(auth), row.assertion));
    var current := Filter(group, FreshBy(t));
    FilterSorted(NewerFirst, group, FreshBy(t));
    FilterMembers(group, FreshBy(t));
    hide Filter, Group;
    assert RowOf(row, s, HeadKey(auth), t);
    SortedNewest(group);
    SortedNewest(current);
    HeadIsNewest(group, RowSet(m, kind, id, scope, auth, row));
    HeadIsNewest(current, iset e | e in RowSet(m, kind, id, scope, auth, row) && FreshAt(e, t));
    RowCount(m, group, kind, id, scope, auth, row);
  }

  lemma RowCount(m: Contents, group: seq<Envelope>, kind: string, id: string, scope: string, auth: AuthorityRows, row: Row)
    requires Legal(m)
    requires Sorting.Sorted(NewerFirst, group)
    requires forall e :: e in group <==> e in RowSet(m, kind, id, scope, auth, row)
    ensures |group| == |set i | i in m && m[i] in RowSet(m, kind, id, scope, auth, row)|
  {
    hide Stored;
    var ids := SortedIds(m, group);
    var members := RowSet(m, kind, id, scope, auth, row);
    assert ids == set i | i in m && m[i] in members;
  }

  // ---------- the whole view ----------

  /** v is what BuildView gives on a listing of the stored envelopes. */
  ghost predicate IsView(v: View, m: Contents, kind: string, id: string, scope: string, t: Time) {
    exists listing :: IsListing(m, listing) && ViewOf(v, Filter(listing, Matches(kind, id, scope)), kind, id, scope, t)
  }

  /** The subject endpoint: the view of what the registry lists. */
  method ReadSubject(registry: Registry, kind: string, id: string, scope: string, now: Time) returns (view: Option<View>)
    requires registry.Valid()
    ensures view.None? <==> TrimSpace(kind) == "" || TrimSpace(id) == ""
    ensures view.Some? ==> IsView(view.value, registry.envelopes, TrimSpace(kind), TrimSpace(id), TrimSpace(scope), now.Utc())
  {
    hide ViewOf, IsListing, Filter, TrimSpace;
    TrimTight(kind);
    TrimTight(id);
    var kind, id := TrimSpace(kind), TrimSpace(id);
    if kind == "" || id == "" {
      return None;
    }
    var listing := registry.List();
    var built := BuildView(listing, kind, id, scope, now.Utc());
    return Some(built);
  }

  ghost predicate HasRowFor(v: View, e: Envelope) {
    exists i, j :: 0 <= i < |v.authorities| && 0 <= j < |v.authorities[i].rows|
                   && UnderRow(e, v.authorities[i].producer, v.authorities[i].domain, v.authorities[i].rows[j].assertion)
  }

  ghost predicate SomeRowCurrent(v: View) {
    exists i, j :: 0 <= i < |v.authorities| && 0 <= j < |v.authorities[i].rows| && v.authorities[i].rows[j].latestCurrent.Some?
  }

  /** The view depends only on the stored envelopes: not on the order in which the map was
      listed, nor on the order in which the buckets were ranged over. */
  lemma ViewDependsOnContents(v: View, w: View, m: Contents, kind: string, id: string, scope: string, t: Time)
    requires IsView(v, m, kind, id, scope, t) && IsView(w, m, kind, id, scope, t)
    ensures v == w
  {
    hide ViewOf, IsListing, Filter;
    var a :| IsListing(m, a) && ViewOf(v, Filter(a, Matches(kind, id, scope)), kind, id, scope, t);
    var b :| IsListing(m, b) && ViewOf(w, Filter(b, Matches(kind, id, scope)), kind, id, scope, t);
    ListingIsUnique(m, a, b);
    ViewIsUnique(v, w, Filter(a, Matches(kind, id, scope)), kind, id, scope, t);
  }

  /** Every row is the newest, the newest fresh and the number of its envelopes. */
  lemma RowsMean(v: View, m: Contents, kind: string, id: string, scope: string, t: Time)
    requires Legal(m) && IsView(v, m, kind, id, scope, t)
    ensures forall auth, row :: auth in v.authorities && row in auth.rows ==> RowMeans(m, kind, id, scope, t, auth, row)
  {
    hide Stored, IsListing, Filter, RowMeans, AuthorityOf, AboutSubject, Legal, ScopeOf;
    var listing :| IsListing(m, listing) && ViewOf(v, Filter(listing, Matches(kind, id, scope)), kind, id, scope, t);
    MatchingListing(m, listing, kind, id, scope);
    forall auth, row | auth in v.authorities && row in auth.rows ensures RowMeans(m, kind, id, scope, t, auth, row) {
      RowMeaning(m, Filter(listing, Matches(kind, id, scope)), kind, id, scope, t, auth, row);
    }
  }

  /** Every matching envelope has its row. */
  lemma RowsCover(v: View, m: Contents, e: Envelope, kind: string, id: string, scope: string, t: Time)
    requires IsView(v, m, kind, id, scope, t)
    requires AboutSubject(m, e, kind, id, scope)
    ensures Legal(m) ==> HasRowFor(v, e)
  {
    hide Stored, IsListing, Filter, AboutSubject, ScopeOf, FreshAt, Name, BucketKey, Newest;
    if Legal(m) {
      var listing :| IsListing(m, listing) && ViewOf(v, Filter(listing, Matches(kind, id, scope)), kind, id, scope, t);
      var s := Filter(listing, Matches(kind, id, scope));
      MatchingListing(m, listing, kind, id, scope);
      var key := KeyOf(e);
      FilterMembers(s, WithKey(key));
      FilterMembers(s, InGroup(key, e.assertion));
      assert e in Filter(s, WithKey(key)) && e in Group(s, key, e.assertion);
      assert key in Heads(v.authorities);
      var i :| 0 <= i < |v.authorities| && HeadKey(v.authorities[i]) == key;
      var auth := v.authorities[i];
      assert AuthorityOf(auth, s, t);
      assert e.assertion in Assertions(auth.rows);
      var j :| 0 <= j < |auth.rows| && auth.rows[j].assertion == e.assertion;
      GroupMeans(m, s, kind, id, scope, t, auth, auth.rows[j]);
    }
  }

  /** At most one row for each producer, domain and assertion, and each domain heads at
      most one authority. Rows come in the order of their assertions, authorities in that of
      the producers' names. */
  lemma RowsAreDistinct(v: View, m: Contents, kind: string, id: string, scope: string, t: Time)
    requires Legal(m) && IsView(v, m, kind, id, scope, t)
    ensures forall i, j :: 0 <= i < j < |v.authorities| ==> v.authorities[i].domain != v.authorities[j].domain
    ensures forall i, j, k :: 0 <= i < |v.authorities| && 0 <= j < k < |v.authorities[i].rows| ==>
              && Less(v.authorities[i].rows[j].assertion, v.authorities[i].rows[k].assertion)
              && v.authorities[i].rows[j].assertion != v.authorities[i].rows[k].assertion
    ensures forall i, j :: 0 <= i < j < |v.authorities| ==>
              || Less(Name(v.authorities[i].producer), Name(v.authorities[j].producer))
              || (Name(v.authorities[i].producer) == Name(v.authorities[j].producer) && Less(v.authorities[i].domain, v.authorities[j].domain))
  {
    hide Stored, IsListing, Filter, AboutSubject, ScopeOf, FreshAt, Name, Less;
    var listing :| IsListing(m, listing) && ViewOf(v, Filter(listing, Matches(kind, id, scope)), kind, id, scope, t);
    var s := Filter(listing, Matches(kind, id, scope));
    MatchingListing(m, listing, kind, id, scope);
    forall i, j | 0 <= i < j < |v.authorities| ensures v.authorities[i].domain != v.authorities[j].domain {
      var a, b := v.authorities[i], v.authorities[j];
      DomainHeadsOne(m, s, kind, id, scope, t, a, b);
    }
    forall i, j, k | 0 <= i < |v.authorities| && 0 <= j < k < |v.authorities[i].rows|
      ensures Less(v.authorities[i].rows[j].assertion, v.authorities[i].rows[k].assertion)
      ensures v.authorities[i].rows[j].assertion != v.authorities[i].rows[k].assertion
    {
      assert AuthorityOf(v.authorities[i], s, t);
      assert RowLess(v.authorities[i].rows[j], v.authorities[i].rows[k]);
      LessIrreflexive(v.authorities[i].rows[j].assertion);
    }
  }

  lemma DomainHeadsOne(m: Contents, s: seq<Envelope>, kind: string, id: string, scope: string, t: Time, a: AuthorityRows, b: AuthorityRows)
    requires Legal(m)
    requires forall e :: e in s <==> AboutSubject(m, e, kind, id, scope)
    requires AuthorityOf(a, s, t) && AuthorityOf(b, s, t) && AuthorityLess(a, b)
    ensures a.domain != b.domain
  {
    HeadsDiffer(a, b, s, t);
    hide FreshAt, RowsOf, Stored, Filter, BucketKey, Less, Name;
    FilterMembers(s, WithKey(HeadKey(a)));
    FilterMembers(s, WithKey(HeadKey(b)));
    var first, second := Filter(s, WithKey(HeadKey(a)))[0], Filter(s, WithKey(HeadKey(b)))[0];
    assert first in s && second in s;
    StoredAuthority(first, second);
  }

  /** The counts are those of the stored envelopes of the subject, and add up to the
      history counts. */
  lemma CountsMean(v: View, m: Contents, kind: string, id: string, scope: string, t: Time)
    requires Legal(m) && IsView(v, m, kind, id, scope, t)
    ensures v.currentCount + v.staleCount == |set i | i in m && AboutSubject(m, m[i], kind, id, scope)| == HistoryTotal(v.authorities)
    ensures v.currentCount == |set i | i in m && AboutSubject(m, m[i], kind, id, scope) && FreshAt(m[i], t)|
  {
    hide Stored, IsListing, Filter, AboutSubject, ScopeOf, FreshAt, Name, AuthoritiesOf;
    var listing :| IsListing(m, listing) && ViewOf(v, Filter(listing, Matches(kind, id, scope)), kind, id, scope, t);
    var s := Filter(listing, Matches(kind, id, scope));
    MatchingListing(m, listing, kind, id, scope);
    HistoryAddsUp(v, s, kind, id, scope, t);
    var all := CountOf(m, s, kind, id, scope);
    FilterMembers(s, FreshBy(t));
    FilterSorted(NewerFirst, s, FreshBy(t));
    assert forall e :: e in Filter(s, FreshBy(t)) ==> AboutSubject(m, e, kind, id, scope);
    var current := CountOf(m, Filter(s, FreshBy(t)), kind, id, scope);
    assert all == set i | i in m && AboutSubject(m, m[i], kind, id, scope);
    assert current == set i | i in m && AboutSubject(m, m[i], kind, id, scope) && FreshAt(m[i], t);
  }

  lemma CountOf(m: Contents, s: seq<Envelope>, kind: string, id: string, scope: string) returns (ids: set<string>)
    requires Legal(m) && Sorting.Sorted(NewerFirst, s)
    requires forall e :: e in s ==> AboutSubject(m, e, kind, id, scope)
    ensures |ids| == |s|
    ensures forall i :: i in ids <==> i in m && m[i] in s
  {
    hide Stored;
    ids := SortedIds(m, s);
  }

  /** The state is "current" exactly when some row has a current envelope, and exactly then
      no refresh is required. */
  lemma StateMeans(v: View, m: Contents, kind: string, id: string, scope: string, t: Time)
    requires Legal(m) && IsView(v, m, kind, id, scope, t)
    ensures v.state == "current" <==> SomeRowCurrent(v)
    ensures v.refreshRequired <==> !SomeRowCurrent(v)
    ensures v.state in ["current", "stale-only", "empty"]
    ensures v.state == "empty" <==> forall i :: i in m ==> !AboutSubject(m, m[i], kind, id, scope)
  {
    StatesDiffer();
    LifecycleOf(v, m, kind, id, scope, t);
    SomethingCurrent(v, m, kind, id, scope, t);
    SomethingStored(v, m, kind, id, scope, t);
    hide IsView, AboutSubject, SomeRowCurrent;
  }

  lemma SomethingStored(v: View, m: Contents, kind: string, id: string, scope: string, t: Time)
    requires Legal(m) && IsView(v, m, kind, id, scope, t)
    ensures v.currentCount + v.staleCount == 0 <==> forall i :: i in m ==> !AboutSubject(m, m[i], kind, id, scope)
  {
    CountsMean(v, m, kind, id, scope, t);
    hide Stored, AboutSubject, IsView;
    var all := set i | i in m && AboutSubject(m, m[i], kind, id, scope);
    if all == {} {
      forall i | i in m ensures !AboutSubject(m, m[i], kind, id, scope) { assert i !in all; }
    }
  }

  lemma SomethingCurrent(v: View, m: Contents, kind: string, id: string, scope: string, t: Time)
    requires Legal(m) && IsView(v, m, kind, id, scope, t)
    ensures v.currentCount > 0 <==> SomeRowCurrent(v)
  {
    hide Stored, AboutSubject, FreshAt, IsView, NewerFirst, HistoryTotal, SomeRowCurrent;
    CountsMean(v, m, kind, id, scope, t);
    var current := set i | i in m && AboutSubject(m, m[i], kind, id, scope) && FreshAt(m[i], t);
    if current != {} {
      var c :| c in current;
      CurrentShows(v, m, m[c], kind, id, scope, t);
    }
    if SomeRowCurrent(v) {
      var e := ShownIsCurrent(v, m, kind, id, scope, t);
      assert e.id in current;
    }
  }

  lemma CurrentShows(v: View, m: Contents, e: Envelope, kind: string, id: string, scope: string, t: Time)
    requires Legal(m) && IsView(v, m, kind, id, scope, t)
    requires AboutSubject(m, e, kind, id, scope) && FreshAt(e, t)
    ensures SomeRowCurrent(v)
  {
    hide Stored, AboutSubject, FreshAt, IsView, NewerFirst, Legal, UnderRow;
    CurrentHasRow(v, m, e, kind, id, scope, t);
  }

  lemma ShownIsCurrent(v: View, m: Contents, kind: string, id: string, scope: string, t: Time) returns (e: Envelope)
    requires Legal(m) && IsView(v, m, kind, id, scope, t) && SomeRowCurrent(v)
    ensures e.id in m && m[e.id] == e && AboutSubject(m, e, kind, id, scope) && FreshAt(e, t)
  {
    hide Stored, AboutSubject, FreshAt, IsView, NewerFirst, Legal;
    RowsMean(v, m, kind, id, scope, t);
    var i, j :| 0 <= i < |v.authorities| && 0 <= j < |v.authorities[i].rows| && v.authorities[i].rows[j].latestCurrent.Some?;
    var row := v.authorities[i].rows[j];
    assert RowMeans(m, kind, id, scope, t, v.authorities[i], row);
    e := row.latestCurrent.value.envelope;
    CurrentIsStored(m, e, kind, id, scope);
  }

  lemma StatesDiffer()
    ensures CURRENT != STALE_ONLY && CURRENT != EMPTY && STALE_ONLY != EMPTY
  {
    assert |CURRENT| == 7 && |STALE_ONLY| == 10 && |EMPTY| == 5;
  }

  lemma LifecycleOf(v: View, m: Contents, kind: string, id: string, scope: string, t: Time)
    requires IsView(v, m, kind, id, scope, t)
    ensures v.state == (if v.currentCount > 0 then CURRENT else if v.staleCount > 0 then STALE_ONLY else EMPTY)
    ensures v.refreshRequired <==> v.currentCount == 0
  {
    hide Filter, IsListing, AuthoritiesOf, ScopeOf;
  }

  lemma CurrentIsStored(m: Contents, e: Envelope, kind: string, id: string, scope: string)
    requires AboutSubject(m, e, kind, id, scope)
    ensures e.id in m && m[e.id] == e
  {
  }

  /** A fresh envelope makes its row current. */
  lemma CurrentHasRow(v: View, m: Contents, e: Envelope, kind: string, id: string, scope: string, t: Time)
    requires Legal(m) && IsView(v, m, kind, id, scope, t)
    requires AboutSubject(m, e, kind, id, scope) && FreshAt(e, t)
    ensures exists i, j :: 0 <= i < |v.authorities| && 0 <= j < |v.authorities[i].rows|
                           && CurrentRow(v.authorities[i], v.authorities[i].rows[j], e)
  {
    hide Stored, FreshAt, IsView, AboutSubject, Less;
    RowsCover(v, m, e, kind, id, scope, t);
    RowsMean(v, m, kind, id, scope, t);
    var i, j :| 0 <= i < |v.authorities| && 0 <= j < |v.authorities[i].rows|
                && UnderRow(e, v.authorities[i].producer, v.authorities[i].domain, v.authorities[i].rows[j].assertion);
    var auth, row := v.authorities[i], v.authorities[i].rows[j];
    assert RowMeans(m, kind, id, scope, t, auth, row);
    assert e in RowSet(m, kind, id, scope, auth, row);
    assert CurrentRow(v.authorities[i], v.authorities[i].rows[j], e);
  }

  /** The row of e shows a current envelope that is e or newer. */
  predicate CurrentRow(auth: AuthorityRows, row: Row, e: Envelope) {
    && UnderRow(e, auth.producer, auth.domain, row.assertion)
    && row.latestCurrent.Some?
    && row.latestCurrent.value.isFresh
    && (row.latestCurrent.value.envelope == e || NewerFirst(row.latestCurrent.value.envelope, e))
  }

  /** What a row shows is stored evidence of the subject that was asked for, of the row's
      producer, domain and assertion; the current evidence is not past its deadline. */
  ghost predicate ShowsSubject(m: Contents, kind: string, id: string, scope: string, t: Time, auth: AuthorityRows, row: Row, shown: Shown) {
    var e := shown.envelope;
    && e.id in m && m[e.id] == e
    && e.subject.kind == kind && e.subject.id == id && (scope != "" ==> e.subject.scope == scope)
    && e.producer.system == auth.producer && e.domain == auth.domain && e.assertion == row.assertion
    && (shown.isFresh <==> t.instant <= e.validUntil.instant)
  }

  lemma ShownMeans(v: View, m: Contents, kind: string, id: string, scope: string, t: Time)
    requires Legal(m) && IsView(v, m, kind, id, scope, t)
    ensures v.subject.kind == kind && v.subject.id == id && (scope != "" ==> v.subject.scope == scope)
    ensures forall auth, row :: auth in v.authorities && row in auth.rows ==>
              && ShowsSubject(m, kind, id, scope, t, auth, row, row.latest)
              && (row.latestCurrent.Some? ==>
                    row.latestCurrent.value.isFresh && ShowsSubject(m, kind, id, scope, t, auth, row, row.latestCurrent.value))
  {
    RowsMean(v, m, kind, id, scope, t);
    SubjectIsAsked(v, m, kind, id, scope, t);
    hide IsView, Legal, RowMeans, ShowsSubject;
    forall auth, row | auth in v.authorities && row in auth.rows
      ensures ShowsSubject(m, kind, id, scope, t, auth, row, row.latest)
      ensures row.latestCurrent.Some? ==>
                row.latestCurrent.value.isFresh && ShowsSubject(m, kind, id, scope, t, auth, row, row.latestCurrent.value)
    {
      RowShows(m, kind, id, scope, t, auth, row);
    }
  }

  lemma SubjectIsAsked(v: View, m: Contents, kind: string, id: string, scope: string, t: Time)
    requires IsView(v, m, kind, id, scope, t)
    ensures v.subject.kind == kind && v.subject.id == id && (scope != "" ==> v.subject.scope == scope)
  {
    hide Filter, IsListing, AuthoritiesOf;
    var listing :| IsListing(m, listing) && ViewOf(v, Filter(listing, Matches(kind, id, scope)), kind, id, scope, t);
    AskedScope(scope, Filter(listing, Matches(kind, id, scope)));
  }

  lemma RowShows(m: Contents, kind: string, id: string, scope: string, t: Time, auth: AuthorityRows, row: Row)
    requires RowMeans(m, kind, id, scope, t, auth, row)
    ensures Legal(m) ==>
              && ShowsSubject(m, kind, id, scope, t, auth, row, row.latest)
              && (row.latestCurrent.Some? ==>
                    row.latestCurrent.value.isFresh && ShowsSubject(m, kind, id, scope, t, auth, row, row.latestCurrent.value))
  {
    StoredDeadline(row.latest.envelope, t);
    if row.latestCurrent.Some? { StoredDeadline(row.latestCurrent.value.envelope, t); }
    hide Stored, FreshAt, Less;
  }

  lemma {:induction false} AskedScope(asked: string, s: seq<Envelope>)
    ensures asked != "" ==> ScopeOf(asked, s) == asked
  {
    if s != [] { AskedScope(asked, s[..|s| - 1]); }
  }

  // ---------- the scope shown ----------

  lemma {:induction false} NoScope(s: seq<Envelope>)
    ensures ScopeOf("", s) == "" <==> forall i :: 0 <= i < |s| ==> s[i].subject.scope == ""
  {
    if s != [] { NoScope(s[..|s| - 1]); }
  }

  lemma {:induction false} FirstScope(s: seq<Envelope>) returns (i: nat)
    requires ScopeOf("", s) != ""
    ensures i < |s| && s[i].subject.scope == ScopeOf("", s)
    ensures forall j :: 0 <= j < i ==> s[j].subject.scope == ""
  {
    var n := |s| - 1;
    if ScopeOf("", s[..n]) != "" {
      i := FirstScope(s[..n]);
    } else {
      NoScope(s[..n]);
      i := n;
    }
  }

  lemma FirstIsNewest(s: seq<Envelope>, i: nat, members: iset<Envelope>)
    requires Sorting.Sorted(NewerFirst, s) && i < |s| && s[i] in members
    requires forall e :: e in members ==> e in s
    requires forall j :: 0 <= j < i ==> s[j] !in members
    ensures NewestOf(s[i], members)
  {
    hide Less;
    forall e | e in members ensures e == s[i] || NewerFirst(s[i], e) {
      assert e in s;
      var k :| 0 <= k < |s| && s[k] == e;
    }
  }

  /** Asked without a scope, the view shows the scope of the newest matching envelope that
      has one, and no scope exactly when none has. */
  lemma ScopeMeans(v: View, m: Contents, kind: string, id: string, t: Time)
    requires IsView(v, m, kind, id, "", t)
    ensures v.subject.scope == "" <==> forall e :: AboutSubject(m, e, kind, id, "") ==> e.subject.scope == ""
    ensures v.subject.scope != "" ==>
              exists best: Envelope :: best.subject.scope == v.subject.scope
                             && NewestOf(best, iset e | AboutSubject(m, e, kind, id, "") && e.subject.scope != "")
  {
    hide Filter, FreshAt, AuthoritiesOf, NewerFirst, AboutSubject;
    var listing :| IsListing(m, listing) && ViewOf(v, Filter(listing, Matches(kind, id, "")), kind, id, "", t);
    var s := Filter(listing, Matches(kind, id, ""));
    MatchingListing(m, listing, kind, id, "");
    NoScope(s);
    hide IsListing, ScopeOf;
    if v.subject.scope != "" {
      var i := FirstScope(s);
      var scoped := iset e | AboutSubject(m, e, kind, id, "") && e.subject.scope != "";
      assert s[i] in s;
      FirstIsNewest(s, i, scoped);
    }
  }
}
