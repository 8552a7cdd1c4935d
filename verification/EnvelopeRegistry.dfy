/** The immutable evidence registry: recording, persistence, loading and listing. */
module EnvelopeRegistry {
  import opened Wrappers
  import opened Text
  import opened GoTime
  import opened Envelope
  import opened Disk
  import Keyed
  import Sorting

  const REGISTRY_VERSION := "mesh.evidence-registry.v1"

  datatype Document = Document(version: string, envelopes: seq<Envelope>)

  datatype RecordError = Rejected(why: Rejection) | ImmutableConflict | NotPersisted

  datatype Recorded = Recorded(envelope: Envelope, replayed: bool)

  datatype LoadError = Unreadable | NotJson | ForeignVersion | BadEnvelope(why: Rejection) | DuplicateId

  type Contents = map<string, Envelope>

  /** A map the registry may hold in memory. */
  ghost predicate Legal(m: Contents) {
    forall id :: id in m ==> m[id].id == id && Stored(m[id])
  }

  function Canonicals(items: seq<Envelope>): seq<Envelope> {
    seq(|items|, i requires 0 <= i < |items| => Canonical(items[i]))
  }

  /** The file stands for exactly the map: nothing yet, or a complete document whose
      envelopes, in their one spelling, are those of the map. */
  ghost predicate InSync(file: Content<Document>, m: Contents) {
    match file
    case Missing => m == map[]
    case Blank => m == map[]
    case Malformed => false
    case Holds(doc) => doc.version == REGISTRY_VERSION && Keyed.Lists(Canonicals(doc.envelopes), m, Key)
  }

  /** Writing a legal map spells every envelope the one way. */
  lemma CanonicalsOfLegal(m: Contents, items: seq<Envelope>)
    requires Legal(m) && Keyed.Lists(items, m, Key)
    ensures Canonicals(items) == items
  {
    hide Stored, Canonical;
    forall i | 0 <= i < |items| ensures Canonical(items[i]) == items[i] {
      assert Key(items[i]) in m;
      StoredIsCanonical(items[i]);
    }
  }

  // ---------- recording ----------

  /** What one record call does to the map and tells its caller. */
  function Outcome(m: Contents, v: Envelope, evaluatedAt: Time, persisted: bool): (Contents, Result<Recorded, RecordError>) {
    match Normalize(v, evaluatedAt, true)
    case Err(why) => (m, Err(Rejected(why)))
    case Ok(c) =>
      if c.id in m then
        if m[c.id] == c then (m, Ok(Recorded(m[c.id], true))) else (m, Err(ImmutableConflict))
      else if persisted then (m[c.id := c], Ok(Recorded(c, false)))
      else (m, Err(NotPersisted))
  }

  class Registry {
    const path: string
    const volume: Volume<Document>
    var envelopes: Contents

    ghost predicate Valid()
      reads this, volume
    {
      Legal(envelopes) && (path != "" ==> InSync(volume.file, envelopes))
    }

    /** The registry a successful load produces; an empty path starts empty. */
    constructor (path: string, volume: Volume<Document>, loaded: Contents)
      requires Legal(loaded) && (path != "" ==> InSync(volume.file, loaded))
      ensures Valid() && this.path == path && this.volume == volume && envelopes == loaded
    {
      this.path, this.volume, envelopes := path, volume, loaded;
    }

    /** recordAt: memory first, then the file; a failed write takes the entry out again. */
    method RecordAt(v: Envelope, evaluatedAt: Time, fault: Fault<Document>) returns (r: Result<Recorded, RecordError>)
      requires Valid()
      modifies this`envelopes, volume
      ensures Valid()
      ensures (envelopes, r) == Outcome(old(envelopes), v, evaluatedAt, path == "" || fault.NoFault?)
      ensures path == "" || envelopes == old(envelopes) ==> volume.file == old(volume.file)
    {
      hide Normalize, Stored;
      var normalized := Normalize(v, evaluatedAt, true);
      if normalized.Err? {
        return Err(Rejected(normalized.error));
      }
      var c := normalized.value;
      NormalizeIsStable(v, evaluatedAt, evaluatedAt, true);
      if c.id in envelopes {
        if envelopes[c.id] == c {
          return Ok(Recorded(envelopes[c.id], true));
        }
        return Err(ImmutableConflict);
      }
      ghost var before := envelopes;
      envelopes := envelopes[c.id := c];
      var ok := PersistLocked(fault);
      if !ok {
        envelopes := envelopes - {c.id};
        assert envelopes == before;
        return Err(NotPersisted);
      }
      return Ok(Recorded(c, false));
    }

    /** persistLocked: the envelopes in whatever order the map gives them. */
    method PersistLocked(fault: Fault<Document>) returns (ok: bool)
      requires Legal(envelopes)
      modifies volume
      ensures ok == (path == "" || fault.NoFault?)
      ensures path == "" || !ok ==> volume.file == old(volume.file)
      ensures path != "" && ok ==> InSync(volume.file, envelopes)
      ensures path != "" && ok ==> volume.file.Holds? && volume.file.doc.version == "mesh.evidence-registry.v1"
    {
      if path == "" {
        return true;
      }
      hide Stored;
      var items, keys := Keyed.Range(envelopes);
      Keyed.RangeLists(items, keys, envelopes, Key);
      CanonicalsOfLegal(envelopes, items);
      ok := volume.Persist(Document(REGISTRY_VERSION, items), fault);
    }

    /** List: newest first, equal times by ID. */
    method List() returns (out: seq<Envelope>)
      requires Valid()
      ensures IsListing(envelopes, out)
    {
      var items, keys := Keyed.Range(envelopes);
      Keyed.RangeLists(items, keys, envelopes, Key);
      ListingBySort(envelopes, items);
      out := Sorting.Sort(NewerFirst, items);
    }

    method CurrentAt(evaluatedAt: Time) returns (out: seq<Envelope>)
      requires Valid()
      ensures Sorting.Sorted(NewerFirst, out)
      ensures forall e :: e in out <==> e.id in envelopes && envelopes[e.id] == e && FreshAt(e, evaluatedAt)
    {
      hide Stored;
      var items := List();
      out := [];
      for i := 0 to |items|
        invariant Sorting.Sorted(NewerFirst, out)
        invariant forall e :: e in out <==> e in items[..i] && FreshAt(e, evaluatedAt)
      {
        ListingDistinct(envelopes, items, i);
        if FreshAt(items[i], evaluatedAt) {
          assert forall k :: 0 <= k < |out| ==> out[k] in items[..i];
          out := out + [items[i]];
        }
      }
      assert items[..|items|] == items;
    }

    method CountsAt(evaluatedAt: Time) returns (current: nat, stale: nat)
      requires Valid()
      ensures current == |FreshIds(envelopes, evaluatedAt)|
      ensures current + stale == |envelopes|
    {
      hide Stored, FreshAmong, IsListing, Legal, FreshAt, FreshIds;
      var items := List();
      current, stale := 0, 0;
      NoneAmong(envelopes, evaluatedAt);
      assert items[..0] == [];
      ghost var ids: set<string> := {};
      for i := 0 to |items|
        invariant current + stale == i && current == |ids|
        invariant FreshAmong(envelopes, items[..i], evaluatedAt, ids)
      {
        OneMoreAmong(envelopes, items, i, evaluatedAt, ids);
        if FreshAt(items[i], evaluatedAt) {
          current := current + 1;
          ids := ids + {items[i].id};
        } else {
          stale := stale + 1;
        }
      }
      ListingSize(envelopes, items);
      AllAmong(envelopes, items, evaluatedAt, ids);
    }
  }

  /** ids are those of the fresh envelopes of a part of the listing. */
  ghost predicate FreshAmong(m: Contents, part: seq<Envelope>, t: Time, ids: set<string>) {
    && (forall e :: e in part ==> (e.id in ids <==> FreshAt(e, t)))
    && (forall id :: id in ids ==> id in m && m[id] in part)
  }

  lemma NoneAmong(m: Contents, t: Time)
    ensures FreshAmong(m, [], t, {})
  {
  }

  lemma OneMoreAmong(m: Contents, items: seq<Envelope>, i: nat, t: Time, ids: set<string>)
    requires Legal(m) && IsListing(m, items) && i < |items| && FreshAmong(m, items[..i], t, ids)
    ensures items[i].id !in ids
    ensures FreshAmong(m, items[..i + 1], t, if FreshAt(items[i], t) then ids + {items[i].id} else ids)
  {
    ListingDistinct(m, items, i);
    var e := items[i];
    assert e in items && e.id in m && m[e.id] == e;
    hide Stored, FreshAt, NewerFirst, IsListing, Legal;
    var part, more := items[..i], items[..i + 1];
    assert e.id !in ids;
    if FreshAt(e, t) { OneMoreFresh(m, part, more, t, ids, e); } else { OneMoreStale(m, part, more, t, ids, e); }
  }

  lemma OneMoreFresh(m: Contents, part: seq<Envelope>, more: seq<Envelope>, t: Time, ids: set<string>, e: Envelope)
    requires FreshAmong(m, part, t, ids) && FreshAt(e, t) && e.id in m && m[e.id] == e
    requires forall x :: x in part ==> x.id != e.id
    requires forall x :: x in more <==> x in part || x == e
    ensures FreshAmong(m, more, t, ids + {e.id})
  {
    hide FreshAt;
  }

  lemma OneMoreStale(m: Contents, part: seq<Envelope>, more: seq<Envelope>, t: Time, ids: set<string>, e: Envelope)
    requires FreshAmong(m, part, t, ids) && !FreshAt(e, t) && e.id !in ids
    requires forall x :: x in more <==> x in part || x == e
    ensures FreshAmong(m, more, t, ids)
  {
    hide FreshAt;
  }

  lemma AllAmong(m: Contents, items: seq<Envelope>, t: Time, ids: set<string>)
    requires Legal(m) && IsListing(m, items) && FreshAmong(m, items[..|items|], t, ids)
    ensures ids == FreshIds(m, t)
  {
    hide Stored, FreshAt, NewerFirst;
    assert items[..|items|] == items;
    forall id ensures id in ids <==> id in FreshIds(m, t) {
      if id in m { assert m[id].id == id && m[id] in items; }
    }
  }

  ghost function FreshIds(m: Contents, t: Time): set<string> {
    set id | id in m && FreshAt(m[id], t)
  }

  // ---------- listing ----------

  /** The comparison List sorts by. */
  predicate NewerFirst(a: Envelope, b: Envelope) {
    if a.observedAt.Equal(b.observedAt) then Less(a.id, b.id) else a.observedAt.After(b.observedAt)
  }

  lemma NewerFirstIsOrder()
    ensures Sorting.IsStrictOrder(NewerFirst)
  {
    forall a ensures !NewerFirst(a, a) { LessIrreflexive(a.id); }
    forall a, b, c | NewerFirst(a, b) && NewerFirst(b, c) ensures NewerFirst(a, c) {
      if a.observedAt.Equal(b.observedAt) && b.observedAt.Equal(c.observedAt) { LessTransitive(a.id, b.id, c.id); }
    }
  }

  /** out is the registry's content, each envelope once, newest first. */
  ghost predicate IsListing(m: Contents, out: seq<Envelope>) {
    && Sorting.Sorted(NewerFirst, out)
    && forall e :: e in out <==> e.id in m && m[e.id] == e
  }

  lemma ListedOnce(m: Contents, items: seq<Envelope>)
    requires Keyed.Lists(items, m, Key)
    ensures forall e :: e in items <==> e.id in m && m[e.id] == e
  {
    forall e | e in items ensures e.id in m && m[e.id] == e {
      var i :| 0 <= i < |items| && items[i] == e;
      assert Key(items[i]) in m;
    }
  }

  lemma ListingBySort(m: Contents, items: seq<Envelope>)
    requires Keyed.Lists(items, m, Key)
    ensures IsListing(m, Sorting.Sort(NewerFirst, items))
  {
    NewerFirstIsOrder();
    forall i, j | 0 <= i < j < |items| ensures NewerFirst(items[i], items[j]) || NewerFirst(items[j], items[i]) {
      assert Key(items[i]) != Key(items[j]);
      LessTotal(items[i].id, items[j].id);
    }
    Sorting.SortSorts(NewerFirst, items);
    ListedOnce(m, items);
  }

  /** The listing is a function of the stored envelopes alone. */
  lemma ListingIsUnique(m: Contents, a: seq<Envelope>, b: seq<Envelope>)
    requires IsListing(m, a) && IsListing(m, b)
    ensures a == b
  {
    NewerFirstIsOrder();
    assert Sorting.SameElements(a, b);
    Sorting.SortedUnique(NewerFirst, a, b);
  }

  lemma ListingDistinct(m: Contents, out: seq<Envelope>, i: nat)
    requires IsListing(m, out) && i < |out|
    ensures forall e :: e in out[..i] ==> e.id != out[i].id && NewerFirst(e, out[i])
    ensures forall e :: e in out[..i + 1] <==> e in out[..i] || e == out[i]
  {
    NewerFirstIsOrder();
    forall e | e in out[..i] ensures e.id != out[i].id && NewerFirst(e, out[i]) {
      var j :| 0 <= j < i && out[j] == e;
      assert NewerFirst(out[j], out[i]);
      assert e in out && out[i] in out;
    }
  }

  lemma ListingSize(m: Contents, out: seq<Envelope>)
    requires IsListing(m, out)
    requires Legal(m)
    ensures |out| == |m|
  {
    forall i, j | 0 <= i < j < |out| ensures Key(out[i]) != Key(out[j]) {
      ListingDistinct(m, out, j);
      assert out[..j][i] == out[i];
    }
    forall i | 0 <= i < |out| ensures Key(out[i]) in m && m[Key(out[i])] == out[i] {
      assert out[i] in out;
    }
    Keyed.ListsSize(out, m, Key);
  }

  /** A sorted list of stored envelopes has as many envelopes as ids. */
  lemma {:induction false} SortedIds(m: Contents, s: seq<Envelope>) returns (ids: set<string>)
    requires Legal(m) && Sorting.Sorted(NewerFirst, s)
    requires forall e :: e in s ==> e.id in m && m[e.id] == e
    ensures |ids| == |s|
    ensures forall id :: id in ids <==> id in m && m[id] in s
  {
    hide Stored;
    ids := {};
    if s != [] {
      var front, last := s[..|s| - 1], s[|s| - 1];
      assert s == front + [last];
      var before := SortedIds(m, front);
      NotAmong(front, last);
      ids := before + {last.id};
    }
  }

  lemma NotAmong(front: seq<Envelope>, last: Envelope)
    requires Sorting.Sorted(NewerFirst, front + [last])
    ensures last !in front
  {
    NewerFirstIsOrder();
    hide NewerFirst;
    forall j | 0 <= j < |front| ensures front[j] != last {
      assert NewerFirst((front + [last])[j], (front + [last])[|front|]);
    }
  }

  // ---------- loading ----------

  /** The load loop from one position on: the first bad or repeated envelope stops it. */
  function LoadFrom(rest: seq<Envelope>, acc: Contents, now: Time): Result<Contents, LoadError> {
    if rest == [] then Ok(acc)
    else match Normalize(rest[0], now, false)
      case Err(why) => Err(BadEnvelope(why))
      case Ok(c) => if c.id in acc then Err(DuplicateId) else LoadFrom(rest[1..], acc[c.id := c], now)
  }

  function Loaded(file: Content<Document>, now: Time): Result<Contents, LoadError> {
    match file
    case Missing => Ok(map[])
    case Blank => Ok(map[])
    case Malformed => Err(NotJson)
    case Holds(doc) => if doc.version != REGISTRY_VERSION then Err(ForeignVersion) else LoadFrom(doc.envelopes, map[], now)
  }

  /** A load that fails does so at the first entry that cannot follow the ones before it: one
      that is rejected, or else one whose ID is taken. */
  lemma {:induction false} LoadStopsAtFirst(rest: seq<Envelope>, acc: Contents, now: Time) returns (i: nat)
    requires LoadFrom(rest, acc, now).Err?
    ensures i < |rest| && LoadFrom(rest[..i], acc, now).Ok?
    ensures match Normalize(rest[i], now, false)
            case Err(why) => LoadFrom(rest, acc, now) == Err(BadEnvelope(why))
            case Ok(c) => c.id in LoadFrom(rest[..i], acc, now).value && LoadFrom(rest, acc, now) == Err(DuplicateId)
  {
    hide Normalize;
    i := 0;
    var first := Normalize(rest[0], now, false);
    if first.Ok? && first.value.id !in acc {
      i := LoadStopsAtFirst(rest[1..], acc[first.value.id := first.value], now);
      assert rest[..i + 1][1..] == rest[1..][..i];
      i := i + 1;
    }
  }

  lemma {:induction false} LoadNeverForeign(rest: seq<Envelope>, acc: Contents, now: Time)
    ensures LoadFrom(rest, acc, now) != Err(ForeignVersion)
  {
    hide Normalize;
    if rest != [] && Normalize(rest[0], now, false).Ok? {
      var c := Normalize(rest[0], now, false).value;
      LoadNeverForeign(rest[1..], acc[c.id := c], now);
    }
  }

  /** A file is turned away for its version exactly when it has another than the one written. */
  lemma ForeignVersionMeans(file: Content<Document>, now: Time)
    ensures Loaded(file, now) == Err(ForeignVersion) <==> file.Holds? && file.doc.version != "mesh.evidence-registry.v1"
  {
    if file.Holds? { LoadNeverForeign(file.doc.envelopes, map[], now); }
    hide LoadFrom;
  }

  /** NewPersistentEvidenceEnvelopeRegistry on a non-empty path. */
  method Load(file: Content<Document>, readable: bool, now: Time) returns (r: Result<Contents, LoadError>)
    ensures r == if !readable && !file.Missing? then Err(Unreadable) else Loaded(file, now)
    ensures r.Ok? ==> Legal(r.value) && InSync(file, r.value)
  {
    LoadedIsInSync(file, now);
    hide Normalize, Stored, InSync;
    if file.Missing? {
      return Ok(map[]);
    }
    if !readable {
      return Err(Unreadable);
    }
    if file.Blank? {
      return Ok(map[]);
    }
    if file.Malformed? {
      return Err(NotJson);
    }
    var doc := file.doc;
    if doc.version != REGISTRY_VERSION {
      return Err(ForeignVersion);
    }
    var acc: Contents := map[];
    for i := 0 to |doc.envelopes|
      invariant Legal(acc)
      invariant LoadFrom(doc.envelopes[i..], acc, now) == LoadFrom(doc.envelopes, map[], now)
    {
      assert doc.envelopes[i..][0] == doc.envelopes[i] && doc.envelopes[i..][1..] == doc.envelopes[i + 1..];
      var validated := Normalize(doc.envelopes[i], now, false);
      if validated.Err? {
        return Err(BadEnvelope(validated.error));
      }
      NormalizeIsStable(doc.envelopes[i], now, now, false);
      if validated.value.id in acc {
        return Err(DuplicateId);
      }
      acc := acc[validated.value.id := validated.value];
    }
    assert doc.envelopes[|doc.envelopes|..] == [];
    return Ok(acc);
  }

  ghost predicate ObservedBy(items: seq<Envelope>, now: Time) {
    forall e :: e in items ==> e.observedAt.instant <= now.instant
  }

  /** Acceptable in stored mode but for the clock, without a repeated ID. */
  ghost predicate Loadable(items: seq<Envelope>, acc: Contents) {
    && (forall e :: e in items ==> WellFormed(Canonical(e)) && Canonical(e).id !in acc)
    && Keyed.DistinctKeys(Canonicals(items), Key)
  }

  lemma LoadStep(rest: seq<Envelope>, acc: Contents, now: Time)
    requires rest != []
    ensures var c := Canonical(rest[0]);
            LoadFrom(rest, acc, now).Ok? ==>
              && WellFormed(c) && c.id !in acc && rest[0].observedAt.instant <= now.instant
              && LoadFrom(rest, acc, now) == LoadFrom(rest[1..], acc[c.id := c], now)
    ensures var c := Canonical(rest[0]);
            WellFormed(c) && c.id !in acc && rest[0].observedAt.instant <= now.instant ==>
              LoadFrom(rest, acc, now) == LoadFrom(rest[1..], acc[c.id := c], now)
  {
    NormalizeMeaning(rest[0], now, false);
    hide Normalize, WellFormed, Canonical;
  }

  lemma CanonicalsTail(rest: seq<Envelope>)
    requires rest != []
    ensures Canonicals(rest) == [Canonical(rest[0])] + Canonicals(rest[1..])
    ensures Canonicals(rest)[1..] == Canonicals(rest[1..])
    ensures forall e :: e in rest[1..] ==> Canonical(e) in Canonicals(rest[1..])
  {
    hide Canonical;
    var tail := rest[1..];
    forall e | e in tail ensures Canonical(e) in Canonicals(tail) {
      var i :| 0 <= i < |tail| && tail[i] == e;
      assert Canonicals(tail)[i] == Canonical(e);
    }
  }

  lemma LoadableTail(rest: seq<Envelope>, acc: Contents)
    requires rest != [] && Loadable(rest, acc)
    ensures var c := Canonical(rest[0]);
            && WellFormed(c) && c.id !in acc && Loadable(rest[1..], acc[c.id := c])
            && acc[c.id := c] + Keyed.MapOf(Canonicals(rest[1..]), Key) == acc + Keyed.MapOf(Canonicals(rest), Key)
  {
    hide WellFormed, Canonical, Keyed.MapOf, Canonicals;
    CanonicalsTail(rest);
    assert forall x :: x in rest <==> x == rest[0] || x in rest[1..];
    Keyed.DistinctTail(Canonicals(rest), Key);
    Keyed.MapOfHead(Canonicals(rest), Key);
  }

  lemma LoadableCons(rest: seq<Envelope>, acc: Contents)
    requires rest != []
    requires var c := Canonical(rest[0]); WellFormed(c) && c.id !in acc && Loadable(rest[1..], acc[c.id := c])
    ensures Loadable(rest, acc)
  {
    hide WellFormed, Canonical;
    var all, tail := Canonicals(rest), rest[1..];
    assert forall x :: x in rest <==> x == rest[0] || x in tail;
    forall i, j | 0 <= i < j < |all| ensures Key(all[i]) != Key(all[j]) {
      assert all[j] == Canonical(tail[j - 1]) && tail[j - 1] in tail;
      if i > 0 { assert all[i] == Canonicals(tail)[i - 1] && all[j] == Canonicals(tail)[j - 1]; }
    }
  }

  /** The load loop succeeds exactly on loadable lists observed by now, whose map it gives. */
  lemma {:induction false} LoadFromMeaning(rest: seq<Envelope>, acc: Contents, now: Time)
    ensures LoadFrom(rest, acc, now).Ok? <==> Loadable(rest, acc) && ObservedBy(rest, now)
    ensures LoadFrom(rest, acc, now).Ok? ==> LoadFrom(rest, acc, now).value == acc + Keyed.MapOf(Canonicals(rest), Key)
  {
    hide WellFormed, Canonical, Normalize;
    if rest == [] {
      assert acc + map[] == acc;
    } else {
      var c := Canonical(rest[0]);
      LoadStep(rest, acc, now);
      LoadFromMeaning(rest[1..], acc[c.id := c], now);
      if Loadable(rest, acc) { LoadableTail(rest, acc); }
      if WellFormed(c) && c.id !in acc && Loadable(rest[1..], acc[c.id := c]) { LoadableCons(rest, acc); }
      hide LoadFrom, Loadable, Keyed.MapOf;
      assert forall x :: x in rest <==> x == rest[0] || x in rest[1..];
    }
  }

  /** Whatever loads is legal, and is what the file stands for. */
  lemma LoadedIsInSync(file: Content<Document>, now: Time)
    ensures Loaded(file, now).Ok? ==> Legal(Loaded(file, now).value) && InSync(file, Loaded(file, now).value)
  {
    hide WellFormed, Tidy, Canonical, LoadFrom;
    if file.Holds? && Loaded(file, now).Ok? {
      var items := Canonicals(file.doc.envelopes);
      LoadFromMeaning(file.doc.envelopes, map[], now);
      Keyed.MapOfContents(items, Key);
      var m := Keyed.MapOf(items, Key);
      assert map[] + m == m;
      forall id | id in m ensures m[id].id == id && Stored(m[id]) {
        assert Key(m[id]) == id && m[id] in items;
        var i :| 0 <= i < |items| && items[i] == m[id];
        assert file.doc.envelopes[i] in file.doc.envelopes;
        CanonicalIsTidy(file.doc.envelopes[i]);
      }
    }
  }

  /** Restart: a file in step with a legal map loads at exactly the instants that are not
      before any stored observation, whatever has expired and in whatever order the map
      was written, and gives back that very map. */
  lemma RestartIsTransparent(file: Content<Document>, m: Contents, now: Time)
    requires Legal(m) && InSync(file, m)
    ensures Loaded(file, now).Ok? <==> forall id :: id in m ==> m[id].observedAt.instant <= now.instant
    ensures Loaded(file, now).Ok? ==> Loaded(file, now).value == m
  {
    hide WellFormed, Tidy, Canonical, LoadFrom;
    if file.Holds? {
      var raw, items := file.doc.envelopes, Canonicals(file.doc.envelopes);
      LoadFromMeaning(raw, map[], now);
      Keyed.ListsGivesMap(items, m, Key);
      assert map[] + m == m;
      ListedOnce(m, items);
      assert forall i :: 0 <= i < |raw| ==> items[i] == Canonical(raw[i]);
      forall e | e in raw ensures WellFormed(Canonical(e)) && Canonical(e) in items {
        var i :| 0 <= i < |raw| && raw[i] == e;
        assert items[i] in items;
      }
      SameInstants(raw, now);
      forall id | id in m ensures m[id] in items {}
    }
  }

  lemma SameInstants(raw: seq<Envelope>, now: Time)
    ensures ObservedBy(raw, now) <==> ObservedBy(Canonicals(raw), now)
  {
    hide TrimSpace;
    var items := Canonicals(raw);
    assert forall i :: 0 <= i < |raw| ==> items[i].observedAt.instant == raw[i].observedAt.instant;
    if ObservedBy(raw, now) {
      forall e | e in items ensures e.observedAt.instant <= now.instant {
        var i :| 0 <= i < |items| && items[i] == e;
        assert raw[i] in raw;
      }
    }
    if ObservedBy(items, now) {
      forall e | e in raw ensures e.observedAt.instant <= now.instant {
        var i :| 0 <= i < |raw| && raw[i] == e;
        assert items[i] in items;
      }
    }
  }

  /** A call records something new exactly when the one spelling of its envelope is well
      formed, was observed by now, is not past its deadline, has a free ID, and is written;
      then it is added, and every other call leaves the map alone. */
  lemma RecordsExactly(m: Contents, v: Envelope, t: Time, persisted: bool)
    ensures var c := Canonical(v);
            var (after, r) := Outcome(m, v, t, persisted);
            var isNew := WellFormed(c) && c.observedAt.instant <= t.instant <= c.validUntil.instant && c.id !in m;
            && (r == Ok(Recorded(c, false)) <==> isNew && persisted)
            && (r.Ok? && !r.value.replayed ==> r.value.envelope == c)
            && (r == Err(NotPersisted) <==> isNew && !persisted)
            && after == (if isNew && persisted then m[c.id := c] else m)
  {
    NormalizeMeaning(v, t, true);
    hide Normalize, WellFormed, TrimSpace;
  }

  /** Replay: once an envelope is held, a record call answers "replayed" exactly for the
      inputs that have the same one spelling and arrive within the validity window; they
      may differ from the first input in white space and in time zone. */
  lemma ReplayExactly(m: Contents, held: Envelope, w: Envelope, t: Time, persisted: bool)
    requires held.id in m && m[held.id] == held
    ensures Legal(m) ==>
              (Outcome(m, w, t, persisted).1 == Ok(Recorded(held, true)) <==>
               && Canonical(w) == held
               && held.observedAt.instant <= t.instant <= held.validUntil.instant)
    ensures Canonical(w).id == held.id && Canonical(w) != held ==> Outcome(m, w, t, persisted).1.Err?
    ensures Canonical(w).id == held.id ==> Outcome(m, w, t, persisted).0 == m
  {
    NormalizeMeaning(w, t, true);
    hide Normalize, WellFormed, Tidy, TrimSpace;
  }
}
