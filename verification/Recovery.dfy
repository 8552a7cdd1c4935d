/** Everkeep recovery evidence: one entry for each dimension, rolled back when the write
    fails, and the readiness gate over all five dimensions. */
module Recovery {
  import opened Wrappers
  import opened Text
  import opened GoTime
  import opened Disk
  import Keyed
  import Sorting

  datatype Dimension = BackupCoverage | Documentation | Portability | Provenance | RestoreCapability | OtherDimension(name: string)

  datatype Condition = Validated | Degraded | Unknown | OtherCondition(name: string)

  datatype Evidence = Evidence(
    dimension: Dimension,
    state: Condition,
    source: string,
    revision: string,
    observedAt: Time,
    validUntil: Time)

  datatype Refusal = BadDimension | BadState | SourceMissing | RevisionInexact | TimesMissing | FutureDated | DeadlineNotForward

  datatype RecordError = Refused(why: Refusal) | NotPersisted

  /** RequiredRecoveryDimensions, sorted by name. */
  const REQUIRED: seq<Dimension> := [BackupCoverage, Documentation, Portability, Provenance, RestoreCapability]

  /** RecoveryEvidence.Validate: nothing is rewritten, so there is only a verdict. */
  function Problem(e: Evidence, at: Time): Option<Refusal> {
    if e.dimension !in REQUIRED then Some(BadDimension)
    else if e.state.OtherCondition? then Some(BadState)
    else if TrimSpace(e.source) == "" then Some(SourceMissing)
    else if !IsFullGitRevision(e.revision) then Some(RevisionInexact)
    else if e.observedAt.IsZero() || e.validUntil.IsZero() then Some(TimesMissing)
    else if e.observedAt.After(at) then Some(FutureDated)
    else if !e.validUntil.After(e.observedAt) then Some(DeadlineNotForward)
    else None
  }

  /** What no clock changes: a known dimension and state, a source that is not blank, an exact
      revision of 40 hexadecimal digits, and a deadline after the observation. */
  ghost predicate Sound(e: Evidence) {
    && e.dimension in [BackupCoverage, Documentation, Portability, Provenance, RestoreCapability]
    && e.state in [Validated, Degraded, Unknown]
    && TrimSpace(e.source) != "" && HexDigits(e.revision, 40)
    && 0 !in [e.observedAt.instant, e.validUntil.instant] && e.observedAt.instant < e.validUntil.instant
  }

  lemma RequiredIsAll(d: Dimension)
    ensures d in REQUIRED <==> d in [BackupCoverage, Documentation, Portability, Provenance, RestoreCapability]
  {
  }

  lemma VerdictMeaning(e: Evidence, at: Time)
    ensures Problem(e, at).None? <==> Sound(e) && e.observedAt.instant <= at.instant
  {
    RequiredIsAll(e.dimension);
    PatternsMean(e.revision);
    hide TrimSpace, IsFullGitRevision, HexDigits, REQUIRED;
  }

  // ---------- which refusal ----------

  /** What is wrong when a refusal applies. */
  ghost predicate Ground(e: Evidence, at: Time, why: Refusal) {
    match why
    case BadDimension => e.dimension !in [BackupCoverage, Documentation, Portability, Provenance, RestoreCapability]
    case BadState => e.state !in [Validated, Degraded, Unknown]
    case SourceMissing => TrimSpace(e.source) == ""
    case RevisionInexact => !HexDigits(e.revision, 40)
    case TimesMissing => 0 in [e.observedAt.instant, e.validUntil.instant]
    case FutureDated => at.instant < e.observedAt.instant
    case DeadlineNotForward => e.validUntil.instant <= e.observedAt.instant
  }

  /** The order in which the grounds are looked for. */
  ghost function Rank(why: Refusal): nat {
    match why
    case BadDimension => 1 case BadState => 2 case SourceMissing => 3 case RevisionInexact => 4
    case TimesMissing => 5 case FutureDated => 6 case DeadlineNotForward => 7
  }

  /** The refusal names the first ground; without a refusal there is none. */
  lemma RefusedByFirstGround(e: Evidence, at: Time, other: Refusal)
    ensures Problem(e, at).Some? ==>
              var why := Problem(e, at).value;
              Ground(e, at, why) && (Rank(other) < Rank(why) ==> !Ground(e, at, other))
    ensures Problem(e, at).None? ==> !Ground(e, at, other)
  {
    RequiredIsAll(e.dimension);
    PatternsMean(e.revision);
    hide TrimSpace, IsFullGitRevision, HexDigits, REQUIRED;
  }

  // ---------- readiness ----------

  /** The entry opens its dimension's gate at the instant: the deadline itself is too late. */
  predicate Serves(e: Evidence, at: Time) {
    Problem(e, at).None? && e.state.Validated? && e.validUntil.After(at)
  }

  lemma ServesMeans(e: Evidence, at: Time)
    ensures Serves(e, at) <==> Sound(e) && e.state == Validated && e.observedAt.instant <= at.instant < e.validUntil.instant
  {
    VerdictMeaning(e, at);
    hide Problem, Sound;
  }

  /** Some item opens the gate of the dimension. */
  ghost predicate ServedBy(items: seq<Evidence>, d: Dimension, at: Time) {
    exists e :: e in items && e.dimension == d && Serves(e, at)
  }

  /** RecoveryReady */
  method RecoveryReady(items: seq<Evidence>, at: Time) returns (ready: bool)
    ensures ready <==> forall k :: 0 <= k < |REQUIRED| ==> ServedBy(items, REQUIRED[k], at)
  {
    hide Serves, ServedBy;
    NobodyServes(at);
    var required: map<Dimension, bool> := map[];
    for i := 0 to |REQUIRED|
      invariant forall d :: d in required <==> d in REQUIRED[..i]
      invariant forall d :: d in required ==> !required[d]
    {
      assert REQUIRED[..i + 1] == REQUIRED[..i] + [REQUIRED[i]];
      required := required[REQUIRED[i] := false];
    }
    assert REQUIRED[..|REQUIRED|] == REQUIRED;
    for i := 0 to |items|
      invariant required.Keys == set d | d in REQUIRED
      invariant forall d :: d in required ==> (required[d] <==> ServedBy(items[..i], d, at))
    {
      var item := items[i];
      assert items[..i + 1] == items[..i] + [item];
      forall d ensures ServedBy(items[..i + 1], d, at) <==> ServedBy(items[..i], d, at) || (item.dimension == d && Serves(item, at)) {
        ServedByOneMore(items[..i], item, d, at);
      }
      ServingIsRequired(item, at);
      if !Serves(item, at) {
        continue;
      }
      required := required[item.dimension := true];
    }
    assert items[..|items|] == items;
    ready := true;
    for i := 0 to |REQUIRED|
      invariant ready <==> forall k :: 0 <= k < i ==> required[REQUIRED[k]]
    {
      if !required[REQUIRED[i]] {
        ready := false;
      }
    }
    assert forall k :: 0 <= k < |REQUIRED| ==> REQUIRED[k] in required;
  }

  lemma NobodyServes(at: Time)
    ensures forall d :: !ServedBy([], d, at)
  {
  }

  lemma ServedByOneMore(items: seq<Evidence>, item: Evidence, d: Dimension, at: Time)
    ensures ServedBy(items + [item], d, at) <==> ServedBy(items, d, at) || (item.dimension == d && Serves(item, at))
  {
    hide Serves;
    assert forall e :: e in items + [item] <==> e in items || e == item;
  }

  lemma ServingIsRequired(e: Evidence, at: Time)
    ensures Serves(e, at) ==> e.dimension in REQUIRED
  {
    ServesMeans(e, at);
    SoundIsRequired(e);
    hide Serves, Sound;
  }

  // ---------- the registry ----------

  type Contents = map<Dimension, Evidence>

  function Key(e: Evidence): Dimension { e.dimension }

  ghost predicate Legal(m: Contents) {
    forall d :: d in m ==> m[d].dimension == d && Sound(m[d])
  }

  ghost predicate ObservedBy(m: Contents, at: Time) {
    forall d :: d in m ==> m[d].observedAt.instant <= at.instant
  }

  ghost predicate InSync(file: Content<seq<Evidence>>, m: Contents) {
    match file
    case Missing => m == map[]
    case Blank => m == map[]
    case Malformed => false
    case Holds(items) => Keyed.Lists(items, m, Key)
  }

  datatype LoadError = Unreadable | NotJson | DuplicateDimension | BadEvidence(why: Refusal)

  function LoadFrom(rest: seq<Evidence>, acc: Contents, at: Time): Result<Contents, LoadError> {
    if rest == [] then Ok(acc)
    else if rest[0].dimension in acc then Err(DuplicateDimension)
    else if Problem(rest[0], at).Some? then Err(BadEvidence(Problem(rest[0], at).value))
    else LoadFrom(rest[1..], acc[rest[0].dimension := rest[0]], at)
  }

  function Loaded(file: Content<seq<Evidence>>, at: Time): Result<Contents, LoadError> {
    match file
    case Missing => Ok(map[])
    case Blank => Ok(map[])
    case Malformed => Err(NotJson)
    case Holds(items) => LoadFrom(items, map[], at)
  }

  /** NewPersistentRecoveryRegistry on a non-empty path: what loads is what the file lists. */
  method Load(file: Content<seq<Evidence>>, readable: bool, at: Time) returns (r: Result<Contents, LoadError>)
    ensures r == if !readable && !file.Missing? then Err(Unreadable) else Loaded(file, at)
    ensures r.Ok? ==> Legal(r.value) && ObservedBy(r.value, at) && InSync(file, r.value)
  {
    hide Problem, Sound;
    if file.Missing? {
      return Ok(map[]);
    }
    if !readable {
      return Err(Unreadable);
    }
    if file.Blank? {
      return Ok(map[]);
    }
    if file.Malformed? {
      return Err(NotJson);
    }
    var items := file.doc;
    var seen: set<Dimension> := {};
    var acc: Contents := map[];
    for i := 0 to |items|
      invariant seen == acc.Keys && Legal(acc) && ObservedBy(acc, at) && Keyed.Lists(items[..i], acc, Key)
      invariant LoadFrom(items[i..], acc, at) == LoadFrom(items, map[], at)
    {
      assert items[i..][0] == items[i] && items[i..][1..] == items[i + 1..];
      if items[i].dimension in seen {
        return Err(DuplicateDimension);
      }
      seen := seen + {items[i].dimension};
      var problem := Problem(items[i], at);
      if problem.Some? {
        return Err(BadEvidence(problem.value));
      }
      VerdictMeaning(items[i], at);
      assert items[..i + 1] == items[..i] + [items[i]];
      OneMoreListed(items[..i], items[i], acc);
      acc := acc[items[i].dimension := items[i]];
    }
    assert items[|items|..] == [] && items[..|items|] == items;
    return Ok(acc);
  }

  lemma OneMoreListed(items: seq<Evidence>, e: Evidence, m: Contents)
    requires Keyed.Lists(items, m, Key) && e.dimension !in m
    ensures Keyed.Lists(items + [e], m[e.dimension := e], Key)
  {
    var all, after := items + [e], m[e.dimension := e];
    forall d | d in after ensures Key(after[d]) == d && after[d] in all {
      if d != e.dimension { assert m[d] in items; } else { assert all[|items|] == e; }
    }
    forall i | 0 <= i < |all| ensures Key(all[i]) in after && after[Key(all[i])] == all[i] {
      if i < |items| { assert Key(items[i]) in m; }
    }
  }

  /** A load that fails does so at the first entry that cannot follow the ones before it: one
      whose dimension was there already, or else one that is refused. */
  lemma {:induction false} LoadStopsAtFirst(rest: seq<Evidence>, acc: Contents, at: Time) returns (i: nat)
    requires LoadFrom(rest, acc, at).Err?
    ensures i < |rest| && LoadFrom(rest[..i], acc, at).Ok?
    ensures if rest[i].dimension in LoadFrom(rest[..i], acc, at).value then LoadFrom(rest, acc, at) == Err(DuplicateDimension)
            else Problem(rest[i], at).Some? && LoadFrom(rest, acc, at) == Err(BadEvidence(Problem(rest[i], at).value))
  {
    hide Problem;
    i := 0;
    if rest[0].dimension !in acc && Problem(rest[0], at).None? {
      i := LoadStopsAtFirst(rest[1..], acc[rest[0].dimension := rest[0]], at);
      assert rest[..i + 1][1..] == rest[1..][..i];
      i := i + 1;
    }
  }

  lemma {:induction false} LoadFromSound(rest: seq<Evidence>, acc: Contents, at: Time)
    requires forall e :: e in rest ==> Sound(e) && e.dimension !in acc
    requires Keyed.DistinctKeys(rest, Key)
    ensures LoadFrom(rest, acc, at).Ok? <==> forall e :: e in rest ==> e.observedAt.instant <= at.instant
    ensures LoadFrom(rest, acc, at).Ok? ==> LoadFrom(rest, acc, at).value == acc + Keyed.MapOf(rest, Key)
  {
    hide Problem, Sound;
    if rest == [] {
      assert acc + map[] == acc;
    } else {
      VerdictMeaning(rest[0], at);
      Keyed.LoadRound(rest, acc, Key);
      hide Keyed.MapOf, Keyed.DistinctKeys;
      LoadFromSound(rest[1..], acc[rest[0].dimension := rest[0]], at);
    }
  }

  /** A restart succeeds exactly at the instants not before any observation, and gives back
      the very map, lapsed entries included. */
  lemma RestartExactly(file: Content<seq<Evidence>>, m: Contents, at: Time)
    requires Legal(m) && InSync(file, m)
    ensures Loaded(file, at).Ok? <==> ObservedBy(m, at)
    ensures Loaded(file, at).Ok? ==> Loaded(file, at).value == m
  {
    hide Sound, LoadFrom;
    if file.Holds? {
      var items := file.doc;
      forall e | e in items ensures Sound(e) && e.dimension in m && m[e.dimension] == e {
        var i :| 0 <= i < |items| && items[i] == e;
        assert Key(items[i]) in m;
      }
      LoadFromSound(items, map[], at);
      Keyed.ListsGivesMap(items, m, Key);
      assert map[] + m == m;
      forall d | d in m ensures m[d] in items {}
    }
  }

  lemma NothingCollected(m: Contents)
    ensures Keyed.Collected([], m, REQUIRED[..0], Key)
  {
  }

  lemma OneMoreKey(i: nat)
    requires i < |REQUIRED|
    ensures REQUIRED[..i + 1] == REQUIRED[..i] + [REQUIRED[i]] && REQUIRED[i] !in REQUIRED[..i]
  {
  }

  class Registry {
    const path: string
    const volume: Volume<seq<Evidence>>
    var evidence: Contents

    ghost predicate Valid()
      reads this, volume
    {
      Legal(evidence) && (path != "" ==> InSync(volume.file, evidence))
    }

    constructor (path: string, volume: Volume<seq<Evidence>>, loaded: Contents)
      requires Legal(loaded) && (path != "" ==> InSync(volume.file, loaded))
      ensures Valid() && this.path == path && this.volume == volume && evidence == loaded
    {
      this.path, this.volume, evidence := path, volume, loaded;
    }

    /** Record: a failed write restores the entry that was there, or its absence. */
    method Record(e: Evidence, at: Time, fault: Fault<seq<Evidence>>) returns (r: Result<Evidence, RecordError>)
      requires Valid()
      modifies this`evidence, volume
      ensures Valid()
      ensures r == if Problem(e, at).Some? then Err(Refused(Problem(e, at).value))
                   else if path == "" || fault.NoFault? then Ok(e) else Err(NotPersisted)
      ensures r.Ok? <==> Sound(e) && e.observedAt.instant <= at.instant && (path == "" || fault.NoFault?)
      ensures evidence == if r.Ok? then old(evidence)[e.dimension := e] else old(evidence)
      ensures r.Err? ==> volume.file == old(volume.file)
    {
      hide Problem, Sound;
      VerdictMeaning(e, at);
      var problem := Problem(e, at);
      if problem.Some? {
        return Err(Refused(problem.value));
      }
      ghost var before := evidence;
      var existed := e.dimension in evidence;
      var previous := if existed then evidence[e.dimension] else e;
      evidence := evidence[e.dimension := e];
      var ok := PersistLocked(fault);
      if !ok {
        if existed {
          evidence := evidence[e.dimension := previous];
        } else {
          evidence := evidence - {e.dimension};
        }
        assert evidence == before;
        return Err(NotPersisted);
      }
      return Ok(e);
    }

    method PersistLocked(fault: Fault<seq<Evidence>>) returns (ok: bool)
      requires Legal(evidence)
      modifies volume
      ensures ok == (path == "" || fault.NoFault?)
      ensures path == "" || !ok ==> volume.file == old(volume.file)
      ensures path != "" && ok ==> InSync(volume.file, evidence)
    {
      hide Sound, Keyed.Collected;
      if path == "" {
        return true;
      }
      NothingCollected(evidence);
      var items: seq<Evidence> := [];
      for i := 0 to |REQUIRED|
        invariant Keyed.Collected(items, evidence, REQUIRED[..i], Key)
        invariant volume.file == old(volume.file)
      {
        OneMoreKey(i);
        Keyed.CollectOne(items, evidence, REQUIRED[..i], REQUIRED[i], Key);
        if REQUIRED[i] in evidence {
          items := items + [evidence[REQUIRED[i]]];
        }
      }
      assert REQUIRED[..|REQUIRED|] == REQUIRED;
      forall d | d in evidence ensures d in REQUIRED { SoundIsRequired(evidence[d]); }
      Keyed.CollectedAll(items, evidence, REQUIRED, Key);
      ok := volume.Persist(items, fault);
    }

    /** List: every entry once, by the name of its dimension. */
    method List() returns (out: seq<Evidence>)
      requires Valid()
      ensures Sorting.Sorted(ByName, out)
      ensures forall e :: e in out <==> e.dimension in evidence && evidence[e.dimension] == e
    {
      hide Sound;
      var items, keys := Keyed.Range(evidence);
      Keyed.RangeLists(items, keys, evidence, Key);
      SortEntries(items, evidence);
      out := Sorting.Sort(ByName, items);
    }

    /** Ready: the gate over the listed entries. */
    method Ready(at: Time) returns (ready: bool)
      requires Valid()
      ensures ready <==> IsReady(evidence, at)
      ensures ready <==> forall d :: d in [BackupCoverage, Documentation, Portability, Provenance, RestoreCapability] ==>
                           && d in evidence && evidence[d].state == Validated
                           && evidence[d].observedAt.instant <= at.instant < evidence[d].validUntil.instant
    {
      ReadyMeans(evidence, at);
      hide Sound, Serves, ByName;
      var items := List();
      ready := RecoveryReady(items, at);
      forall k | 0 <= k < |REQUIRED|
        ensures ServedBy(items, REQUIRED[k], at) <==> REQUIRED[k] in evidence && Serves(evidence[REQUIRED[k]], at)
      {
        if REQUIRED[k] in evidence { assert evidence[REQUIRED[k]].dimension == REQUIRED[k] && evidence[REQUIRED[k]] in items; }
      }
    }
  }

  /** The dimension as text, the sort key of the list. */
  function Name(d: Dimension): string {
    match d
    case BackupCoverage => "backup_coverage"
    case Documentation => "documentation"
    case Portability => "portability"
    case Provenance => "provenance"
    case RestoreCapability => "restore_capability"
    case OtherDimension(name) => name
  }

  predicate ByName(a: Evidence, b: Evidence) {
    Less(Name(a.dimension), Name(b.dimension))
  }

  lemma NamesDiffer(a: Dimension, b: Dimension)
    requires !a.OtherDimension? && !b.OtherDimension? && a != b
    ensures Name(a) != Name(b)
  {
    assert |Name(a)| != |Name(b)|;
  }

  lemma SortEntries(items: seq<Evidence>, m: Contents)
    requires Legal(m) && Keyed.Lists(items, m, Key)
    ensures Sorting.Sorted(ByName, Sorting.Sort(ByName, items))
    ensures forall e :: e in Sorting.Sort(ByName, items) <==> e.dimension in m && m[e.dimension] == e
  {
    hide Name, Sound;
    forall s ensures !Less(s, s) { LessIrreflexive(s); }
    forall s, t, u | Less(s, t) && Less(t, u) ensures Less(s, u) { LessTransitive(s, t, u); }
    forall i, j | 0 <= i < j < |items| ensures ByName(items[i], items[j]) || ByName(items[j], items[i]) {
      var a, b := items[i], items[j];
      assert Key(a) != Key(b) && Key(a) in m && Key(b) in m;
      SoundIsRequired(m[Key(a)]);
      SoundIsRequired(m[Key(b)]);
      NamesDiffer(a.dimension, b.dimension);
      LessTotal(Name(a.dimension), Name(b.dimension));
    }
    Sorting.SortSorts(ByName, items);
    forall e | e in items ensures e.dimension in m && m[e.dimension] == e {
      var i :| 0 <= i < |items| && items[i] == e;
      assert Key(items[i]) in m;
    }
  }

  lemma SoundIsRequired(e: Evidence)
    ensures Sound(e) ==> e.dimension in REQUIRED
  {
    RequiredIsAll(e.dimension);
    hide REQUIRED, HexDigits, TrimSpace;
  }

  /** The gate over the map. */
  ghost predicate IsReady(m: Contents, at: Time) {
    forall k :: 0 <= k < |REQUIRED| ==> REQUIRED[k] in m && Serves(m[REQUIRED[k]], at)
  }

  lemma ReadyMeans(m: Contents, at: Time)
    requires Legal(m)
    ensures IsReady(m, at) <==>
              forall d :: d in [BackupCoverage, Documentation, Portability, Provenance, RestoreCapability] ==>
                d in m && m[d].state == Validated && m[d].observedAt.instant <= at.instant < m[d].validUntil.instant
  {
    forall d | d in m ensures Serves(m[d], at) <==> m[d].state == Validated && m[d].observedAt.instant <= at.instant < m[d].validUntil.instant {
      ServesMeans(m[d], at);
    }
    forall d { RequiredIsAll(d); }
    hide Sound, Serves, REQUIRED;
    assert IsReady(m, at) <==> forall d :: d in REQUIRED ==> d in m && Serves(m[d], at);
  }

  /** The names of the required dimensions, which are in order, so the list of entries follows
      the list of dimensions. */
  lemma RequiredIsSorted(i: nat, j: nat)
    requires i < j < |REQUIRED|
    ensures Name(REQUIRED[i]) == ["backup_coverage", "documentation", "portability", "provenance", "restore_capability"][i]
    ensures Name(REQUIRED[j]) == ["backup_coverage", "documentation", "portability", "provenance", "restore_capability"][j]
    ensures Less(Name(REQUIRED[i]), Name(REQUIRED[j]))
  {
    var a, b := Name(REQUIRED[i]), Name(REQUIRED[j]);
    if i == 2 && j == 3 {
      assert a[0] == b[0] && a[1..][0] == 'o' && b[1..][0] == 'r';
    } else {
      assert a[0] == (match i case 0 => 'b' case 1 => 'd' case _ => 'p');
      assert b[0] == (match j case 1 => 'd' case 4 => 'r' case _ => 'p');
    }
  }

  // ---------- the laws of the gate ----------

  ghost predicate AllValidated(m: Contents) {
    forall k :: 0 <= k < |REQUIRED| ==> REQUIRED[k] in m && m[REQUIRED[k]].state.Validated?
  }

  /** The smallest deadline of the required dimensions. */
  ghost predicate IsDeadline(m: Contents, deadline: int) {
    && (exists k :: 0 <= k < |REQUIRED| && REQUIRED[k] in m && m[REQUIRED[k]].validUntil.instant == deadline)
    && (forall k :: 0 <= k < |REQUIRED| && REQUIRED[k] in m ==> deadline <= m[REQUIRED[k]].validUntil.instant)
  }

  /** From the last observation on, the gate is open exactly when all five dimensions hold
      validated evidence and the instant is strictly before the smallest deadline. */
  lemma ReadyExactly(m: Contents, at: Time, deadline: int)
    requires IsDeadline(m, deadline)
    ensures Legal(m) && ObservedBy(m, at) ==> (IsReady(m, at) <==> AllValidated(m) && at.instant < deadline)
  {
    hide Sound, Problem;
    if Legal(m) && ObservedBy(m, at) {
      forall k | 0 <= k < |REQUIRED| && REQUIRED[k] in m
        ensures Problem(m[REQUIRED[k]], at).None?
      {
        VerdictMeaning(m[REQUIRED[k]], at);
      }
    }
  }

  /** Once lost, readiness does not come back without a new record. */
  lemma ReadinessIsNotRegained(m: Contents, at: Time, later: Time)
    requires ObservedBy(m, at) && at.instant <= later.instant
    requires IsReady(m, later)
    ensures Legal(m) ==> IsReady(m, at)
  {
    hide Sound, Problem;
    if Legal(m) {
      forall k | 0 <= k < |REQUIRED| ensures REQUIRED[k] in m && Serves(m[REQUIRED[k]], at) {
        assert Serves(m[REQUIRED[k]], later);
        VerdictMeaning(m[REQUIRED[k]], at);
      }
    }
  }

  /** A restart from the last observation on changes neither the map nor the answer. */
  lemma RestartKeepsReadiness(file: Content<seq<Evidence>>, m: Contents, restart: Time, at: Time)
    requires InSync(file, m) && ObservedBy(m, restart)
    ensures Legal(m) ==> Loaded(file, restart) == Ok(m) && (IsReady(Loaded(file, restart).value, at) <==> IsReady(m, at))
  {
    hide Sound, Loaded, InSync;
    if Legal(m) { RestartExactly(file, m, restart); }
  }
}
