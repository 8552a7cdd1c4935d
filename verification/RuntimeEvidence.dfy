/** Runtime evidence of the four mandatory platforms: one entry each, replaced by whatever
    is accepted next, rolled back when the write fails, and the fail-closed eligibility
    gate. */
module RuntimeEvidence {
  import opened Wrappers
  import opened Text
  import opened GoTime
  import opened Disk
  import Keyed

  datatype Platform = GlazeUI | Wardveil | PrivacyShield | Everkeep | OtherPlatform(name: string)

  datatype Condition = Pending | Validated | Blocked | OtherCondition(name: string)

  datatype Evidence = Evidence(
    platform: Platform,
    repository: string,
    contract: string,
    state: Condition,
    source: string,
    revision: string,
    observedAt: Time,
    validUntil: Time,
    detail: string)

  datatype Refusal =
    | NotMandatory | OtherRepository | ContractMissing | OtherContract | BadState | ObservedInFuture
    | NeedsRepository | NeedsSource | NeedsRevision | NeedsDeadline | DeadlineNotForward | Expired

  datatype RecordError = Refused(why: Refusal) | NotPersisted

  datatype CatalogEntry = CatalogEntry(repository: string, contractSource: string, required: bool)

  /** CatalogFor */
  function CatalogFor(p: Platform): Option<CatalogEntry> {
    match p
    case GlazeUI => Some(CatalogEntry("GoreeCloud/glaze-ui", "CONFORMANCE.md", true))
    case Wardveil => Some(CatalogEntry("GoreeCloud/goreecloud-wardveil-security", "contracts/wardveil.status.schema.json", true))
    case PrivacyShield => Some(CatalogEntry("GoreeCloud/goreecloud-privacy-shield", "contracts/privacy-shield.platform.json", true))
    case Everkeep => Some(CatalogEntry("GoreeCloud/goreecloud-everkeep", "contracts/continuity.status.schema.json", true))
    case OtherPlatform(_) => None
  }

  const MANDATORY: seq<Platform> := [GlazeUI, Wardveil, PrivacyShield, Everkeep]

  // ---------- normalisation ----------

  function Trimmed(v: Evidence): Evidence {
    v.(repository := TrimSpace(v.repository), contract := TrimSpace(v.contract), source := TrimSpace(v.source),
    revision := TrimSpace(v.revision), detail := TrimSpace(v.detail))
  }

  /** A missing observation time becomes the evaluation time; a missing deadline stays. */
  function Timed(v: Evidence, t: Time): Evidence {
    v.(observedAt := if v.observedAt.IsZero() then t.Utc() else v.observedAt.Utc(),
    validUntil := if v.validUntil.IsZero() then v.validUntil else v.validUntil.Utc())
  }

  function CatalogProblem(v: Evidence): Option<Refusal> {
    if CatalogFor(v.platform).None? || !CatalogFor(v.platform).value.required then Some(NotMandatory)
    else if v.repository != "" && v.repository != CatalogFor(v.platform).value.repository then Some(OtherRepository)
    else if v.contract == "" then Some(ContractMissing)
    else if v.contract != CatalogFor(v.platform).value.contractSource then Some(OtherContract)
    else if v.state.OtherCondition? then Some(BadState)
    else None
  }

  function ValidationProblem(v: Evidence): Option<Refusal> {
    if !v.state.Validated? then None
    else if v.repository == "" then Some(NeedsRepository)
    else if v.source == "" then Some(NeedsSource)
    else if !IsFullGitRevision(v.revision) then Some(NeedsRevision)
    else if v.validUntil.IsZero() then Some(NeedsDeadline)
    else if !v.validUntil.After(v.observedAt) then Some(DeadlineNotForward)
    else None
  }

  /** normalizeEvidenceAt */
  function Normalize(input: Evidence, t: Time): Result<Evidence, Refusal> {
    var v := Trimmed(input);
    if CatalogProblem(v).Some? then Err(CatalogProblem(v).value)
    else if !v.observedAt.IsZero() && v.observedAt.Utc().After(t.Utc()) then Err(ObservedInFuture)
    else
      var w := Timed(v, t);
      if ValidationProblem(w).Some? then Err(ValidationProblem(w).value)
      else if w.state.Validated? && t.Utc().After(w.validUntil) then Err(Expired)
      else Ok(w)
  }

  // ---------- what may be held ----------

  predicate Tidy(v: Evidence) {
    && Tight(v.repository) && Tight(v.contract) && Tight(v.source) && Tight(v.revision) && Tight(v.detail)
    && !v.observedAt.IsZero() && v.observedAt.offset == 0
    && (v.validUntil.IsZero() || v.validUntil.offset == 0)
  }

  /** The repository and the contract source of each mandatory platform. */
  ghost predicate Canonical(p: Platform, repository: string, contract: string) {
    || (p == GlazeUI && repository == "GoreeCloud/glaze-ui" && contract == "CONFORMANCE.md")
    || (p == Wardveil && repository == "GoreeCloud/goreecloud-wardveil-security" && contract == "contracts/wardveil.status.schema.json")
    || (p == PrivacyShield && repository == "GoreeCloud/goreecloud-privacy-shield" && contract == "contracts/privacy-shield.platform.json")
    || (p == Everkeep && repository == "GoreeCloud/goreecloud-everkeep" && contract == "contracts/continuity.status.schema.json")
  }

  /** What no clock changes: a mandatory platform with its contract, no repository but its
      own and a known state; and when validated, that repository, a source, an exact revision
      of 40 hexadecimal digits and a deadline after the observation. */
  ghost predicate Sound(v: Evidence) {
    && (exists repository :: Canonical(v.platform, repository, v.contract) && v.repository in ["", repository])
    && v.state in [Pending, Validated, Blocked]
    && (v.state == Validated ==>
          && v.repository != "" && v.source != ""
          && HexDigits(v.revision, 40)
          && v.validUntil.instant != 0 && v.observedAt.instant < v.validUntil.instant)
  }

  lemma CatalogMeans(p: Platform, repository: string, contract: string)
    ensures Canonical(p, repository, contract) <==>
              && CatalogFor(p).Some? && CatalogFor(p).value.required
              && CatalogFor(p).value.repository == repository && CatalogFor(p).value.contractSource == contract
    ensures Canonical(p, repository, contract) ==> repository != "" && contract != ""
  {
  }

  lemma CatalogListsFour(p: Platform)
    ensures CatalogFor(p).Some? <==> p in [GlazeUI, Wardveil, PrivacyShield, Everkeep]
    ensures CatalogFor(p).Some? ==> CatalogFor(p).value.required
  {
  }

  /** The checks, one after the other, leave exactly the sound evidence. */
  lemma SoundMeans(v: Evidence)
    ensures Sound(v) <==> CatalogProblem(v).None? && ValidationProblem(v).None?
  {
    hide Canonical, CatalogFor;
    forall repository, contract { CatalogMeans(v.platform, repository, contract); }
    if CatalogFor(v.platform).Some? {
      CatalogMeans(v.platform, CatalogFor(v.platform).value.repository, CatalogFor(v.platform).value.contractSource);
    }
    PatternsMean(v.revision);
    hide HexDigits, IsFullGitRevision;
  }

  ghost predicate Held(v: Evidence) {
    Tidy(v) && Sound(v)
  }

  /** What the clock has to say about held evidence at a reload. */
  predicate Timely(v: Evidence, t: Time) {
    v.observedAt.instant <= t.instant && (v.state.Validated? ==> t.instant <= v.validUntil.instant)
  }

  lemma TidyIsFixed(v: Evidence, t: Time)
    ensures Tidy(v) ==> Trimmed(v) == v && Timed(v, t) == v
    ensures Tidy(Timed(Trimmed(v), t)) <==> !(v.observedAt.IsZero() && t.IsZero())
  {
    TrimTight(v.repository); TrimTight(v.contract); TrimTight(v.source); TrimTight(v.revision); TrimTight(v.detail);
    hide TrimSpace, Tight;
  }

  lemma TimedKeepsCatalog(v: Evidence, t: Time)
    ensures CatalogProblem(Timed(v, t)) == CatalogProblem(v)
  {
    hide CatalogFor;
  }

  /** The form in which evidence arriving at t is kept. */
  function Spelling(v: Evidence, t: Time): Evidence {
    Timed(Trimmed(v), t)
  }

  /** Evidence is accepted exactly when its trimmed form in UTC, observed now if it does not
      say when, is sound and timely; that form is the result, and it may be held unless it
      was given the zero time. */
  lemma AcceptedExactly(v: Evidence, t: Time)
    ensures Normalize(v, t).Ok? <==> Sound(Spelling(v, t)) && Timely(Spelling(v, t), t)
    ensures Normalize(v, t).Ok? ==> Normalize(v, t).value == Spelling(v, t)
    ensures Normalize(v, t).Ok? ==> (Held(Normalize(v, t).value) <==> !(v.observedAt.IsZero() && t.IsZero()))
  {
    SoundMeans(Spelling(v, t));
    hide Sound, Trimmed, Tidy, CatalogProblem, ValidationProblem;
    TidyIsFixed(v, t);
    TimedKeepsCatalog(Trimmed(v), t);
    TrimKeepsTimes(v);
  }

  lemma SpellingMeans(v: Evidence, t: Time)
    ensures Spelling(v, t) ==
            v.(repository := TrimSpace(v.repository), contract := TrimSpace(v.contract), source := TrimSpace(v.source),
               revision := TrimSpace(v.revision), detail := TrimSpace(v.detail),
               observedAt := Time(if v.observedAt.instant == 0 then t.instant else v.observedAt.instant, 0),
               validUntil := if v.validUntil.instant == 0 then v.validUntil else Time(v.validUntil.instant, 0))
  {
    hide TrimSpace;
  }

  // ---------- which refusal ----------

  /** What is wrong, in the form w that evidence has at t, when a refusal applies. */
  ghost predicate Ground(w: Evidence, t: Time, why: Refusal) {
    match why
    case NotMandatory => w.platform !in [GlazeUI, Wardveil, PrivacyShield, Everkeep]
    case OtherRepository => w.repository != "" && forall contract :: !Canonical(w.platform, w.repository, contract)
    case ContractMissing => w.contract == ""
    case OtherContract => forall repository :: !Canonical(w.platform, repository, w.contract)
    case BadState => w.state !in [Pending, Validated, Blocked]
    case ObservedInFuture => t.instant < w.observedAt.instant
    case NeedsRepository => w.state == Validated && w.repository == ""
    case NeedsSource => w.state == Validated && w.source == ""
    case NeedsRevision => w.state == Validated && !HexDigits(w.revision, 40)
    case NeedsDeadline => w.state == Validated && w.validUntil.instant == 0
    case DeadlineNotForward => w.state == Validated && w.validUntil.instant <= w.observedAt.instant
    case Expired => w.state == Validated && w.validUntil.instant < t.instant
  }

  /** The order in which the grounds are looked for. */
  ghost function Rank(why: Refusal): nat {
    match why
    case NotMandatory => 1 case OtherRepository => 2 case ContractMissing => 3 case OtherContract => 4
    case BadState => 5 case ObservedInFuture => 6 case NeedsRepository => 7 case NeedsSource => 8
    case NeedsRevision => 9 case NeedsDeadline => 10 case DeadlineNotForward => 11 case Expired => 12
  }

  ghost predicate FirstGround(w: Evidence, t: Time, why: Refusal) {
    Ground(w, t, why) && forall other :: Rank(other) < Rank(why) ==> !Ground(w, t, other)
  }

  lemma CatalogFirst(w: Evidence, t: Time, other: Refusal)
    ensures CatalogProblem(w).Some? ==>
              var why := CatalogProblem(w).value;
              Rank(why) <= 5 && Ground(w, t, why) && (Rank(other) < Rank(why) ==> !Ground(w, t, other))
    ensures CatalogProblem(w).None? && Rank(other) <= 5 ==> !Ground(w, t, other)
  {
    hide Canonical, CatalogFor, HexDigits;
    forall repository, contract { CatalogMeans(w.platform, repository, contract); }
    CatalogListsFour(w.platform);
    if CatalogFor(w.platform).Some? {
      CatalogMeans(w.platform, CatalogFor(w.platform).value.repository, CatalogFor(w.platform).value.contractSource);
    }
  }

  lemma ValidationFirst(w: Evidence, t: Time, other: Refusal)
    ensures ValidationProblem(w).Some? ==>
              var why := ValidationProblem(w).value;
              6 < Rank(why) <= 11 && Ground(w, t, why) && (6 < Rank(other) < Rank(why) ==> !Ground(w, t, other))
    ensures ValidationProblem(w).None? && 6 < Rank(other) <= 11 ==> !Ground(w, t, other)
  {
    PatternsMean(w.revision);
    hide Canonical, IsFullGitRevision, HexDigits;
  }

  lemma NoEarlierGround(v: Evidence, t: Time, other: Refusal)
    ensures Normalize(v, t).Err? ==>
              var why := Normalize(v, t).error;
              Ground(Spelling(v, t), t, why) && (Rank(other) < Rank(why) ==> !Ground(Spelling(v, t), t, other))
  {
    var w := Spelling(v, t);
    CatalogFirst(w, t, other);
    ValidationFirst(w, t, other);
    TimedKeepsCatalog(Trimmed(v), t);
    TrimKeepsTimes(v);
    assert Ground(w, t, ObservedInFuture) <==> t.instant < w.observedAt.instant;
    assert Ground(w, t, Expired) <==> w.state == Validated && w.validUntil.instant < t.instant;
    assert Rank(ObservedInFuture) == 6 && Rank(Expired) == 12 && (Rank(other) == 6 ==> other == ObservedInFuture) && Rank(other) <= 12;
    hide Ground, Rank, CatalogProblem, ValidationProblem, Trimmed;
  }

  /** The refusal names the first ground. */
  lemma RefusedByFirstGround(v: Evidence, t: Time)
    ensures Normalize(v, t).Err? ==> FirstGround(Spelling(v, t), t, Normalize(v, t).error)
  {
    hide Normalize, Spelling, Ground, Rank;
    if Normalize(v, t).Err? {
      forall other ensures Ground(Spelling(v, t), t, Normalize(v, t).error)
        ensures Rank(other) < Rank(Normalize(v, t).error) ==> !Ground(Spelling(v, t), t, other)
      {
        NoEarlierGround(v, t, other);
      }
      NoEarlierGround(v, t, NotMandatory);
    }
  }

  lemma AcceptedIsHeld(v: Evidence, t: Time)
    requires !t.IsZero()
    ensures Normalize(v, t).Ok? ==> Held(Normalize(v, t).value)
  {
    AcceptedExactly(v, t);
    hide Normalize, Held, Spelling, Sound, Timely;
  }

  lemma TrimKeepsTimes(v: Evidence)
    ensures Trimmed(v).observedAt == v.observedAt && Trimmed(v).validUntil == v.validUntil && Trimmed(v).state == v.state
  {
  }

  /** A reload accepts held evidence, unchanged, exactly while it is timely. */
  lemma Reload(c: Evidence, t: Time)
    ensures Held(c) ==> (Normalize(c, t).Ok? <==> Timely(c, t)) && (Timely(c, t) ==> Normalize(c, t) == Ok(c))
  {
    TidyIsFixed(c, t);
    AcceptedExactly(c, t);
    hide Normalize, Trimmed, Timed, Tidy, CatalogProblem, ValidationProblem;
  }

  lemma TidyTimes(c: Evidence)
    ensures Tidy(c) ==> !c.observedAt.IsZero() && c.observedAt.offset == 0
    ensures Held(c) && c.state.Validated? ==> !c.validUntil.IsZero() && c.observedAt.instant < c.validUntil.instant
  {
    hide Tight, CatalogProblem, IsFullGitRevision;
  }

  /** evidenceFreshAt */
  predicate FreshAt(v: Evidence, t: Time) {
    v.state.Validated? && !v.validUntil.IsZero() && !t.Utc().After(v.validUntil.Utc())
  }

  // ---------- the registry ----------

  type Contents = map<Platform, Evidence>

  function Key(v: Evidence): Platform { v.platform }

  ghost predicate Legal(m: Contents) {
    forall p :: p in m ==> m[p].platform == p && Held(m[p])
  }

  ghost predicate InSync(file: Content<seq<Evidence>>, m: Contents) {
    match file
    case Missing => m == map[]
    case Blank => m == map[]
    case Malformed => false
    case Holds(items) => Keyed.Lists(items, m, Key)
  }

  /** What one record call does to the map. */
  function AfterRecord(m: Contents, v: Evidence, now: Time, persisted: bool): Contents {
    match Normalize(v, now)
    case Err(_) => m
    case Ok(c) => if persisted then m[c.platform := c] else m
  }

  datatype LoadError = Unreadable | NotJson | DuplicatePlatform | BadEvidence(why: Refusal)

  function LoadFrom(rest: seq<Evidence>, seen: set<Platform>, acc: Contents, now: Time): Result<Contents, LoadError> {
    if rest == [] then Ok(acc)
    else if rest[0].platform in seen then Err(DuplicatePlatform)
    else match Normalize(rest[0], now)
      case Err(why) => Err(BadEvidence(why))
      case Ok(c) => LoadFrom(rest[1..], seen + {rest[0].platform}, acc[c.platform := c], now)
  }

  function Loaded(file: Content<seq<Evidence>>, now: Time): Result<Contents, LoadError> {
    match file
    case Missing => Ok(map[])
    case Blank => Ok(map[])
    case Malformed => Err(NotJson)
    case Holds(items) => LoadFrom(items, {}, map[], now)
  }

  function Spellings(items: seq<Evidence>, now: Time): seq<Evidence> {
    seq(|items|, i requires 0 <= i < |items| => Spelling(items[i], now))
  }

  /** The map is what the file lists, each entry in the form it is kept in. */
  ghost predicate StandsFor(file: Content<seq<Evidence>>, m: Contents, now: Time) {
    match file
    case Missing => m == map[]
    case Blank => m == map[]
    case Malformed => false
    case Holds(items) => Keyed.Lists(Spellings(items, now), m, Key)
  }

  /** NewPersistentRegistry on a non-empty path. */
  method Load(file: Content<seq<Evidence>>, readable: bool, now: Time) returns (r: Result<Contents, LoadError>)
    requires !now.IsZero()
    ensures r == if !readable && !file.Missing? then Err(Unreadable) else Loaded(file, now)
    ensures r.Ok? ==> Legal(r.value) && StandsFor(file, r.value, now)
  {
    LoadedStandsFor(file, now);
    hide Normalize, Held, StandsFor;
    if file.Missing? {
      return Ok(map[]);
    }
    if !readable {
      return Err(Unreadable);
    }
    if file.Blank? {
      return Ok(map[]);
    }
    if file.Malformed? {
      return Err(NotJson);
    }
    var items := file.doc;
    var seen: set<Platform> := {};
    var acc: Contents := map[];
    for i := 0 to |items|
      invariant LoadFrom(items[i..], seen, acc, now) == LoadFrom(items, {}, map[], now)
    {
      assert items[i..][0] == items[i] && items[i..][1..] == items[i + 1..];
      if items[i].platform in seen {
        return Err(DuplicatePlatform);
      }
      seen := seen + {items[i].platform};
      var validated := Normalize(items[i], now);
      if validated.Err? {
        return Err(BadEvidence(validated.error));
      }
      acc := acc[validated.value.platform := validated.value];
    }
    assert items[|items|..] == [];
    return Ok(acc);
  }

  /** A load that fails does so at the first entry that cannot follow the ones before it: one
      whose platform was there already, or else one that is refused. */
  lemma {:induction false} LoadStopsAtFirst(rest: seq<Evidence>, seen: set<Platform>, acc: Contents, now: Time) returns (i: nat)
    requires LoadFrom(rest, seen, acc, now).Err?
    ensures i < |rest| && LoadFrom(rest[..i], seen, acc, now).Ok?
    ensures var p := rest[i].platform;
            if p in seen || exists j :: 0 <= j < i && rest[j].platform == p then LoadFrom(rest, seen, acc, now) == Err(DuplicatePlatform)
            else Normalize(rest[i], now).Err? && LoadFrom(rest, seen, acc, now) == Err(BadEvidence(Normalize(rest[i], now).error))
  {
    hide Normalize;
    i := 0;
    if rest[0].platform !in seen && Normalize(rest[0], now).Ok? {
      var c := Normalize(rest[0], now).value;
      i := LoadStopsAtFirst(rest[1..], seen + {rest[0].platform}, acc[c.platform := c], now);
      assert rest[..i + 1][1..] == rest[1..][..i];
      assert forall j :: 1 <= j < |rest| ==> rest[j] == rest[1..][j - 1];
      i := i + 1;
    }
  }

  /** Sound and timely in the forms they are kept in, without a repeated platform. */
  ghost predicate Loadable(items: seq<Evidence>, seen: set<Platform>, now: Time) {
    && (forall e :: e in items ==> Sound(Spelling(e, now)) && Timely(Spelling(e, now), now) && e.platform !in seen)
    && Keyed.DistinctKeys(items, Key)
  }

  lemma SpellingKeepsKeys(items: seq<Evidence>, now: Time)
    ensures forall i :: 0 <= i < |items| ==> Key(Spellings(items, now)[i]) == Key(items[i])
    ensures Keyed.DistinctKeys(items, Key) <==> Keyed.DistinctKeys(Spellings(items, now), Key)
  {
    hide TrimSpace;
    var all := Spellings(items, now);
    assert forall i :: 0 <= i < |items| ==> all[i].platform == items[i].platform;
  }

  lemma LoadStep(rest: seq<Evidence>, seen: set<Platform>, acc: Contents, now: Time)
    requires rest != []
    ensures var c := Spelling(rest[0], now);
            var fits := Sound(c) && Timely(c, now) && rest[0].platform !in seen;
            && (LoadFrom(rest, seen, acc, now).Ok? ==> fits)
            && (fits ==> LoadFrom(rest, seen, acc, now) == LoadFrom(rest[1..], seen + {rest[0].platform}, acc[rest[0].platform := c], now))
  {
    AcceptedExactly(rest[0], now);
    SpellingKeepsKeys([rest[0]], now);
    assert Spellings([rest[0]], now)[0] == Spelling(rest[0], now);
    hide Normalize, Spelling, Sound, Timely;
  }

  lemma LoadableStep(rest: seq<Evidence>, seen: set<Platform>, now: Time)
    requires rest != []
    ensures var c := Spelling(rest[0], now);
            Loadable(rest, seen, now) <==>
              Sound(c) && Timely(c, now) && rest[0].platform !in seen && Loadable(rest[1..], seen + {rest[0].platform}, now)
  {
    hide Spelling, Sound, Timely;
    var tail, more := rest[1..], seen + {rest[0].platform};
    assert forall x :: x in rest <==> x == rest[0] || x in tail;
    if Loadable(rest, seen, now) {
      Keyed.DistinctTail(rest, Key);
    } else if Loadable(tail, more, now) {
      forall i, j | 0 <= i < j < |rest| ensures Key(rest[i]) != Key(rest[j]) {
        assert rest[j] == tail[j - 1] && rest[j] in tail;
        if i > 0 { assert rest[i] == tail[i - 1]; }
      }
    }
  }

  lemma SpellingsHead(rest: seq<Evidence>, acc: Contents, now: Time)
    requires rest != [] && Keyed.DistinctKeys(rest, Key)
    ensures acc[rest[0].platform := Spelling(rest[0], now)] + Keyed.MapOf(Spellings(rest[1..], now), Key)
            == acc + Keyed.MapOf(Spellings(rest, now), Key)
  {
    SpellingKeepsKeys(rest, now);
    hide Spelling, Keyed.MapOf;
    var all := Spellings(rest, now);
    assert Key(all[0]) == rest[0].platform && all[0] == Spelling(rest[0], now);
    assert all[1..] == Spellings(rest[1..], now);
    Keyed.LoadRound(all, acc, Key);
  }

  /** The load loop succeeds exactly on loadable lists, whose map it gives. */
  lemma {:induction false} LoadFromMeaning(rest: seq<Evidence>, seen: set<Platform>, acc: Contents, now: Time)
    ensures LoadFrom(rest, seen, acc, now).Ok? <==> Loadable(rest, seen, now)
    ensures LoadFrom(rest, seen, acc, now).Ok? ==>
              LoadFrom(rest, seen, acc, now).value == acc + Keyed.MapOf(Spellings(rest, now), Key)
  {
    hide Spelling, Sound, Timely, Normalize;
    if rest == [] {
      assert acc + map[] == acc;
    } else {
      var c := Spelling(rest[0], now);
      LoadStep(rest, seen, acc, now);
      LoadableStep(rest, seen, now);
      LoadFromMeaning(rest[1..], seen + {rest[0].platform}, acc[rest[0].platform := c], now);
      if Keyed.DistinctKeys(rest, Key) { SpellingsHead(rest, acc, now); }
      hide LoadFrom, Keyed.MapOf, Spellings;
    }
  }

  lemma LoadableIsHeld(items: seq<Evidence>, now: Time)
    requires !now.IsZero() && Loadable(items, {}, now)
    ensures forall e :: e in Spellings(items, now) ==> Held(e)
  {
    hide Spelling, Sound, Timely, Normalize, Held;
    var all := Spellings(items, now);
    forall e | e in all ensures Held(e) {
      var i :| 0 <= i < |all| && all[i] == e;
      assert items[i] in items;
      AcceptedExactly(items[i], now);
      AcceptedIsHeld(items[i], now);
    }
  }

  /** Whatever loads may be held, and is what the file lists. */
  lemma LoadedStandsFor(file: Content<seq<Evidence>>, now: Time)
    requires !now.IsZero()
    ensures Loaded(file, now).Ok? ==> Legal(Loaded(file, now).value) && StandsFor(file, Loaded(file, now).value, now)
  {
    hide Spelling, Sound, Timely, Normalize, Tidy, LoadFrom;
    if file.Holds? && Loaded(file, now).Ok? {
      var items := Spellings(file.doc, now);
      LoadFromMeaning(file.doc, {}, map[], now);
      SpellingKeepsKeys(file.doc, now);
      Keyed.MapOfContents(items, Key);
      var m := Keyed.MapOf(items, Key);
      assert map[] + m == m;
      LoadableIsHeld(file.doc, now);
      hide Keyed.MapOf, Spellings, Keyed.DistinctKeys, Loadable;
      forall p | p in m ensures m[p].platform == p && Held(m[p]) {
        assert Key(m[p]) == p && m[p] in items;
      }
    }
  }

  lemma HeldSpelling(c: Evidence, t: Time)
    ensures Held(c) ==> Sound(c) && Spelling(c, t) == c
  {
    TidyIsFixed(c, t);
    hide Trimmed, Timed, Tidy;
  }

  /** A restart succeeds exactly when every entry was observed by then and no validated one
      has expired, and then gives back the very map. Unlike the envelope registry, expired
      evidence does stop this one from loading. */
  lemma RestartExactly(file: Content<seq<Evidence>>, m: Contents, now: Time)
    requires Legal(m) && InSync(file, m)
    ensures Loaded(file, now).Ok? <==> forall p :: p in m ==> Timely(m[p], now)
    ensures Loaded(file, now).Ok? ==> Loaded(file, now).value == m
  {
    hide Held, Timely, LoadFrom, Sound, Spelling, Keyed.MapOf;
    if file.Holds? {
      var items := file.doc;
      forall e | e in items ensures Held(e) && m[e.platform] == e && e.platform in m {
        var i :| 0 <= i < |items| && items[i] == e;
        assert Key(items[i]) in m;
      }
      LoadFromMeaning(items, {}, map[], now);
      forall i | 0 <= i < |items| ensures Spellings(items, now)[i] == items[i] {
        assert items[i] in items;
        HeldSpelling(items[i], now);
      }
      assert Spellings(items, now) == items;
      forall e | e in items ensures Sound(e) && Spelling(e, now) == e { HeldSpelling(e, now); }
      Keyed.ListsGivesMap(items, m, Key);
      assert map[] + m == m;
      forall p | p in m ensures m[p] in items {}
    }
  }

  /** A case of it: evidence accepted at t and valid for a minute loads at t, but once
      the minute is over the file that lists it does not load. */
  lemma ExpiryBlocksRestart(t: Time, later: Time) returns (e: Evidence)
    requires !t.IsZero() && t.offset == 0
    requires later.instant > t.instant + MINUTE && t.instant + MINUTE != 0
    ensures Held(e) && Loaded(Holds([e]), t) == Ok(map[Everkeep := e])
    ensures Loaded(Holds([e]), later).Err?
  {
    e := Sample(Everkeep, t.instant, t.instant + MINUTE);
    SampleIsHeld(Everkeep, t.instant, t.instant + MINUTE);
    hide Held, Loaded, Sample, CatalogFor, Sound;
    ListsOne(e);
    RestartExactly(Holds([e]), map[Everkeep := e], t);
    RestartExactly(Holds([e]), map[Everkeep := e], later);
    assert !Timely(map[Everkeep := e][Everkeep], later);
  }

  /** Validated evidence of a mandatory platform for a given span of time. */
  function Sample(p: Platform, observed: int, until: int): Evidence
    requires CatalogFor(p).Some?
  {
    Evidence(p, CatalogFor(p).value.repository, CatalogFor(p).value.contractSource, Validated, "probe",
             seq(40, _ => 'a'), Time(observed, 0), Time(until, 0), "")
  }

  lemma CatalogIsTight(p: Platform)
    requires CatalogFor(p).Some?
    ensures var entry := CatalogFor(p).value;
            && Tight(entry.repository) && Tight(entry.contractSource) && entry.repository != "" && entry.contractSource != ""
            && entry.required
  {
    var entry := CatalogFor(p).value;
    var a, b := |entry.repository| - 1, |entry.contractSource| - 1;
    assert entry.repository[a] == match p case GlazeUI => 'i' case Wardveil => 'y' case PrivacyShield => 'd' case _ => 'p';
    assert entry.contractSource[b] == match p case GlazeUI => 'd' case _ => 'n';
  }

  lemma SampleIsHeld(p: Platform, observed: int, until: int)
    requires CatalogFor(p).Some? && observed != 0 && until != 0 && observed < until
    ensures var e := Sample(p, observed, until);
            && Held(e) && e.platform == p && e.state.Validated? && e.observedAt == Time(observed, 0) && e.validUntil == Time(until, 0)
            && (forall t: Time :: FreshAt(e, t) <==> t.instant <= until)
            && (forall t: Time :: Timely(e, t) <==> observed <= t.instant <= until)
  {
    CatalogIsTight(p);
    var e := Sample(p, observed, until);
    CatalogMeans(p, e.repository, e.contract);
    assert HexDigits(e.revision, 40) by { HexDigit('a'); }
    assert Tight(e.revision);
    hide CatalogFor, Canonical, HexDigits;
  }

  lemma ListsOne(e: Evidence)
    ensures Keyed.Lists([e], map[e.platform := e], Key)
  {
    assert [e][0] == e;
  }

  lemma NothingCollected(m: Contents)
    ensures Keyed.Collected([], m, MANDATORY[..0], Key)
  {
  }

  lemma OneMoreKey(i: nat)
    requires i < |MANDATORY|
    ensures MANDATORY[..i + 1] == MANDATORY[..i] + [MANDATORY[i]] && MANDATORY[i] !in MANDATORY[..i]
  {
  }

  class Registry {
    const path: string
    const volume: Volume<seq<Evidence>>
    var evidence: Contents

    ghost predicate Valid()
      reads this
    {
      Legal(evidence)
    }

    constructor (path: string, volume: Volume<seq<Evidence>>, loaded: Contents)
      requires Legal(loaded)
      ensures Valid() && this.path == path && this.volume == volume && evidence == loaded
    {
      this.path, this.volume, evidence := path, volume, loaded;
    }

    /** Record: a failed write restores the entry that was there, or its absence. */
    method Record(v: Evidence, now: Time, fault: Fault<seq<Evidence>>) returns (r: Result<Evidence, RecordError>)
      requires Valid() && !now.IsZero()
      modifies this`evidence, volume
      ensures Valid()
      ensures r.Ok? <==> Sound(Spelling(v, now)) && Timely(Spelling(v, now), now) && (path == "" || fault.NoFault?)
      ensures r.Ok? ==> r.value == Spelling(v, now) && evidence == old(evidence)[v.platform := r.value]
      ensures r.Err? ==> r == Err(NotPersisted) || (r.error.Refused? && FirstGround(Spelling(v, now), now, r.error.why))
      ensures r == Err(NotPersisted) ==> Sound(Spelling(v, now)) && Timely(Spelling(v, now), now)
      ensures evidence == AfterRecord(old(evidence), v, now, path == "" || fault.NoFault?)
      ensures r.Ok? && path != "" ==> InSync(volume.file, evidence)
      ensures r.Err? ==> evidence == old(evidence) && volume.file == old(volume.file)
    {
      AcceptedExactly(v, now);
      RefusedByFirstGround(v, now);
      SpellingMeans(v, now);
      hide Normalize, Held, Sound, Timely, InSync, FirstGround, Spelling, TrimSpace;
      var normalized := Normalize(v, now);
      if normalized.Err? {
        return Err(Refused(normalized.error));
      }
      var c := normalized.value;
      AcceptedIsHeld(v, now);
      var hadPrevious := c.platform in evidence;
      ghost var before := evidence;
      var previous := if hadPrevious then evidence[c.platform] else c;
      evidence := evidence[c.platform := c];
      var ok := PersistLocked(fault);
      if !ok {
        if hadPrevious {
          evidence := evidence[c.platform := previous];
        } else {
          evidence := evidence - {c.platform};
        }
        assert evidence == before;
        return Err(NotPersisted);
      }
      return Ok(c);
    }

    /** persistLocked writes the mandatory platforms only; nothing else can be held. */
    method PersistLocked(fault: Fault<seq<Evidence>>) returns (ok: bool)
      requires Legal(evidence)
      modifies volume
      ensures ok == (path == "" || fault.NoFault?)
      ensures path == "" || !ok ==> volume.file == old(volume.file)
      ensures path != "" && ok ==> InSync(volume.file, evidence)
    {
      hide Held, Keyed.Collected;
      if path == "" {
        return true;
      }
      NothingCollected(evidence);
      var items: seq<Evidence> := [];
      for i := 0 to |MANDATORY|
        invariant Keyed.Collected(items, evidence, MANDATORY[..i], Key)
        invariant volume.file == old(volume.file)
      {
        OneMoreKey(i);
        Keyed.CollectOne(items, evidence, MANDATORY[..i], MANDATORY[i], Key);
        if MANDATORY[i] in evidence {
          items := items + [evidence[MANDATORY[i]]];
        }
      }
      assert MANDATORY[..|MANDATORY|] == MANDATORY;
      forall p | p in evidence ensures p in MANDATORY { HeldIsMandatory(evidence[p]); }
      Keyed.CollectedAll(items, evidence, MANDATORY, Key);
      ok := volume.Persist(items, fault);
    }

    method Get(p: Platform) returns (v: Option<Evidence>)
      ensures v == if p in evidence then Some(evidence[p]) else None
    {
      return if p in evidence then Some(evidence[p]) else None;
    }

    /** StableEligibleAt when nothing runs beside it. */
    method StableEligibleAt(t: Time) returns (eligible: bool)
      ensures eligible <==> Eligible(evidence, t)
      ensures eligible <==> forall p :: p in [GlazeUI, Wardveil, PrivacyShield, Everkeep] ==>
                              && p in evidence && evidence[p].state == Validated
                              && evidence[p].validUntil.instant != 0 && t.instant <= evidence[p].validUntil.instant
    {
      EligibleMeans(evidence, t);
      hide FreshAt;
      for i := 0 to |MANDATORY|
        invariant forall k :: 0 <= k < i ==> MANDATORY[k] in evidence && FreshAt(evidence[MANDATORY[k]], t)
      {
        var v := Get(MANDATORY[i]);
        if v.None? || !FreshAt(v.value, t) {
          return false;
        }
      }
      return true;
    }
  }

  lemma HeldIsMandatory(v: Evidence)
    ensures Held(v) ==> v.platform in MANDATORY
  {
    hide Tidy, ValidationProblem;
    var i := match v.platform case GlazeUI => 0 case Wardveil => 1 case PrivacyShield => 2 case _ => 3;
    if !v.platform.OtherPlatform? { assert MANDATORY[i] == v.platform; }
  }

  /** Every mandatory platform has validated evidence that has not expired. */
  ghost predicate Eligible(m: Contents, t: Time) {
    forall k :: 0 <= k < |MANDATORY| ==> MANDATORY[k] in m && FreshAt(m[MANDATORY[k]], t)
  }

  lemma EligibleMeans(m: Contents, t: Time)
    ensures Eligible(m, t) <==>
              forall p :: p in [GlazeUI, Wardveil, PrivacyShield, Everkeep] ==>
                && p in m && m[p].state == Validated
                && m[p].validUntil.instant != 0 && t.instant <= m[p].validUntil.instant
  {
    assert |MANDATORY| == 4;
    assert forall k :: 0 <= k < |MANDATORY| ==> MANDATORY[k] in [GlazeUI, Wardveil, PrivacyShield, Everkeep];
    forall p | p in [GlazeUI, Wardveil, PrivacyShield, Everkeep] ensures exists k :: 0 <= k < |MANDATORY| && MANDATORY[k] == p {
      assert p == MANDATORY[0] || p == MANDATORY[1] || p == MANDATORY[2] || p == MANDATORY[3];
    }
  }

  /** The gate opens only on provenance: for each mandatory platform the map holds its own
      repository and contract, a source and an exact revision, observed before a deadline that
      is not over. */
  lemma GateNeedsProvenance(m: Contents, t: Time, p: Platform)
    requires Eligible(m, t) && p in [GlazeUI, Wardveil, PrivacyShield, Everkeep]
    ensures p in m && m[p].state == Validated && t.instant <= m[p].validUntil.instant
    ensures Legal(m) ==>
              && m[p].platform == p && Canonical(p, m[p].repository, m[p].contract)
              && m[p].source != "" && HexDigits(m[p].revision, 40)
              && m[p].observedAt.instant < m[p].validUntil.instant
  {
    EligibleMeans(m, t);
    hide Eligible, FreshAt, Tidy, Canonical;
    if Legal(m) { assert Held(m[p]); }
  }

  /** Eligibility against a restart at the same instant: the load succeeds exactly when no
      observation lies in the future of the clock, and then the gate stays open. */
  lemma EligibleSurvivesRestart(file: Content<seq<Evidence>>, m: Contents, t: Time)
    requires Legal(m) && InSync(file, m)
    requires Eligible(m, t)
    ensures Loaded(file, t).Ok? <==> forall p :: p in m ==> m[p].observedAt.instant <= t.instant
    ensures Loaded(file, t).Ok? ==> Eligible(Loaded(file, t).value, t)
  {
    hide Held, Loaded, InSync;
    forall p | p in m ensures Timely(m[p], t) <==> m[p].observedAt.instant <= t.instant {
      HeldIsMandatory(m[p]);
      var k :| 0 <= k < |MANDATORY| && MANDATORY[k] == p;
      assert FreshAt(m[MANDATORY[k]], t);
    }
    RestartExactly(file, m, t);
  }
}
