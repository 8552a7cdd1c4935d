/** The claims of an identity token: which instants accept it, and which principal it
    yields. */
module Claims {
  import opened Wrappers
  import opened Text
  import opened GoTime
  import Trust
  import Sorting

  /** The raw aud value: missing, a string, a list of strings, or other JSON. */
  datatype Audience = Absent | One(name: string) | Many(names: seq<string>) | OtherJson

  /** iat, nbf and exp are the literal JSON numbers; an empty text is a missing claim. */
  datatype TokenClaims = TokenClaims(
    issuer: string, audience: Audience, subject: string, serviceId: string, scope: string,
    issuedAt: string, notBefore: string, expiresAt: string, tokenId: string)

  datatype Settings = Settings(issuer: string, audience: string, clockSkew: int, maxLifetime: int)

  datatype Refusal =
    | UntrustedIssuer | OtherAudience | ServiceMissing | SubjectMismatch | TokenIdMissing
    | BadIssuedAt | BadExpiry | BadNotBefore | ExpiryNotForward | LifetimeTooLong
    | TokenExpired | IssuedInFuture | NotYetValid | ScopeMissing | InvalidPrincipal

  const DEFAULT_ISSUER := "goreecloud-identity"
  const DEFAULT_AUDIENCE := "goreecloud-mesh"
  const DEFAULT_LIFETIME: int := 15 * MINUTE

  function Issuer(cfg: Settings): string {
    if TrimSpace(cfg.issuer) == "" then DEFAULT_ISSUER else TrimSpace(cfg.issuer)
  }

  function ExpectedAudience(cfg: Settings): string {
    if TrimSpace(cfg.audience) == "" then DEFAULT_AUDIENCE else TrimSpace(cfg.audience)
  }

  function Skew(cfg: Settings): int {
    if cfg.clockSkew < 0 then 0 else cfg.clockSkew
  }

  function Lifetime(cfg: Settings): int {
    if cfg.maxLifetime <= 0 then DEFAULT_LIFETIME else cfg.maxLifetime
  }

  // ---------- numbers ----------

  /** json.Number.Int64: a sign and decimal digits that fit 64 bits, nothing else. */
  function ParseInt64(s: string): Option<int> {
    var digits := if s != [] && (s[0] == '-' || s[0] == '+') then s[1..] else s;
    if digits == [] || !AllDigits(digits) then None
    else
      var v: int := if s[0] == '-' then 0 - DigitsValue(digits) else DigitsValue(digits);
      if -0x8000_0000_0000_0000 <= v < 0x8000_0000_0000_0000 then Some(v) else None
  }

  /** numericDate of a claim that is present: positive whole seconds. */
  function NumericDate(value: string): Option<Time> {
    var seconds := ParseInt64(value);
    if seconds.None? || seconds.value <= 0 then None else Some(Unix(seconds.value))
  }

  /** s is a numeral of v: digits, perhaps with a sign. */
  ghost predicate IsNumeral(s: string, v: int) {
    exists digits: string :: digits != "" && AllDigits(digits) && SignedNumeral(s, digits, v)
  }

  ghost predicate SignedNumeral(s: string, digits: string, v: int)
    requires AllDigits(digits)
  {
    ((s == digits || s == "+" + digits) && v == DigitsValue(digits)) || (s == "-" + digits && v == 0 - DigitsValue(digits))
  }

  lemma ParsesNumerals(s: string, v: int)
    ensures ParseInt64(s) == Some(v) <==> IsNumeral(s, v) && -0x8000_0000_0000_0000 <= v < 0x8000_0000_0000_0000
  {
    hide DigitsValue;
    if ParseInt64(s) == Some(v) {
      var digits := if s[0] == '-' || s[0] == '+' then s[1..] else s;
      assert s[0] == '-' || s[0] == '+' ==> s == [s[0]] + digits;
      assert SignedNumeral(s, digits, v);
    }
    if digits: string :| digits != "" && AllDigits(digits) && SignedNumeral(s, digits, v) {
      assert digits[0] != '-' && digits[0] != '+';
      if s != digits { assert s[1..] == digits; }
    }
  }

  /** Reading a numeral back. */
  lemma ParsesDecimal(n: nat)
    ensures ParseInt64(Decimal(n)) == if n < 0x8000_0000_0000_0000 then Some(n) else None
  {
    DecimalMeans(n);
    var s := Decimal(n);
    assert s[0] != '-' && s[0] != '+';
    hide DigitsValue, Decimal;
  }

  /** The claim is a numeral of the whole seconds from the Unix epoch to t, after the epoch. */
  ghost predicate IsDate(s: string, t: Time) {
    exists n: int :: IsNumeral(s, n) && 0 < n < 0x8000_0000_0000_0000 && t == Time((n + UNIX_EPOCH) * SECOND, 0)
  }

  lemma DatesMean(s: string, t: Time)
    ensures NumericDate(s) == Some(t) <==> IsDate(s, t)
    ensures NumericDate(s).None? <==> forall u :: !IsDate(s, u)
    ensures s == "" ==> !IsDate(s, t)
  {
    hide ParseInt64, IsNumeral;
    forall v: int { ParsesNumerals(s, v); }
    forall u: Time ensures NumericDate(s) == Some(u) <==> IsDate(s, u) {
      if n: int :| IsNumeral(s, n) && 0 < n < 0x8000_0000_0000_0000 && u == Time((n + UNIX_EPOCH) * SECOND, 0) {
        assert ParseInt64(s) == Some(n);
      }
      if NumericDate(s) == Some(u) {
        assert IsNumeral(s, ParseInt64(s).value);
      }
    }
    if NumericDate(s).Some? { assert IsDate(s, NumericDate(s).value); }
    assert ParseInt64("").None? by { NoDigits(); }
  }

  lemma NoDigits()
    ensures ParseInt64("").None?
  {
  }

  predicate AudienceContains(a: Audience, expected: string) {
    match a
    case Absent => false
    case One(name) => name == expected
    case Many(names) => expected in names
    case OtherJson => false
  }

  // ---------- scopes ----------

  function WordLength(s: string): (n: nat)
    ensures n <= |s|
  {
    if s == [] || IsSpace(s[0]) then 0 else 1 + WordLength(s[1..])
  }

  /** strings.Fields */
  function Fields(s: string): seq<string>
    decreases |s|
  {
    if s == [] then []
    else if IsSpace(s[0]) then Fields(s[1..])
    else [s[..WordLength(s)]] + Fields(s[WordLength(s)..])
  }

  lemma {:induction false} WordHasNoSpace(s: string)
    ensures forall i :: 0 <= i < WordLength(s) ==> !IsSpace(s[i])
  {
    if s != [] && !IsSpace(s[0]) {
      WordHasNoSpace(s[1..]);
      assert forall i :: 1 <= i < |s| ==> s[i] == s[1..][i - 1];
    }
  }

  /** Fields are never empty and hold no white space. */
  lemma {:induction false} FieldsAreWords(s: string)
    ensures forall f :: f in Fields(s) ==> f != "" && Tight(f) && forall i :: 0 <= i < |f| ==> !IsSpace(f[i])
    decreases |s|
  {
    if s != [] {
      if IsSpace(s[0]) {
        FieldsAreWords(s[1..]);
      } else {
        WordHasNoSpace(s);
        FieldsAreWords(s[WordLength(s)..]);
        assert s[..WordLength(s)] != "";
      }
    }
  }

  /** f is the text from lo to hi of s, a longest stretch without white space. */
  ghost predicate IsWordAt(s: string, lo: int, hi: int, f: string) {
    && 0 <= lo < hi <= |s| && f == s[lo..hi]
    && (forall i :: lo <= i < hi ==> !IsSpace(s[i]))
    && (lo == 0 || IsSpace(s[lo - 1]))
    && (hi == |s| || IsSpace(s[hi]))
  }

  ghost predicate IsWord(s: string, f: string) {
    exists lo, hi :: IsWordAt(s, lo, hi, f)
  }

  lemma {:induction false} WordEnds(s: string)
    ensures WordLength(s) == |s| || IsSpace(s[WordLength(s)])
  {
    if s != [] && !IsSpace(s[0]) { WordEnds(s[1..]); }
  }

  /** A word of the rest is a word of the whole, moved. */
  lemma WordMoves(s: string, n: nat, lo: int, hi: int, f: string)
    requires 0 < n <= |s| && (n == |s| || IsSpace(s[n]) || IsSpace(s[n - 1]))
    ensures n <= lo ==> (IsWordAt(s, lo, hi, f) <==> IsWordAt(s[n..], lo - n, hi - n, f))
    ensures IsWordAt(s[n..], lo - n, hi - n, f) ==> n <= lo
  {
    var rest := s[n..];
    hide IsSpace;
    if n <= lo < hi <= |s| {
      assert s[lo..hi] == rest[lo - n..hi - n];
      assert forall i :: 0 <= i < |rest| ==> rest[i] == s[i + n];
      if IsWordAt(rest, lo - n, hi - n, f) {
        forall i | lo <= i < hi ensures !IsSpace(s[i]) { assert s[i] == rest[i - n]; }
      }
    }
  }

  /** Fields are exactly the words. */
  lemma {:induction false} FieldsExactly(s: string, f: string)
    ensures f in Fields(s) <==> IsWord(s, f)
    decreases |s|
  {
    hide IsWordAt;
    if s == [] {
      forall lo, hi ensures !IsWordAt(s, lo, hi, f) { NoWord(lo, hi, f); }
    } else if IsSpace(s[0]) {
      FieldsExactly(s[1..], f);
      LaterWords(s, 1, f);
      NoWordAtSpace(s, f);
    } else {
      var n := WordLength(s);
      FieldsExactly(s[n..], f);
      FirstWord(s, f);
      LaterWords(s, n, f);
    }
  }

  lemma NoWord(lo: int, hi: int, f: string)
    ensures !IsWordAt([], lo, hi, f)
  {
  }

  lemma NoWordAtSpace(s: string, f: string)
    requires s != [] && IsSpace(s[0])
    ensures forall lo, hi :: IsWordAt(s, lo, hi, f) ==> 1 <= lo
  {
  }

  /** The first word of a text that starts with one; no other word starts inside it. */
  lemma FirstWord(s: string, f: string)
    requires s != [] && !IsSpace(s[0])
    ensures 0 < WordLength(s) && (WordLength(s) == |s| || IsSpace(s[WordLength(s)]))
    ensures IsWordAt(s, 0, WordLength(s), f) <==> f == s[..WordLength(s)]
    ensures forall lo, hi :: IsWordAt(s, lo, hi, f) && lo < WordLength(s) ==> lo == 0 && hi == WordLength(s)
  {
    WordHasNoSpace(s);
    WordEnds(s);
    hide IsSpace;
  }

  lemma LaterWords(s: string, n: nat, f: string)
    requires 0 < n <= |s| && (n == |s| || IsSpace(s[n]) || IsSpace(s[n - 1]))
    ensures IsWord(s[n..], f) <==> exists lo, hi :: n <= lo && IsWordAt(s, lo, hi, f)
  {
    hide IsWordAt;
    if lo, hi :| IsWordAt(s[n..], lo, hi, f) {
      WordMoves(s, n, lo + n, hi + n, f);
      assert IsWordAt(s, lo + n, hi + n, f);
    }
    if lo, hi :| n <= lo && IsWordAt(s, lo, hi, f) {
      WordMoves(s, n, lo, hi, f);
      assert IsWordAt(s[n..], lo - n, hi - n, f);
    }
  }

  /** There is a word exactly when some character is not white space. */
  lemma {:induction false} SomeField(s: string)
    ensures Fields(s) == [] <==> forall i :: 0 <= i < |s| ==> IsSpace(s[i])
    decreases |s|
  {
    if s != [] && IsSpace(s[0]) {
      SomeField(s[1..]);
      assert forall i :: 1 <= i < |s| ==> s[i] == s[1..][i - 1];
    }
  }

  // ---------- validation ----------

  /** The checks up to the times. */
  function IdentityProblem(cfg: Settings, c: TokenClaims): Option<Refusal> {
    if TrimSpace(c.issuer) != Issuer(cfg) then Some(UntrustedIssuer)
    else if !AudienceContains(c.audience, ExpectedAudience(cfg)) then Some(OtherAudience)
    else if TrimSpace(c.serviceId) == "" then Some(ServiceMissing)
    else if TrimSpace(c.subject) != "service:" + TrimSpace(c.serviceId) then Some(SubjectMismatch)
    else if TrimSpace(c.tokenId) == "" then Some(TokenIdMissing)
    else None
  }

  /** The checks of the three dates against each other. */
  function DateProblem(cfg: Settings, c: TokenClaims): Option<Refusal> {
    if NumericDate(c.issuedAt).None? then Some(BadIssuedAt)
    else if NumericDate(c.expiresAt).None? then Some(BadExpiry)
    else if c.notBefore != "" && NumericDate(c.notBefore).None? then Some(BadNotBefore)
    else if !NumericDate(c.expiresAt).value.After(NumericDate(c.issuedAt).value) then Some(ExpiryNotForward)
    else if NumericDate(c.expiresAt).value.Sub(NumericDate(c.issuedAt).value) > Lifetime(cfg) then Some(LifetimeTooLong)
    else None
  }

  /** nbf, the zero time when the claim is missing. */
  function NotBefore(c: TokenClaims): Time {
    if c.notBefore == "" || NumericDate(c.notBefore).None? then ZERO else NumericDate(c.notBefore).value
  }

  /** The checks against the clock. */
  function ClockProblem(cfg: Settings, iat: Time, exp: Time, nbf: Time, now: Time): Option<Refusal> {
    if now.After(exp.Add(Skew(cfg))) then Some(TokenExpired)
    else if iat.After(now.Add(Skew(cfg))) then Some(IssuedInFuture)
    else if !nbf.IsZero() && nbf.After(now.Add(Skew(cfg))) then Some(NotYetValid)
    else None
  }

  /** validateClaims, up to the principal it builds. */
  function Problem(cfg: Settings, c: TokenClaims, now: Time): Option<Refusal> {
    if IdentityProblem(cfg, c).Some? then IdentityProblem(cfg, c)
    else if DateProblem(cfg, c).Some? then DateProblem(cfg, c)
    else
      var clock := ClockProblem(cfg, NumericDate(c.issuedAt).value, NumericDate(c.expiresAt).value, NotBefore(c), now.Utc());
      if clock.Some? then clock else if Fields(c.scope) == [] then Some(ScopeMissing) else None
  }

  // ---------- which tokens are accepted ----------

  /** The name asked for: the configured one, or the default when none is configured. */
  ghost predicate IsAsked(configured: string, byDefault: string, name: string) {
    name == if TrimSpace(configured) != "" then TrimSpace(configured) else byDefault
  }

  ghost predicate IsFor(a: Audience, name: string) {
    a == One(name) || (a.Many? && name in a.names)
  }

  ghost predicate HasAudience(cfg: Settings, c: TokenClaims) {
    exists name :: IsAsked(cfg.audience, "goreecloud-mesh", name) && IsFor(c.audience, name)
  }

  ghost predicate HasIssuer(cfg: Settings, c: TokenClaims) {
    IsAsked(cfg.issuer, "goreecloud-identity", TrimSpace(c.issuer))
  }

  ghost predicate HasScope(c: TokenClaims) {
    exists i :: 0 <= i < |c.scope| && !IsSpace(c.scope[i])
  }

  /** The clock skew allowed for. */
  ghost function Slack(cfg: Settings): int {
    if cfg.clockSkew > 0 then cfg.clockSkew else 0
  }

  /** The longest life of a token. */
  ghost function LongestLife(cfg: Settings): int {
    if cfg.maxLifetime > 0 then cfg.maxLifetime else 15 * 60 * 1_000_000_000
  }

  /** The dates of the token, a missing nbf aside. */
  ghost predicate HasDates(c: TokenClaims, iat: Time, exp: Time) {
    IsDate(c.issuedAt, iat) && IsDate(c.expiresAt, exp) && (c.notBefore != "" ==> exists nbf :: IsDate(c.notBefore, nbf))
  }

  /** Valid but for the clock. */
  ghost predicate Otherwise(cfg: Settings, c: TokenClaims) {
    && HasIssuer(cfg, c)
    && HasAudience(cfg, c)
    && TrimSpace(c.serviceId) != ""
    && TrimSpace(c.subject) == "service:" + TrimSpace(c.serviceId)
    && TrimSpace(c.tokenId) != ""
    && (exists iat, exp :: HasDates(c, iat, exp) && 0 < exp.instant - iat.instant <= LongestLife(cfg))
    && HasScope(c)
  }

  /** Not before iat and nbf, not after exp, give or take the skew. */
  ghost predicate InWindow(cfg: Settings, c: TokenClaims, now: Time) {
    && (exists iat :: IsDate(c.issuedAt, iat) && iat.instant - Slack(cfg) <= now.instant)
    && (exists exp :: IsDate(c.expiresAt, exp) && now.instant <= exp.instant + Slack(cfg))
    && (c.notBefore != "" ==> exists nbf :: IsDate(c.notBefore, nbf) && nbf.instant - Slack(cfg) <= now.instant)
  }

  /** What is wrong when a refusal applies. */
  ghost predicate Ground(cfg: Settings, c: TokenClaims, now: Time, why: Refusal) {
    match why
    case UntrustedIssuer => !HasIssuer(cfg, c)
    case OtherAudience => !HasAudience(cfg, c)
    case ServiceMissing => TrimSpace(c.serviceId) == ""
    case SubjectMismatch => TrimSpace(c.subject) != "service:" + TrimSpace(c.serviceId)
    case TokenIdMissing => TrimSpace(c.tokenId) == ""
    case BadIssuedAt => forall t :: !IsDate(c.issuedAt, t)
    case BadExpiry => forall t :: !IsDate(c.expiresAt, t)
    case BadNotBefore => c.notBefore != "" && forall t :: !IsDate(c.notBefore, t)
    case ExpiryNotForward => exists iat, exp :: IsDate(c.issuedAt, iat) && IsDate(c.expiresAt, exp) && exp.instant <= iat.instant
    case LifetimeTooLong =>
      exists iat, exp :: IsDate(c.issuedAt, iat) && IsDate(c.expiresAt, exp) && exp.instant - iat.instant > LongestLife(cfg)
    case TokenExpired => exists exp :: IsDate(c.expiresAt, exp) && exp.instant + Slack(cfg) < now.instant
    case IssuedInFuture => exists iat :: IsDate(c.issuedAt, iat) && now.instant + Slack(cfg) < iat.instant
    case NotYetValid => exists nbf :: IsDate(c.notBefore, nbf) && now.instant + Slack(cfg) < nbf.instant
    case ScopeMissing => !HasScope(c)
    case InvalidPrincipal => false
  }

  /** The order in which the grounds are looked for. */
  ghost function Rank(why: Refusal): nat {
    match why
    case UntrustedIssuer => 1 case OtherAudience => 2 case ServiceMissing => 3 case SubjectMismatch => 4
    case TokenIdMissing => 5 case BadIssuedAt => 6 case BadExpiry => 7 case BadNotBefore => 8
    case ExpiryNotForward => 9 case LifetimeTooLong => 10 case TokenExpired => 11 case IssuedInFuture => 12
    case NotYetValid => 13 case ScopeMissing => 14 case InvalidPrincipal => 15
  }

  /** why applies and no ground before it does. */
  ghost predicate FirstGround(cfg: Settings, c: TokenClaims, now: Time, why: Refusal) {
    Ground(cfg, c, now, why) && forall other :: Rank(other) < Rank(why) ==> !Ground(cfg, c, now, other)
  }

  lemma NamesMean(cfg: Settings, c: TokenClaims)
    ensures TrimSpace(c.issuer) == Issuer(cfg) <==> HasIssuer(cfg, c)
    ensures AudienceContains(c.audience, ExpectedAudience(cfg)) <==> HasAudience(cfg, c)
    ensures Fields(c.scope) != [] <==> HasScope(c)
  {
    hide TrimSpace, Fields;
    SomeField(c.scope);
    hide IsSpace;
    assert IsAsked(cfg.audience, "goreecloud-mesh", ExpectedAudience(cfg));
  }

  /** The date a claim stands for is unique. */
  lemma DateIs(s: string)
    ensures NumericDate(s).Some? ==> forall t :: IsDate(s, t) <==> t == NumericDate(s).value
    ensures NumericDate(s).None? ==> forall t :: !IsDate(s, t)
    ensures NumericDate(s).Some? ==> IsDate(s, NumericDate(s).value) && s != "" && !NumericDate(s).value.IsZero()
  {
    hide IsDate, ParseInt64;
    forall t: Time { DatesMean(s, t); }
    if NumericDate(s).Some? { DatesMean(s, NumericDate(s).value); }
  }

  lemma DatesOf(c: TokenClaims)
    ensures NumericDate(c.issuedAt).Some? ==> forall t :: IsDate(c.issuedAt, t) <==> t == NumericDate(c.issuedAt).value
    ensures NumericDate(c.issuedAt).None? ==> forall t :: !IsDate(c.issuedAt, t)
    ensures NumericDate(c.expiresAt).Some? ==> forall t :: IsDate(c.expiresAt, t) <==> t == NumericDate(c.expiresAt).value
    ensures NumericDate(c.expiresAt).None? ==> forall t :: !IsDate(c.expiresAt, t)
    ensures NumericDate(c.notBefore).Some? ==> forall t :: IsDate(c.notBefore, t) <==> t == NumericDate(c.notBefore).value
    ensures NumericDate(c.notBefore).None? ==> forall t :: !IsDate(c.notBefore, t)
    ensures NumericDate(c.issuedAt).Some? ==> IsDate(c.issuedAt, NumericDate(c.issuedAt).value)
    ensures NumericDate(c.expiresAt).Some? ==> IsDate(c.expiresAt, NumericDate(c.expiresAt).value)
    ensures NumericDate(c.notBefore).Some? ==> IsDate(c.notBefore, NumericDate(c.notBefore).value)
    ensures NumericDate(c.notBefore).Some? ==> c.notBefore != "" && !NumericDate(c.notBefore).value.IsZero()
  {
    hide IsDate, NumericDate;
    DateIs(c.issuedAt);
    DateIs(c.expiresAt);
    DateIs(c.notBefore);
  }

  lemma NamesFirst(cfg: Settings, c: TokenClaims, now: Time, other: Refusal)
    ensures IdentityProblem(cfg, c).Some? ==>
              var why := IdentityProblem(cfg, c).value;
              Rank(why) <= 5 && Ground(cfg, c, now, why) && (Rank(other) < Rank(why) ==> !Ground(cfg, c, now, other))
    ensures IdentityProblem(cfg, c).None? && Rank(other) <= 5 ==> !Ground(cfg, c, now, other)
  {
    NamesMean(cfg, c);
    hide HasIssuer, HasAudience, HasScope, AudienceContains, ExpectedAudience, Issuer, Fields, TrimSpace, IsDate;
  }

  lemma DatesFirst(cfg: Settings, c: TokenClaims, now: Time, other: Refusal)
    ensures DateProblem(cfg, c).Some? ==>
              var why := DateProblem(cfg, c).value;
              5 < Rank(why) <= 10 && Ground(cfg, c, now, why) && (5 < Rank(other) < Rank(why) ==> !Ground(cfg, c, now, other))
    ensures DateProblem(cfg, c).None? && 5 < Rank(other) <= 10 ==> !Ground(cfg, c, now, other)
  {
    DatesOf(c);
    hide HasIssuer, HasAudience, HasScope, TrimSpace, IsDate, NumericDate;
  }

  lemma ClockFirst(cfg: Settings, c: TokenClaims, now: Time, other: Refusal)
    requires DateProblem(cfg, c).None?
    ensures var clock := ClockProblem(cfg, NumericDate(c.issuedAt).value, NumericDate(c.expiresAt).value, NotBefore(c), now.Utc());
            && (clock.Some? ==>
                  && 10 < Rank(clock.value) <= 13 && Ground(cfg, c, now, clock.value)
                  && (10 < Rank(other) < Rank(clock.value) ==> !Ground(cfg, c, now, other)))
            && (clock.None? && 10 < Rank(other) <= 13 ==> !Ground(cfg, c, now, other))
  {
    DatesOf(c);
    hide HasIssuer, HasAudience, HasScope, TrimSpace, IsDate, NumericDate;
  }

  lemma NoEarlierGround(cfg: Settings, c: TokenClaims, now: Time, other: Refusal)
    ensures Problem(cfg, c, now).Some? ==>
              var why := Problem(cfg, c, now).value;
              Ground(cfg, c, now, why) && (Rank(other) < Rank(why) ==> !Ground(cfg, c, now, other))
    ensures Problem(cfg, c, now).None? ==> !Ground(cfg, c, now, other)
  {
    NamesMean(cfg, c);
    assert Ground(cfg, c, now, ScopeMissing) <==> Fields(c.scope) == [];
    assert Rank(ScopeMissing) == 14 && (Rank(other) > 13 ==> other == ScopeMissing || !Ground(cfg, c, now, other));
    NamesFirst(cfg, c, now, other);
    DatesFirst(cfg, c, now, other);
    if DateProblem(cfg, c).None? { ClockFirst(cfg, c, now, other); }
    hide Ground, Rank, IdentityProblem, DateProblem, ClockProblem, Fields;
  }

  /** The reason given is the first ground; without a reason there is no ground. */
  lemma RefusedByFirstGround(cfg: Settings, c: TokenClaims, now: Time, why: Refusal)
    ensures Problem(cfg, c, now) == Some(why) ==> FirstGround(cfg, c, now, why)
    ensures Problem(cfg, c, now).None? ==> !Ground(cfg, c, now, why)
  {
    hide Ground, Rank, Problem;
    forall other: Refusal
      ensures Problem(cfg, c, now) == Some(why) ==> Ground(cfg, c, now, why) && (Rank(other) < Rank(why) ==> !Ground(cfg, c, now, other))
    {
      NoEarlierGround(cfg, c, now, other);
    }
    NoEarlierGround(cfg, c, now, why);
  }

  /** A token is accepted exactly when it has the issuer, the audience, the service with its
      subject, an ID, dates that fit and a scope, and the clock is in its window (claims of
      section 4.1 of RFC 7519). */
  lemma AcceptedExactly(cfg: Settings, c: TokenClaims, now: Time)
    ensures Problem(cfg, c, now).None? <==> Otherwise(cfg, c) && InWindow(cfg, c, now)
  {
    NamesMean(cfg, c);
    DatesOf(c);
    hide HasIssuer, HasAudience, HasScope, AudienceContains, ExpectedAudience, Issuer, Fields, TrimSpace, IsDate, NumericDate;
    if Problem(cfg, c, now).None? {
      assert HasDates(c, NumericDate(c.issuedAt).value, NumericDate(c.expiresAt).value);
    }
  }

  /** validateClaims. The principal's validity is checked once more at the end; that check
      can no longer fail. */
  method ValidateClaims(cfg: Settings, c: TokenClaims, now: Time) returns (r: Result<Trust.Principal, Refusal>)
    ensures r.Ok? <==> Otherwise(cfg, c) && InWindow(cfg, c, now)
    ensures r.Err? ==> FirstGround(cfg, c, now, r.error)
    ensures r.Ok? ==>
              && r.value.serviceId == TrimSpace(c.serviceId)
              && r.value.subject == "service:" + r.value.serviceId
              && r.value.issuer == TrimSpace(c.issuer)
              && Sorting.Sorted(Less, r.value.scopes)
              && forall s :: s in r.value.scopes <==> IsWord(c.scope, s)
  {
    hide IdentityProblem, DateProblem, ClockProblem, Fields, TrimSpace, Otherwise, InWindow, FirstGround, IsWord;
    AcceptedExactly(cfg, c, now);
    var problem := Problem(cfg, c, now);
    if problem.Some? {
      RefusedByFirstGround(cfg, c, now, problem.value);
      return Err(problem.value);
    }
    AcceptedTexts(cfg, c, now);
    hide Problem;
    var p := Trust.Principal(TrimSpace(c.serviceId), Fields(c.scope), Issuer(cfg), TrimSpace(c.subject));
    TrimTight(c.serviceId);
    TrimTight(c.subject);
    IssuerIsTight(cfg);
    assert Trust.ValidPrincipal(p);
    var q := Trust.Normalize(p);
    FieldsSurvive(c.scope, q.scopes);
    forall s ensures s in Fields(c.scope) <==> IsWord(c.scope, s) { FieldsExactly(c.scope, s); }
    return Ok(q);
  }

  lemma AcceptedTexts(cfg: Settings, c: TokenClaims, now: Time)
    requires Problem(cfg, c, now).None?
    ensures TrimSpace(c.serviceId) != "" && TrimSpace(c.subject) == "service:" + TrimSpace(c.serviceId)
    ensures TrimSpace(c.issuer) == Issuer(cfg) && Fields(c.scope) != []
  {
    hide TrimSpace, DateProblem, ClockProblem, Fields;
  }

  lemma IssuerIsTight(cfg: Settings)
    ensures Issuer(cfg) != "" && TrimSpace(Issuer(cfg)) == Issuer(cfg)
  {
    hide TrimSpace;
    TrimTight(cfg.issuer);
    assert Tight(DEFAULT_ISSUER) by { assert DEFAULT_ISSUER[0] == 'g' && DEFAULT_ISSUER[|DEFAULT_ISSUER| - 1] == 'y'; }
    TrimTight(DEFAULT_ISSUER);
  }

  /** Normalising the scopes of a token only sorts them and drops repetitions. */
  lemma FieldsSurvive(scope: string, out: seq<string>)
    requires Trust.IsUnique(Fields(scope), out)
    ensures forall s :: s in out <==> s in Fields(scope)
    ensures Fields(scope) != [] ==> out != []
  {
    hide Fields, TrimSpace;
    FieldsAreWords(scope);
    forall s ensures s in out <==> s in Fields(scope) {
      if s in Fields(scope) { TrimTight(s); }
      if s in out {
        var u :| u in Fields(scope) && TrimSpace(u) == s;
        TrimTight(u);
      }
    }
    if Fields(scope) != [] { assert Fields(scope)[0] in out; }
  }

  // ---------- the accepting interval ----------

  /** The accepting instants of a token form a closed interval, never wider than the longest
      life and twice the skew. It ends at exp and the skew, and starts at the later of iat and
      nbf less the skew. */
  lemma AcceptanceIsAnInterval(cfg: Settings, c: TokenClaims) returns (first: int, last: int)
    requires Otherwise(cfg, c)
    ensures forall now: Time :: Problem(cfg, c, now).None? <==> first <= now.instant <= last
    ensures last - first <= LongestLife(cfg) + 2 * Slack(cfg)
    ensures IsDate(c.expiresAt, Time(last - Slack(cfg), 0))
    ensures IsDate(c.issuedAt, Time(first + Slack(cfg), 0)) || IsDate(c.notBefore, Time(first + Slack(cfg), 0))
  {
    forall now: Time { AcceptedExactly(cfg, c, now); }
    var iat, exp :| HasDates(c, iat, exp) && 0 < exp.instant - iat.instant <= LongestLife(cfg);
    var start := iat;
    if c.notBefore != "" {
      var nbf :| IsDate(c.notBefore, nbf);
      if nbf.instant > iat.instant { start := nbf; }
    }
    first, last := start.instant - Slack(cfg), exp.instant + Slack(cfg);
    assert iat.offset == 0 && exp.offset == 0 && start.offset == 0;
    DatesOf(c);
    hide Problem, Otherwise, IsDate, NumericDate;
  }

  /** Two accepting instants are no further apart than that, and accept everything between. */
  lemma AcceptanceIsConvex(cfg: Settings, c: TokenClaims, a: Time, b: Time, between: Time)
    requires Problem(cfg, c, a).None? && Problem(cfg, c, b).None?
    requires a.instant <= between.instant <= b.instant
    ensures Problem(cfg, c, between).None?
    ensures b.instant - a.instant <= LongestLife(cfg) + 2 * Slack(cfg)
  {
    AcceptedExactly(cfg, c, a);
    hide Problem, Otherwise;
    var first, last := AcceptanceIsAnInterval(cfg, c);
  }
}
