/** The fixed tables that say which repository, authority domains and contracts belong
    to which evidence producer. */
module Authority {
  import opened Wrappers

  /** A producer id: one of the six known ones, or any other text. */
  datatype System = Mesh | Identity | GlazeUI | Wardveil | PrivacyShield | Everkeep | Foreign(name: string)

  /** The id as text: the JSON value, the service id of its principal, the sort key. */
  function Name(system: System): string {
    match system
    case Mesh => "goreecloud-mesh"
    case Identity => "goreecloud-identity"
    case GlazeUI => "glaze-ui"
    case Wardveil => "wardveil-security"
    case PrivacyShield => "privacy-shield"
    case Everkeep => "everkeep"
    case Foreign(name) => name
  }

  function RepositoryOf(system: System): Option<string> {
    match system
    case Mesh => Some("GoreeCloud/goreecloud-mesh")
    case Identity => Some("GoreeCloud/goreecloud-identity")
    case GlazeUI => Some("GoreeCloud/goreecloud-glaze-ui")
    case Wardveil => Some("GoreeCloud/goreecloud-wardveil-security")
    case PrivacyShield => Some("GoreeCloud/goreecloud-privacy-shield")
    case Everkeep => Some("GoreeCloud/goreecloud-everkeep")
    case Foreign(_) => None
  }

  function DomainsOf(system: System): seq<string> {
    match system
    case Mesh => ["coordination", "governance"]
    case Identity =>
      ["identity", "authentication", "authorization", "accounts", "devices", "credentials", "sessions", "delegated-authority"]
    case GlazeUI => ["presentation", "design-conformance"]
    case Wardveil => ["security"]
    case PrivacyShield => ["privacy"]
    case Everkeep => ["resilience", "recovery", "preservation", "continuity"]
    case Foreign(_) => []
  }

  function ContractPrefixes(system: System): seq<string> {
    match system
    case Mesh => ["contracts/mesh."]
    case Identity => ["contracts/identity."]
    case Wardveil => ["contracts/wardveil."]
    case PrivacyShield => ["contracts/privacy-shield."]
    case Everkeep => ["contracts/everkeep."]
    case _ => []
  }

  const GLAZE_CONTRACTS: seq<string> :=
    ["CONFORMANCE.md", "EVIDENCE_PRESENTATION.md", "tokens/enforcement.json", "tokens/evidence-presentation.json"]

  predicate ContractAllowed(system: System, contract: string) {
    if system == GlazeUI then contract in GLAZE_CONTRACTS
    else exists prefix :: prefix in ContractPrefixes(system) && prefix <= contract
  }

  // ---------- who may say what ----------

  /** The only producer whose table can contain the domain, read off a few letters. */
  function DomainOwner(domain: string): System {
    if |domain| < 7 then Foreign("")
    else if domain[0] == 'g' || (domain[0] == 'c' && domain[1] == 'o' && domain[2] == 'o') then Mesh
    else if domain[0] == 'r' || (domain[0] == 'c' && domain[1] == 'o') then Everkeep
    else if domain[0] == 'p' then
      if domain[2] == 'i' then PrivacyShield else if domain[5] == 'n' then GlazeUI else Everkeep
    else if domain[0] == 'd' && domain[2] == 's' then GlazeUI
    else if domain[0] == 's' && domain[2] == 'c' then Wardveil
    else Identity
  }

  /** The letter that tells the contract strings apart. */
  function ContractOwner(contract: string): System {
    if |contract| < 11 || contract[0] != 'c' then GlazeUI
    else if contract[10] == 'm' then Mesh
    else if contract[10] == 'i' then Identity
    else if contract[10] == 'w' then Wardveil
    else if contract[10] == 'p' then PrivacyShield
    else Everkeep
  }

  lemma IdentityDomain(domain: string)
    requires domain in DomainsOf(Identity)
    ensures DomainOwner(domain) == Identity
  {
    var i :| 0 <= i < |DomainsOf(Identity)| && DomainsOf(Identity)[i] == domain;
  }

  lemma DomainNamesOwner(system: System, domain: string)
    ensures domain in DomainsOf(system) ==> system == DomainOwner(domain)
  {
    if domain in DomainsOf(system) {
      if system == Identity {
        hide DomainsOf, DomainOwner;
        IdentityDomain(domain);
      } else {
        var i :| 0 <= i < |DomainsOf(system)| && DomainsOf(system)[i] == domain;
        assert i <= 3;
      }
    }
  }

  lemma ContractNamesOwner(system: System, contract: string)
    ensures ContractAllowed(system, contract) ==> system == ContractOwner(contract)
  {
    hide DomainsOf;
    if ContractAllowed(system, contract) && system != GlazeUI {
      var prefix :| prefix in ContractPrefixes(system) && prefix <= contract;
      assert contract[0] == prefix[0] && contract[10] == prefix[10];
    }
  }

  /** No authority domain and no contract string is accepted from two producers. */
  lemma AuthorityIsExclusive(a: System, b: System, domain: string, contract: string)
    ensures domain in DomainsOf(a) && domain in DomainsOf(b) ==> a == b
    ensures ContractAllowed(a, contract) && ContractAllowed(b, contract) ==> a == b
  {
    hide DomainsOf, ContractAllowed, DomainOwner, ContractOwner;
    DomainNamesOwner(a, domain);
    DomainNamesOwner(b, domain);
    ContractNamesOwner(a, contract);
    ContractNamesOwner(b, contract);
  }

  /** The names of the known producers hold no NUL. */
  lemma NameHasNoNul(system: System, i: nat)
    requires !system.Foreign? && i < |Name(system)|
    ensures Name(system)[i] != '\0'
  {
  }

  // ---------- the same tables, line by line ----------

  const PRODUCERS: seq<(System, string, string)> := [
    (Mesh, "goreecloud-mesh", "GoreeCloud/goreecloud-mesh"),
    (Identity, "goreecloud-identity", "GoreeCloud/goreecloud-identity"),
    (GlazeUI, "glaze-ui", "GoreeCloud/goreecloud-glaze-ui"),
    (Wardveil, "wardveil-security", "GoreeCloud/goreecloud-wardveil-security"),
    (PrivacyShield, "privacy-shield", "GoreeCloud/goreecloud-privacy-shield"),
    (Everkeep, "everkeep", "GoreeCloud/goreecloud-everkeep")]

  const DOMAINS: seq<(System, string)> := [
    (Mesh, "coordination"), (Mesh, "governance"),
    (Identity, "identity"), (Identity, "authentication"), (Identity, "authorization"), (Identity, "accounts"),
    (Identity, "devices"), (Identity, "credentials"), (Identity, "sessions"), (Identity, "delegated-authority"),
    (GlazeUI, "presentation"), (GlazeUI, "design-conformance"), (Wardveil, "security"), (PrivacyShield, "privacy"),
    (Everkeep, "resilience"), (Everkeep, "recovery"), (Everkeep, "preservation"), (Everkeep, "continuity")]

  lemma ProducersAreListed(system: System, name: string, repository: string)
    ensures (system, name, repository) in PRODUCERS <==>
            !system.Foreign? && name == Name(system) && RepositoryOf(system) == Some(repository)
  {
    assert |PRODUCERS| == 6;
    if !system.Foreign? && name == Name(system) && RepositoryOf(system) == Some(repository) {
      var i := Position(system);
      assert PRODUCERS[i] == (system, name, repository);
    }
  }

  function Position(system: System): nat
    requires !system.Foreign?
  {
    match system case Mesh => 0 case Identity => 1 case GlazeUI => 2 case Wardveil => 3 case PrivacyShield => 4 case _ => 5
  }

  /** Where the lines of a producer start in the list of domains. */
  function FirstLine(system: System): nat
    requires !system.Foreign?
  {
    match system case Mesh => 0 case Identity => 2 case GlazeUI => 10 case Wardveil => 12 case PrivacyShield => 13 case _ => 14
  }

  lemma DomainLines(system: System, i: nat)
    requires !system.Foreign? && i < |DomainsOf(system)|
    ensures FirstLine(system) + i < |DOMAINS| && DOMAINS[FirstLine(system) + i] == (system, DomainsOf(system)[i])
    ensures |DOMAINS| == 18
  {
  }

  lemma DomainLine(k: nat)
    requires k < |DOMAINS|
    ensures var system := DOMAINS[k].0;
            !system.Foreign? && FirstLine(system) <= k < FirstLine(system) + |DomainsOf(system)|
  {
  }

  lemma DomainsAreListed(system: System, domain: string)
    ensures (system, domain) in DOMAINS <==> domain in DomainsOf(system)
  {
    if domain in DomainsOf(system) {
      var i :| 0 <= i < |DomainsOf(system)| && DomainsOf(system)[i] == domain;
      DomainLines(system, i);
    }
    if (system, domain) in DOMAINS {
      var k :| 0 <= k < |DOMAINS| && DOMAINS[k] == (system, domain);
      DomainLine(k);
      DomainLines(system, k - FirstLine(system));
    }
    hide DomainsOf, FirstLine, DOMAINS;
  }

  /** A contract is one of the producer's: a file of its own name space, or one of the four of
      Glaze UI. */
  lemma ContractsAreListed(system: System, contract: string)
    ensures ContractAllowed(system, contract) <==>
            || (system == Mesh && "contracts/mesh." <= contract)
            || (system == Identity && "contracts/identity." <= contract)
            || (system == Wardveil && "contracts/wardveil." <= contract)
            || (system == PrivacyShield && "contracts/privacy-shield." <= contract)
            || (system == Everkeep && "contracts/everkeep." <= contract)
            || (system == GlazeUI && contract in ["CONFORMANCE.md", "EVIDENCE_PRESENTATION.md",
                                                  "tokens/enforcement.json", "tokens/evidence-presentation.json"])
  {
    if !system.GlazeUI? && !system.Foreign? {
      var prefixes := ContractPrefixes(system);
      assert |prefixes| == 1 && prefixes[0] in prefixes;
    }
  }
}
