/** Verified service principals, and the one place that turns lists of names into
    sorted lists of distinct, trimmed, non-empty names. */
module Trust {
  import opened Text
  import Sorting

  datatype Principal = Principal(serviceId: string, scopes: seq<string>, issuer: string, subject: string)

  // ---------- trim, drop blanks, deduplicate, sort ----------

  /** The values that survive trimming. */
  ghost function TrimmedValues(items: seq<string>): set<string> {
    set s | s in items && TrimSpace(s) != "" :: TrimSpace(s)
  }

  lemma LessIsOrder()
    ensures Sorting.IsStrictOrder(Less)
  {
    forall a ensures !Less(a, a) { LessIrreflexive(a); }
    forall a, b, c | Less(a, b) && Less(b, c) ensures Less(a, c) { LessTransitive(a, b, c); }
  }

  lemma SortDistinct(s: seq<string>)
    requires forall i, j :: 0 <= i < j < |s| ==> s[i] != s[j]
    ensures Sorting.Sorted(Less, Sorting.Sort(Less, s)) && Sorting.SameElements(Sorting.Sort(Less, s), s)
  {
    LessIsOrder();
    forall i, j | 0 <= i < j < |s| ensures Less(s[i], s[j]) || Less(s[j], s[i]) { LessTotal(s[i], s[j]); }
    Sorting.SortSorts(Less, s);
  }

  /** The strictly sorted list of the distinct, trimmed, non-empty entries of items. */
  ghost predicate IsUnique(items: seq<string>, out: seq<string>) {
    && Sorting.Sorted(Less, out)
    && forall s :: s in out <==> s in TrimmedValues(items)
  }

  /** unique in mesh.go and the scope loop of trust.go: the same code. */
  method Unique(items: seq<string>) returns (out: seq<string>)
    ensures IsUnique(items, out)
    ensures forall i :: 0 <= i < |out| ==> out[i] != "" && Tight(out[i])
  {
    var seen: set<string> := {};
    out := [];
    for i := 0 to |items|
      invariant forall s :: s in out <==> s in seen
      invariant forall j, k :: 0 <= j < k < |out| ==> out[j] != out[k]
      invariant forall s :: s in seen <==> s in TrimmedValues(items[..i])
    {
      var v := TrimSpace(items[i]);
      assert forall s :: s in TrimmedValues(items[..i + 1]) <==> s in TrimmedValues(items[..i]) || (v != "" && s == v) by {
        assert forall s :: s in items[..i + 1] <==> s in items[..i] || s == items[i];
      }
      if v == "" || v in seen {
        continue;
      }
      seen := seen + {v};
      out := out + [v];
    }
    assert items[..|items|] == items;
    SortDistinct(out);
    out := Sorting.Sort(Less, out);
    forall i | 0 <= i < |out| ensures out[i] != "" && Tight(out[i]) {
      assert out[i] in TrimmedValues(items);
      var s :| s in items && TrimSpace(s) == out[i];
      TrimTight(s);
    }
  }

  /** The result is fixed by the entries, and doing it twice changes nothing. */
  lemma UniqueIsCanonical(items: seq<string>, out: seq<string>, again: seq<string>)
    requires IsUnique(items, out) && IsUnique(out, again)
    ensures again == out
  {
    forall s ensures s in again <==> s in out {
      if s in out { SurvivorsAreTight(items, s); TrimTight(s); }
      if s in again {
        var u :| u in out && TrimSpace(u) == s;
        SurvivorsAreTight(items, u);
        TrimTight(u);
      }
    }
    LessIsOrder();
    assert Sorting.SameElements(again, out);
    Sorting.SortedUnique(Less, again, out);
  }

  lemma SurvivorsAreTight(items: seq<string>, s: string)
    requires s in TrimmedValues(items)
    ensures s != "" && Tight(s)
  {
    var u :| u in items && TrimSpace(u) == s;
    TrimTight(u);
  }

  // ---------- principals ----------

  /** normalize */
  method Normalize(p: Principal) returns (q: Principal)
    ensures q.serviceId == TrimSpace(p.serviceId) && q.issuer == TrimSpace(p.issuer) && q.subject == TrimSpace(p.subject)
    ensures IsUnique(p.scopes, q.scopes)
  {
    var scopes := Unique(p.scopes);
    q := Principal(TrimSpace(p.serviceId), scopes, TrimSpace(p.issuer), TrimSpace(p.subject));
  }

  /** HasScope: an empty question is always refused. */
  method HasScope(p: Principal, scope: string) returns (found: bool)
    ensures found <==> TrimSpace(scope) != "" && TrimSpace(scope) in p.scopes
  {
    var wanted := TrimSpace(scope);
    if wanted == "" {
      return false;
    }
    for i := 0 to |p.scopes|
      invariant wanted !in p.scopes[..i]
    {
      if p.scopes[i] == wanted {
        return true;
      }
    }
    assert p.scopes[..|p.scopes|] == p.scopes;
    return false;
  }

  /** A scope that any spelling of the list grants is granted after normalisation, and
      no other is: normalising neither adds nor loses a permission. */
  lemma NormalizedScopes(scopes: seq<string>, out: seq<string>, scope: string)
    requires IsUnique(scopes, out)
    ensures TrimSpace(scope) != "" ==>
              (TrimSpace(scope) in out <==> exists s :: s in scopes && TrimSpace(s) == TrimSpace(scope))
  {
  }

  predicate ValidPrincipal(p: Principal) {
    TrimSpace(p.serviceId) != "" && TrimSpace(p.issuer) != ""
  }
}
