/** Comparing node profiles (internal/orchestrator/node_host_move.go). */
module Profiles {
  import opened Names
  import opened Sorting

  /** A config profile UUID and the UUIDs of its active inbounds, as they come. */
  datatype Profile = Profile(uuid: string, inbounds: seq<string>)

  /** The values that are left after trimming, in their order. */
  function Trimmed(values: seq<string>): seq<string> {
    if values == [] then []
    else
      var last := TrimSpace(values[|values| - 1]);
      Trimmed(values[..|values| - 1]) + (if last != "" then [last] else [])
  }

  function StringLess(a: string, b: string): bool {
    Less(a, b)
  }

  function Canonical(values: seq<string>): seq<string> {
    Sort(Trimmed(values), StringLess)
  }

  /** Equal profiles: the same UUID and the same inbounds, however often each is
      listed, whatever the order and the surrounding blanks. */
  predicate Same(a: Profile, b: Profile) {
    TrimSpace(a.uuid) == TrimSpace(b.uuid) && multiset(Trimmed(a.inbounds)) == multiset(Trimmed(b.inbounds))
  }

  function Fingerprint(p: Profile): Profile {
    Profile(TrimSpace(p.uuid), Canonical(p.inbounds))
  }

  lemma StringsAreOrdered()
    ensures TotalOrder(StringLess)
  {
    forall a, b ensures StringLess(a, b) ==> !StringLess(b, a) {
      if Less(a, b) && Less(b, a) {
        LessTransitive(a, b, a);
        LessIrreflexive(a);
      }
    }
    forall a, b, c ensures StringLess(a, c) ==> StringLess(a, b) || StringLess(b, c) {
      if Less(a, c) && !Less(a, b) {
        LessTotal(a, b);
        if a != b {
          LessTransitive(b, a, c);
        }
      }
    }
    forall a, b ensures a != b ==> StringLess(a, b) || StringLess(b, a) {
      LessTotal(a, b);
    }
  }

  lemma TrimTwice(s: string)
    ensures TrimSpace(TrimSpace(s)) == TrimSpace(s)
  {
    TrimLeftFirst(s);
    TrimRightEnds(TrimLeft(s));
  }

  /** Values that are trimmed already stay as they are. */
  lemma {:induction false} TrimmedAlready(values: seq<string>)
    requires forall v :: v in values ==> v != "" && TrimSpace(v) == v
    ensures Trimmed(values) == values
  {
    if values != [] {
      var init := values[..|values| - 1];
      assert values == init + [values[|values| - 1]];
      assert forall v :: v in init ==> v in values;
      TrimmedAlready(init);
    }
  }

  lemma {:induction false} TrimmedValues(values: seq<string>)
    ensures forall v :: v in Trimmed(values) ==> v != "" && TrimSpace(v) == v
  {
    if values != [] {
      TrimmedValues(values[..|values| - 1]);
      TrimTwice(values[|values| - 1]);
    }
  }

  /** A fingerprint is the same profile. */
  lemma FingerprintIsSame(p: Profile)
    ensures Same(Fingerprint(p), p)
  {
    TrimTwice(p.uuid);
    StringsAreOrdered();
    SortKeeps(Trimmed(p.inbounds), StringLess);
    TrimmedValues(p.inbounds);
    forall v | v in Canonical(p.inbounds) ensures v in Trimmed(p.inbounds) {
      assert v in multiset(Canonical(p.inbounds));
    }
    TrimmedAlready(Canonical(p.inbounds));
  }

  method CanonicalUUIDs(values: seq<string>) returns (result: seq<string>)
    ensures result == Canonical(values)
  {
    result := [];
    for i := 0 to |values|
      invariant result == Trimmed(values[..i])
    {
      assert values[..i + 1][..i] == values[..i];
      var value := TrimSpace(values[i]);
      if value != "" {
        result := result + [value];
      }
    }
    assert values[..|values|] == values;
    result := Sort(result, StringLess);
  }

  method SameNodeProfile(left: Profile, right: Profile) returns (same: bool)
    ensures same <==> Same(left, right)
  {
    if TrimSpace(left.uuid) != TrimSpace(right.uuid) {
      return false;
    }
    var a := CanonicalUUIDs(left.inbounds);
    var b := CanonicalUUIDs(right.inbounds);
    StringsAreOrdered();
    SortedCopiesAgree(Trimmed(left.inbounds), Trimmed(right.inbounds), StringLess);
    same := SameStrings(a, b);
  }

  method SameStrings(a: seq<string>, b: seq<string>) returns (same: bool)
    ensures same <==> a == b
  {
    if |a| != |b| {
      return false;
    }
    for i := 0 to |a|
      invariant a[..i] == b[..i]
    {
      if a[i] != b[i] {
        return false;
      }
    }
    assert a[..|a|] == a && b[..|b|] == b;
    return true;
  }
}
