/** The domain lists that the hosts-file editor is given. */
module ManagedDomains {
  import opened Wrappers
  import opened Text
  import Hosts

  const MAX_DOMAINS: nat := 256

  predicate EndsWith(s: string, tail: string) {
    |tail| <= |s| && s[|s| - |tail|..] == tail
  }

  predicate ManagedLabel(part: string) {
    part != "" && part[0] != '-' && part[|part| - 1] != '-'
  }

  predicate ManagedDomain(domain: string) {
    && EndsWith(domain, ".test")
    && |domain| <= 253
    && (forall c :: c in domain ==> Hosts.ManagedChar(c))
    && (forall part :: part in Split(domain, '.') ==> ManagedLabel(part))
  }

  /** Byte-wise order of strings. */
  predicate Less(a: string, b: string) {
    b != "" && (a == "" || a[0] < b[0] || (a[0] == b[0] && Less(a[1..], b[1..])))
  }

  /** The order: the first difference decides, and a beginning comes first. */
  lemma {:induction false} LessIs(a: string, b: string, k: nat)
    requires k <= |a| && k <= |b| && a[..k] == b[..k]
    requires k < |a| && k < |b| ==> a[k] != b[k]
    ensures Less(a, b) <==> if k < |a| && k < |b| then a[k] < b[k] else k == |a| < |b|
  {
    if k > 0 {
      assert a[0] == a[..k][0] == b[..k][0] == b[0];
      assert a[1..][..k - 1] == a[..k][1..] == b[..k][1..] == b[1..][..k - 1];
      LessIs(a[1..], b[1..], k - 1);
    }
    if k == |a| == |b| {
      assert a == a[..k] && b == b[..k];
    }
  }

  lemma {:induction false} LessIrreflexive(a: string)
    ensures !Less(a, a)
  {
    if a != "" {
      LessIrreflexive(a[1..]);
    }
  }

  lemma {:induction false} LessTransitive(a: string, b: string, c: string)
    requires Less(a, b) && Less(b, c)
    ensures Less(a, c)
  {
    if a != "" && a[0] == b[0] == c[0] {
      LessTransitive(a[1..], b[1..], c[1..]);
    }
  }

  lemma {:induction false} LessTotal(a: string, b: string)
    ensures a == b || Less(a, b) || Less(b, a)
  {
    if a != "" && b != "" && a[0] == b[0] {
      LessTotal(a[1..], b[1..]);
      if a[1..] == b[1..] {
        assert a == [a[0]] + a[1..] && b == [b[0]] + b[1..];
      }
    }
  }

  ghost predicate Sorted(s: seq<string>) {
    forall i, j :: 0 <= i < j < |s| ==> s[i] == s[j] || Less(s[i], s[j])
  }

  ghost predicate StrictlySorted(s: seq<string>) {
    forall i, j :: 0 <= i < j < |s| ==> Less(s[i], s[j])
  }

  ghost predicate SameElements(a: seq<string>, b: seq<string>) {
    forall d :: d in a <==> d in b
  }

  /** A strictly sorted list is determined by its elements. */
  lemma {:induction false} StrictlySortedUnique(a: seq<string>, b: seq<string>)
    requires StrictlySorted(a) && StrictlySorted(b) && SameElements(a, b)
    ensures a == b
  {
    if a == [] || b == [] {
      Inhabited(a);
      Inhabited(b);
    } else {
      FirstIsLeast(a, b);
      FirstIsLeast(b, a);
      if a[0] != b[0] {
        LessTransitive(a[0], b[0], a[0]);
        LessIrreflexive(a[0]);
      }
      forall d
        ensures d in a[1..] <==> d in b[1..]
      {
        LessIrreflexive(a[0]);
        assert a == [a[0]] + a[1..] && b == [b[0]] + b[1..];
        assert a[0] !in a[1..] && b[0] !in b[1..];
        assert d in a <==> d in b;
      }
      StrictlySortedUnique(a[1..], b[1..]);
      assert a == [a[0]] + a[1..] && b == [b[0]] + b[1..];
    }
  }

  lemma FirstIsLeast(a: seq<string>, b: seq<string>)
    requires StrictlySorted(a) && SameElements(a, b) && a != [] && b != []
    ensures a[0] == b[0] || Less(a[0], b[0])
  {
    assert b[0] in a;
  }

  /** Inserts one name into a sorted list, before the first name that is not less. */
  method InsertSorted(s: seq<string>, d: string) returns (r: seq<string>)
    requires Sorted(s)
    ensures Sorted(r) && multiset(r) == multiset(s) + multiset{d}
  {
    var k := 0;
    while k < |s| && Less(s[k], d)
      invariant 0 <= k <= |s|
      invariant forall i :: 0 <= i < k ==> Less(s[i], d)
    {
      k := k + 1;
    }
    forall i | k <= i < |s|
      ensures d == s[i] || Less(d, s[i])
    {
      LessTotal(s[k], d);
      if s[k] != s[i] && d != s[k] {
        LessTransitive(d, s[k], s[i]);
      }
    }
    r := s[..k] + [d] + s[k..];
    InsertedSorted(s, k, d);
  }

  lemma InsertedSorted(s: seq<string>, k: nat, d: string)
    requires Sorted(s) && k <= |s|
    requires forall i :: 0 <= i < k ==> Less(s[i], d)
    requires forall i :: k <= i < |s| ==> d == s[i] || Less(d, s[i])
    ensures Sorted(s[..k] + [d] + s[k..]) && multiset(s[..k] + [d] + s[k..]) == multiset(s) + multiset{d}
  {
    assert s == s[..k] + s[k..];
    var r := s[..k] + [d] + s[k..];
    forall i, j | 0 <= i < j < |r|
      ensures r[i] == r[j] || Less(r[i], r[j])
    {
      assert r[i] == if i < k then s[i] else if i == k then d else s[i - 1];
      assert r[j] == if j < k then s[j] else if j == k then d else s[j - 1];
    }
  }

  method Sort(domains: seq<string>) returns (r: seq<string>)
    ensures Sorted(r) && multiset(r) == multiset(domains)
  {
    r := [];
    for k := 0 to |domains|
      invariant Sorted(r) && multiset(r) == multiset(domains[..k])
    {
      assert domains[..k + 1] == domains[..k] + [domains[k]];
      r := InsertSorted(r, domains[k]);
    }
    assert domains[..|domains|] == domains;
  }

  /** Keeps the first of each group of equal neighbours. */
  method Dedup(s: seq<string>) returns (r: seq<string>)
    requires Sorted(s)
    ensures StrictlySorted(r) && SameElements(r, s)
  {
    r := [];
    for k := 0 to |s|
      invariant StrictlySorted(r)
      invariant SameElements(r, s[..k])
      invariant if k == 0 then r == [] else r != [] && r[|r| - 1] == s[k - 1]
    {
      assert s[..k + 1] == s[..k] + [s[k]];
      if r == [] || r[|r| - 1] != s[k] {
        assert k > 0 ==> Less(s[k - 1], s[k]);
        forall i | 0 <= i < |r|
          ensures Less(r[i], s[k])
        {
          if i < |r| - 1 {
            LessTransitive(r[i], r[|r| - 1], s[k]);
          }
        }
        r := r + [s[k]];
      }
    }
    assert s[..|s|] == s;
  }

  /** Succeeds exactly on at most 256 valid names, and then yields the one strictly sorted list that
      has their names. */
  method NormalizeDomains(domains: seq<string>) returns (r: Option<seq<string>>)
    ensures r.Some? <==> |domains| <= MAX_DOMAINS && forall d :: d in domains ==> ManagedDomain(d)
    ensures r.Some? ==> StrictlySorted(r.value) && SameElements(r.value, domains) && Hosts.PlainDomains(r.value)
  {
    if |domains| > MAX_DOMAINS {
      return None;
    }
    var sorted := Sort(domains);
    var normalized := Dedup(sorted);
    assert forall d :: d in domains <==> d in normalized by {
      forall d
        ensures d in domains <==> d in normalized
      {
        assert d in domains <==> d in multiset(domains);
        assert d in sorted <==> d in multiset(sorted);
      }
    }
    for k := 0 to |normalized|
      invariant forall i :: 0 <= i < k ==> ManagedDomain(normalized[i])
    {
      if !ManagedDomain(normalized[k]) {
        return None;
      }
    }
    return Some(normalized);
  }
}
