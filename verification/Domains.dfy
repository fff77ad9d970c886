/** Lower case and the normal form of a `.test` domain. */
module Domains {
  import opened Wrappers
  import opened Text
  import Hosts
  import ManagedDomains

  function TrimEndOf(s: string, c: char): string {
    if s != "" && s[|s| - 1] == c then TrimEndOf(s[..|s| - 1], c) else s
  }

  predicate LabelChar(c: char) {
    'a' <= c <= 'z' || 'A' <= c <= 'Z' || '0' <= c <= '9' || c == '-'
  }

  predicate IsLabel(s: string) {
    && 0 < |s| <= 63 && s[0] != '-' && s[|s| - 1] != '-'
    && forall i :: 0 <= i < |s| ==> LabelChar(s[i])
  }

  predicate IsDomain(s: string) {
    && ManagedDomains.EndsWith(s, ".test") && |s| <= 253
    && var labels := Split(s, '.');
       forall i :: 0 <= i < |labels| ==> IsLabel(labels[i])
  }

  function NormalizeDomain(value: string): Option<string> {
    var domain := Lower(TrimEndOf(Trim(value), '.'));
    if IsDomain(domain) then Some(domain) else None
  }

  /** A normal form is its own normal form. */
  lemma NormalizeIdempotent(value: string)
    requires NormalizeDomain(value).Some?
    ensures NormalizeDomain(NormalizeDomain(value).value) == NormalizeDomain(value)
  {
    var d := NormalizeDomain(value).value;
    assert d[|d| - 1] == ".test"[4] == 't';
    assert IsLabel(Split(d, '.')[0]);
    assert !IsSpace(d[0]);
    assert TrimStart(d) == d && TrimEnd(d) == d && TrimEndOf(d, '.') == d;
    assert Lower(d) == d;
  }

  /** A domain, said position by position: the characters, what stands beside a dot, and that no 64
      characters go without one. */
  ghost predicate DomainText(d: string) {
    && ManagedDomains.EndsWith(d, ".test") && |d| <= 253
    && (forall c :: c in d ==> c in LOWERCASE || c in UPPERCASE || c in DIGITS || c == '-' || c == '.')
    && d[0] != '.' && d[0] != '-'
    && (forall i :: 0 <= i && i + 1 < |d| ==>
          (d[i] == '.' ==> d[i + 1] != '.' && d[i + 1] != '-') && (d[i + 1] == '.' ==> d[i] != '-'))
    && (forall i :: 0 <= i <= |d| - 64 ==> DotWithin(d, i))
  }

  ghost predicate DotWithin(d: string, i: nat)
    requires i + 64 <= |d|
  {
    exists j :: i <= j < i + 64 && d[j] == '.'
  }

  lemma DomainIs(d: string)
    ensures IsDomain(d) <==> DomainText(d)
  {
    Ranges();
    if IsDomain(d) {
      DomainHasText(d);
    }
    if DomainText(d) {
      TextIsDomain(d);
    }
  }

  lemma LabelAround(d: string, p: nat) returns (a: nat, b: nat)
    requires IsDomain(d) && p <= |d|
    ensures a <= p <= b && IsPiece(d, '.', a, b) && IsLabel(d[a..b])
    ensures forall i :: a <= i < b ==> LabelChar(d[i])
    ensures d[a] != '-' && d[b - 1] != '-'
  {
    a, b := PieceAround(d, '.', p);
    var k := PieceIndex(d, '.', a, b);
    assert forall i :: a <= i < b ==> d[i] == d[a..b][i - a];
  }

  lemma DomainHasText(d: string)
    requires IsDomain(d)
    ensures DomainText(d)
  {
    Ranges();
    forall c | c in d
      ensures LabelChar(c) || c == '.'
    {
      var i :| 0 <= i < |d| && d[i] == c;
      var a, b := LabelAround(d, i);
    }
    forall i | 0 <= i && i + 1 < |d|
      ensures d[i] == '.' ==> d[i + 1] != '.' && d[i + 1] != '-'
      ensures d[i + 1] == '.' ==> d[i] != '-'
    {
      var a, b := LabelAround(d, i + 1);
    }
    forall i | 0 <= i <= |d| - 64
      ensures DotWithin(d, i)
    {
      var a, b := LabelAround(d, i);
      assert d[b] == '.';
    }
    var a, b := LabelAround(d, 0);
  }

  lemma TextIsDomain(d: string)
    requires DomainText(d)
    ensures IsDomain(d)
  {
    Ranges();
    var labels := Split(d, '.');
    assert d[|d| - 1] == ".test"[4] == 't';
    forall k | 0 <= k < |labels|
      ensures IsLabel(labels[k])
    {
      var a, b := PieceAt(d, '.', k);
      assert a < b;
      if a <= |d| - 64 {
        assert DotWithin(d, a);
      }
      forall i | a <= i < b
        ensures LabelChar(d[i])
      {
        assert d[i] in d;
      }
    }
  }

  /** A normal form is what is left of the text without white space around it and dots behind it, in lower
      case, if that is a domain. */
  lemma NormalizeIs(value: string, i: nat, j: nat, k: nat)
    requires i <= k <= j <= |value| && AllSpace(value[..i]) && AllSpace(value[j..])
    requires i < j ==> !IsSpace(value[i]) && !IsSpace(value[j - 1])
    requires (forall x :: k <= x < j ==> value[x] == '.') && (i < k ==> value[k - 1] != '.')
    ensures NormalizeDomain(value) ==
      if DomainText(Lower(value[i..k])) then Some(Lower(value[i..k])) else None
  {
    TrimIs(value, i, j);
    TrimEndOfIs(value[i..j], '.', k - i);
    assert value[i..j][..k - i] == value[i..k];
    DomainIs(Lower(value[i..k]));
  }

  lemma {:induction false} TrimEndOfIs(s: string, c: char, k: nat)
    requires k <= |s| && (forall x :: k <= x < |s| ==> s[x] == c) && (k > 0 ==> s[k - 1] != c)
    ensures TrimEndOf(s, c) == s[..k]
  {
    if k < |s| {
      TrimEndOfIs(s[..|s| - 1], c, k);
    } else {
      assert s[..k] == s;
    }
  }

  lemma InLabel(d: string, i: nat) returns (k: nat)
    requires i < |d| && d[i] != '.'
    ensures k < |Split(d, '.')| && d[i] in Split(d, '.')[k]
  {
    var a, b := PieceAround(d, '.', i);
    k := PieceIndex(d, '.', a, b);
    assert d[a..b][i - a] == d[i];
  }

  lemma InText(d: string, k: nat, i: nat)
    requires k < |Split(d, '.')| && i < |Split(d, '.')[k]|
    ensures Split(d, '.')[k][i] in d
  {
    var a, b := PieceAt(d, '.', k);
    assert d[a + i] == Split(d, '.')[k][i];
  }

  lemma DomainIsManaged(d: string)
    requires IsDomain(d) && Lower(d) == d
    ensures ManagedDomains.ManagedDomain(d)
  {
    forall c | c in d
      ensures Hosts.ManagedChar(c)
    {
      var i :| 0 <= i < |d| && d[i] == c;
      assert LowerChar(c) == Lower(d)[i] == c;
      if c != '.' {
        var k := InLabel(d, i);
        assert LabelChar(c);
      }
    }
  }

  lemma ManagedIsDomain(d: string)
    requires ManagedDomains.ManagedDomain(d) && forall part :: part in Split(d, '.') ==> |part| <= 63
    ensures IsDomain(d) && Lower(d) == d
  {
    var labels := Split(d, '.');
    forall k | 0 <= k < |labels|
      ensures IsLabel(labels[k])
    {
      assert labels[k] in labels;
      forall i | 0 <= i < |labels[k]|
        ensures LabelChar(labels[k][i])
      {
        InText(d, k, i);
        assert labels[k][i] in labels[k];
      }
    }
    forall i | 0 <= i < |d|
      ensures LowerChar(d[i]) == d[i]
    {
      assert d[i] in d;
    }
    assert Lower(d) == d;
  }

  /** The hosts-file helper takes every normalized domain, and of other names only those with a label that
      is too long. */
  lemma ManagedIs(d: string)
    ensures IsDomain(d) && Lower(d) == d <==>
            ManagedDomains.ManagedDomain(d) && forall part :: part in Split(d, '.') ==> |part| <= 63
  {
    if IsDomain(d) && Lower(d) == d {
      DomainIsManaged(d);
    }
    if ManagedDomains.ManagedDomain(d) && forall part :: part in Split(d, '.') ==> |part| <= 63 {
      ManagedIsDomain(d);
    }
  }
}
