/** String searching, trimming and splitting, with the facts about concatenation that the managed
    blocks rest on. */
module Text {
  import opened Wrappers

  // ---- searching ----

  /** `m` occurs in `s` at position `i`. */
  predicate At(s: string, m: string, i: int) {
    0 <= i && i + |m| <= |s| && s[i..i + |m|] == m
  }

  /** `m` occurs nowhere in `s`. */
  ghost predicate Free(s: string, m: string) {
    forall i :: !At(s, m, i)
  }

  predicate FirstAt(s: string, m: string, i: int) {
    At(s, m, i) && forall j :: 0 <= j < i ==> !At(s, m, j)
  }

  lemma {:induction false} FirstExists(s: string, m: string, i: nat)
    requires At(s, m, i)
    ensures exists k :: 0 <= k <= |s| && FirstAt(s, m, k)
  {
    if j :| 0 <= j < i && At(s, m, j) {
      FirstExists(s, m, j);
    } else {
      assert FirstAt(s, m, i);
    }
  }

  /** Position of the first occurrence. */
  function Find(s: string, m: string): (r: Option<nat>)
    ensures r.None? <==> Free(s, m)
    ensures r.Some? ==> FirstAt(s, m, r.value)
  {
    if exists k :: 0 <= k <= |s| && FirstAt(s, m, k) then
      var k :| 0 <= k <= |s| && FirstAt(s, m, k);
      Some(k)
    else
      assert Free(s, m) by {
        if i :| At(s, m, i) {
          FirstExists(s, m, i);
        }
      }
      None
  }

  predicate Contains(s: string, m: string) {
    Find(s, m).Some?
  }

  lemma Inhabited<T>(s: seq<T>)
    ensures s == [] || exists x :: x in s
  {
    if s != [] {
      assert s[0] in s;
    }
  }

  lemma AtChar(s: string, m: string, i: int, k: nat)
    requires At(s, m, i) && k < |m|
    ensures i + k < |s| && s[i + k] == m[k]
  {
    assert s[i..i + |m|][k] == s[i + k];
  }

  /** The first occurrence is the only candidate that nothing precedes. */
  lemma FindIs(s: string, m: string, i: nat)
    requires At(s, m, i) && forall j :: 0 <= j < i ==> !At(s, m, j)
    ensures Find(s, m) == Some(i)
  {
  }

  lemma Assoc(a: string, b: string, c: string)
    ensures a + (b + c) == a + b + c
  {
  }

  lemma Slices(a: string, m: string, c: string)
    ensures (a + m + c)[..|a|] == a && (a + m + c)[|a| + |m|..] == c
  {
  }

  lemma AtPiece(a: string, b: string, c: string, m: string, i: int)
    requires |a| <= i && i + |m| <= |a| + |b|
    ensures At(a + b + c, m, i) <==> At(b, m, i - |a|)
  {
    var s := a + b + c;
    assert s[i..i + |m|] == b[i - |a|..i - |a| + |m|];
  }

  lemma AtLeft(a: string, b: string, m: string, i: int)
    requires 0 <= i && i + |m| <= |a|
    ensures At(a + b, m, i) <==> At(a, m, i)
  {
    assert (a + b)[i..i + |m|] == a[i..i + |m|];
  }

  lemma AtRight(a: string, b: string, m: string, i: int)
    requires |a| <= i
    ensures At(a + b, m, i) <==> At(b, m, i - |a|)
  {
    if i + |m| <= |a| + |b| {
      assert (a + b)[i..i + |m|] == b[i - |a|..i - |a| + |m|];
    }
  }

  lemma FreePiece(a: string, b: string, c: string, m: string)
    requires Free(a + b + c, m)
    ensures Free(b, m)
  {
    forall i
      ensures !At(b, m, i)
    {
      if 0 <= i && i + |m| <= |b| {
        AtPiece(a, b, c, m, i + |a|);
      }
    }
  }

  /** A character that the marker lacks separates the two sides of a concatenation. */
  lemma NoStraddle(a: string, b: string, m: string, i: int)
    requires (b != "" && b[0] !in m) || (a != "" && a[|a| - 1] !in m)
    requires 0 <= i < |a| < i + |m|
    ensures !At(a + b, m, i)
  {
    if At(a + b, m, i) {
      if b != "" && b[0] !in m {
        AtChar(a + b, m, i, |a| - i);
      } else {
        AtChar(a + b, m, i, |a| - 1 - i);
      }
    }
  }

  lemma FreeJoin(a: string, b: string, m: string)
    requires Free(a, m) && Free(b, m) && m != ""
    requires a == "" || b == "" || b[0] !in m || a[|a| - 1] !in m
    ensures Free(a + b, m)
  {
    if a == "" {
      assert a + b == b;
    } else if b == "" {
      assert a + b == a;
    } else {
      forall i
        ensures !At(a + b, m, i)
      {
        if 0 <= i {
          if i + |m| <= |a| {
            AtLeft(a, b, m, i);
          } else if |a| <= i {
            AtRight(a, b, m, i);
          } else {
            NoStraddle(a, b, m, i);
          }
        }
      }
    }
  }

  /** The first occurrence in `a + m + c` is the one in the middle: nothing before it, and none that
      starts in `a` and ends in `m`. */
  lemma FindMiddle(a: string, m: string, c: string)
    requires Free(a, m) && m != ""
    requires a == "" || a[|a| - 1] !in m || (forall k :: 0 < k < |m| ==> m[k] != m[0])
    ensures Find(a + m + c, m) == Some(|a|)
  {
    var s := a + m + c;
    AtPiece(a, m, c, m, |a|);
    assert At(m, m, 0);
    forall j | 0 <= j < |a|
      ensures !At(s, m, j)
    {
      assert s == a + (m + c);
      if j + |m| <= |a| {
        AtLeft(a, m + c, m, j);
      } else if a[|a| - 1] !in m {
        NoStraddle(a, m + c, m, j);
      } else if At(s, m, j) {
        AtChar(s, m, |a|, 0);
        AtChar(s, m, j, |a| - j);
      }
    }
    FindIs(s, m, |a|);
  }

  /** One line that starts with the only `#` it has. */
  ghost predicate IsMarker(m: string) {
    && m != "" && m[0] == '#'
    && (forall k :: 0 < k < |m| ==> m[k] != '#' && m[k] != '\r' && m[k] != '\n')
  }

  // ---- white space, letters and digits (ASCII) ----

  predicate IsSpace(c: char) {
    c == ' ' || '\t' <= c <= '\r'
  }

  function TrimStart(s: string): string {
    if s != "" && IsSpace(s[0]) then TrimStart(s[1..]) else s
  }

  function TrimEnd(s: string): string {
    if s != "" && IsSpace(s[|s| - 1]) then TrimEnd(s[..|s| - 1]) else s
  }

  function Trim(s: string): string {
    TrimEnd(TrimStart(s))
  }

  lemma SpaceIs(c: char)
    ensures IsSpace(c) <==> c as int in {9, 10, 11, 12, 13, 32}
  {
  }

  ghost predicate AllSpace(s: string) {
    forall c :: c in s ==> IsSpace(c)
  }

  lemma {:induction false} TrimStartAt(s: string, i: nat)
    requires i <= |s| && AllSpace(s[..i]) && (i < |s| ==> !IsSpace(s[i]))
    ensures TrimStart(s) == s[i..]
  {
    if i > 0 {
      assert s[..i][0] == s[0];
      assert forall c :: c in s[1..][..i - 1] ==> c in s[..i];
      TrimStartAt(s[1..], i - 1);
    }
  }

  lemma {:induction false} TrimEndAt(s: string, j: nat)
    requires j <= |s| && AllSpace(s[j..]) && (j > 0 ==> !IsSpace(s[j - 1]))
    ensures TrimEnd(s) == s[..j]
  {
    if j < |s| {
      assert s[j..][|s| - 1 - j] == s[|s| - 1];
      assert forall c :: c in s[..|s| - 1][j..] ==> c in s[j..];
      TrimEndAt(s[..|s| - 1], j);
    } else {
      assert s[..j] == s;
    }
  }

  /** Trimming cuts off white space at both ends and nothing else. */
  lemma TrimIs(s: string, i: nat, j: nat)
    requires i <= j <= |s| && AllSpace(s[..i]) && AllSpace(s[j..])
    requires i < j ==> !IsSpace(s[i]) && !IsSpace(s[j - 1])
    ensures Trim(s) == s[i..j]
  {
    if i < j {
      TrimStartAt(s, i);
      assert s[i..][j - i..] == s[j..];
      TrimEndAt(s[i..], j - i);
      assert s[i..][..j - i] == s[i..j];
    } else {
      assert s == s[..i] + s[j..];
      assert s[..|s|] == s;
      TrimStartAt(s, |s|);
    }
  }

  lemma TrimParts(s: string) returns (i: nat, j: nat)
    ensures i <= j <= |s| && AllSpace(s[..i]) && AllSpace(s[j..])
    ensures i < j ==> !IsSpace(s[i]) && !IsSpace(s[j - 1])
    ensures Trim(s) == s[i..j]
  {
    i := 0;
    while i < |s| && IsSpace(s[i])
      invariant 0 <= i <= |s| && AllSpace(s[..i])
    {
      assert s[..i + 1] == s[..i] + [s[i]];
      i := i + 1;
    }
    j := |s|;
    while i < j && IsSpace(s[j - 1])
      invariant i <= j <= |s| && AllSpace(s[j..])
    {
      assert s[j - 1..] == [s[j - 1]] + s[j..];
      j := j - 1;
    }
    TrimIs(s, i, j);
  }

  function LowerChar(c: char): char {
    if 'A' <= c <= 'Z' then c - 'A' + 'a' else c
  }

  const LOWERCASE := "abcdefghijklmnopqrstuvwxyz"
  const UPPERCASE := "ABCDEFGHIJKLMNOPQRSTUVWXYZ"
  const DIGITS := "0123456789"

  function Lower(s: string): string {
    seq(|s|, i requires 0 <= i < |s| => LowerChar(s[i]))
  }

  function UpperChar(c: char): char {
    if 'a' <= c <= 'z' then c - 'a' + 'A' else c
  }

  function Upper(s: string): string {
    seq(|s|, i requires 0 <= i < |s| => UpperChar(s[i]))
  }

  /** The two cases of the letters; nothing else has any. */
  lemma CaseIs()
    ensures forall i :: 0 <= i < 26 ==> LowerChar(UPPERCASE[i]) == LOWERCASE[i]
    ensures forall i :: 0 <= i < 26 ==> UpperChar(LOWERCASE[i]) == UPPERCASE[i]
    ensures forall c :: c !in UPPERCASE ==> LowerChar(c) == c
    ensures forall c :: c !in LOWERCASE ==> UpperChar(c) == c
  {
    Ranges();
  }

  lemma Ranges()
    ensures forall c :: c in LOWERCASE <==> 'a' <= c <= 'z'
    ensures forall c :: c in UPPERCASE <==> 'A' <= c <= 'Z'
    ensures forall c :: c in DIGITS <==> '0' <= c <= '9'
  {
    InRange(LOWERCASE, 'a');
    InRange(UPPERCASE, 'A');
    InRange(DIGITS, '0');
  }

  lemma InRange(s: string, first: char)
    requires first as int + |s| < 256
    requires forall i :: 0 <= i < |s| ==> s[i] as int == first as int + i
    ensures forall c :: c in s <==> first as int <= c as int < first as int + |s|
  {
    forall c: char | first as int <= c as int < first as int + |s|
      ensures c in s
    {
      assert s[c as int - first as int] == c;
    }
  }

  function Digit(d: nat): char
    requires d < 10
  {
    '0' + d as char
  }

  // ---- trimming line breaks ----

  predicate IsBreak(c: char) {
    c == '\r' || c == '\n'
  }

  function TrimEndBreaks(s: string): (r: string)
    ensures r <= s
  {
    if s != "" && IsBreak(s[|s| - 1]) then TrimEndBreaks(s[..|s| - 1]) else s
  }

  function TrimStartBreaks(s: string): (r: string)
    ensures |r| <= |s|
  {
    if s != "" && IsBreak(s[0]) then TrimStartBreaks(s[1..]) else s
  }

  ghost predicate AllBreaks(s: string) {
    forall c :: c in s ==> IsBreak(c)
  }

  /** No line break is left at the end, and nothing else was cut off. */
  lemma {:induction false} TrimEndFacts(s: string)
    ensures var r := TrimEndBreaks(s);
      (r == "" || !IsBreak(r[|r| - 1])) && s == r + s[|r|..] && AllBreaks(s[|r|..])
  {
    if s != "" && IsBreak(s[|s| - 1]) {
      var t := s[..|s| - 1];
      TrimEndFacts(t);
      var r := TrimEndBreaks(s);
      assert s[|r|..] == t[|r|..] + [s[|s| - 1]];
    }
  }

  lemma {:induction false} TrimEndIs(a: string, b: string)
    requires a == "" || !IsBreak(a[|a| - 1])
    requires AllBreaks(b)
    ensures TrimEndBreaks(a + b) == a
  {
    if b == "" {
      assert a + b == a;
    } else {
      var c := b[..|b| - 1];
      assert (a + b)[|a + b| - 1] == b[|b| - 1];
      assert (a + b)[..|a + b| - 1] == a + c;
      TrimEndIs(a, c);
    }
  }

  lemma {:induction false} TrimStartIs(a: string, b: string)
    requires b == "" || !IsBreak(b[0])
    requires AllBreaks(a)
    ensures TrimStartBreaks(a + b) == b
  {
    if a == "" {
      assert a + b == b;
    } else {
      assert (a + b)[1..] == a[1..] + b;
      TrimStartIs(a[1..], b);
    }
  }

  // ---- splitting and joining ----

  /** The pieces between the separators; always at least one. */
  function Split(s: string, sep: char): (r: seq<string>)
    ensures |r| > 0
    ensures forall i :: 0 <= i < |r| ==> sep !in r[i]
  {
    if s == "" then [""]
    else
      var rest := Split(s[1..], sep);
      if s[0] == sep then [""] + rest
      else [[s[0]] + rest[0]] + rest[1..]
  }

  function Join(parts: seq<string>, sep: string): string {
    if parts == [] then ""
    else if |parts| == 1 then parts[0]
    else parts[0] + sep + Join(parts[1..], sep)
  }

  lemma {:induction false} SplitPiece(p: string, sep: char)
    requires sep !in p
    ensures Split(p, sep) == [p]
  {
    if p != "" {
      SplitPiece(p[1..], sep);
      assert [p[0]] + p[1..] == p;
    }
  }

  lemma {:induction false} SplitFirst(p: string, sep: char, s: string)
    requires sep !in p
    ensures Split(p + [sep] + s, sep) == [p] + Split(s, sep)
  {
    var t := p + [sep] + s;
    if p == "" {
      assert t[1..] == s;
    } else {
      assert t[1..] == p[1..] + [sep] + s;
      SplitFirst(p[1..], sep, s);
      assert [p[0]] + p[1..] == p;
    }
  }

  /** Splitting what was joined gives the pieces back. */
  lemma {:induction false} SplitJoin(parts: seq<string>, sep: char)
    requires parts != [] && forall i :: 0 <= i < |parts| ==> sep !in parts[i]
    ensures Split(Join(parts, [sep]), sep) == parts
  {
    if |parts| == 1 {
      SplitPiece(parts[0], sep);
    } else {
      SplitFirst(parts[0], sep, Join(parts[1..], [sep]));
      SplitJoin(parts[1..], sep);
    }
  }

  /** The characters from `a` up to `b` are one of the pieces: whole, and without a separator. */
  predicate IsPiece(s: string, sep: char, a: int, b: int) {
    && 0 <= a <= b <= |s|
    && (a == 0 || s[a - 1] == sep) && (b == |s| || s[b] == sep)
    && forall i :: a <= i < b ==> s[i] != sep
  }

  /** Every stretch between separators is one of the pieces, ... */
  lemma {:induction false} PieceIndex(s: string, sep: char, a: nat, b: nat) returns (k: nat)
    requires IsPiece(s, sep, a, b)
    ensures k < |Split(s, sep)| && Split(s, sep)[k] == s[a..b] && (k == 0 <==> a == 0)
  {
    if s == "" || b == 0 {
      k := 0;
    } else if a > 0 {
      assert IsPiece(s[1..], sep, a - 1, b - 1) by {
        assert forall i :: a - 1 <= i < b - 1 ==> s[1..][i] == s[i + 1];
      }
      k := PieceIndex(s[1..], sep, a - 1, b - 1);
      assert s[1..][a - 1..b - 1] == s[a..b];
      if s[0] == sep {
        k := k + 1;
      }
    } else {
      assert IsPiece(s[1..], sep, 0, b - 1) by {
        assert forall i :: 0 <= i < b - 1 ==> s[1..][i] == s[i + 1];
      }
      k := PieceIndex(s[1..], sep, 0, b - 1);
      assert [s[0]] + s[1..][0..b - 1] == s[0..b];
    }
  }

  /** ... and every piece is such a stretch. */
  lemma {:induction false} PieceAt(s: string, sep: char, k: nat) returns (a: nat, b: nat)
    requires k < |Split(s, sep)|
    ensures IsPiece(s, sep, a, b) && Split(s, sep)[k] == s[a..b] && (k == 0 <==> a == 0)
  {
    if s == "" || (s[0] == sep && k == 0) {
      a, b := 0, 0;
    } else {
      a, b := PieceAt(s[1..], sep, if s[0] == sep then k - 1 else k);
      assert s[1..][a..b] == s[a + 1..b + 1];
      assert forall i :: 0 <= i < |s| - 1 ==> s[1..][i] == s[i + 1];
      if k == 0 {
        assert [s[0]] + s[1..][0..b] == s[0..b + 1];
        b := b + 1;
      } else {
        a, b := a + 1, b + 1;
      }
    }
  }

  /** Each position is in or at the end of one of the pieces. */
  lemma PieceAround(s: string, sep: char, p: nat) returns (a: nat, b: nat)
    requires p <= |s|
    ensures a <= p <= b && IsPiece(s, sep, a, b)
  {
    a, b := p, p;
    while a > 0 && s[a - 1] != sep
      invariant 0 <= a <= p && forall i :: a <= i < p ==> s[i] != sep
    {
      a := a - 1;
    }
    while b < |s| && s[b] != sep
      invariant p <= b <= |s| && forall i :: p <= i < b ==> s[i] != sep
    {
      b := b + 1;
    }
  }
}
