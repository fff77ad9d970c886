/** The Content-Range header of a partial response (section 14.4 of RFC 9110). */
module ContentRange {
  import opened Text

  function Decimal(n: nat): (r: string)
    ensures r != "" && forall i :: 0 <= i < |r| ==> '0' <= r[i] <= '9'
  {
    if n < 10 then [Digit(n)] else Decimal(n / 10) + [Digit(n % 10)]
  }

  function ParseNumber(s: string): nat
    requires forall i :: 0 <= i < |s| ==> '0' <= s[i] <= '9'
  {
    if s == "" then 0 else ParseNumber(s[..|s| - 1]) * 10 + (s[|s| - 1] - '0') as nat
  }

  /** A number that was written is read back. */
  lemma {:induction false} DecimalRead(n: nat)
    ensures ParseNumber(Decimal(n)) == n
  {
    if n >= 10 {
      var s := Decimal(n);
      assert s[..|s| - 1] == Decimal(n / 10);
      DecimalRead(n / 10);
    } else {
      assert Decimal(n)[..0] == "";
    }
  }

  lemma {:induction false} DecimalInjective(a: nat, b: nat)
    requires Decimal(a) == Decimal(b)
    ensures a == b
  {
    if a >= 10 && b >= 10 {
      var x, y := Decimal(a / 10), Decimal(b / 10);
      assert Decimal(a) == x + [Digit(a % 10)] && Decimal(b) == y + [Digit(b % 10)];
      assert |x| == |y| && Decimal(a)[..|x|] == x && Decimal(b)[..|x|] == y;
      assert Decimal(a)[|x|] == Digit(a % 10) && Decimal(b)[|x|] == Digit(b % 10);
      DecimalInjective(a / 10, b / 10);
    } else if a < 10 && b < 10 {
      assert Decimal(a)[0] == Digit(a) && Decimal(b)[0] == Digit(b);
    }
  }

  /** A header in its three numbers: the first byte, the last byte, the size of the whole. */
  lemma HeaderReads(start: nat, end: nat, total: nat) returns (a: string, b: string, c: string)
    ensures IsNumber(a) && IsNumber(b) && IsNumber(c)
    ensures ByteRange(start, end, total) == "bytes " + a + "-" + b + "/" + c
    ensures ParseNumber(a) == start && ParseNumber(b) == end && ParseNumber(c) == total
  {
    a, b, c := Decimal(start), Decimal(end), Decimal(total);
    DecimalRead(start);
    DecimalRead(end);
    DecimalRead(total);
    Assoc("bytes ", a, "-" + (b + "/" + c));
    Assoc("bytes " + a, "-", b + "/" + c);
    Assoc("bytes " + a + "-", b, "/" + c);
    Assoc("bytes " + a + "-" + b, "/", c);
  }

  function ByteRange(start: nat, end: nat, total: nat): string {
    "bytes " + (Decimal(start) + "-" + (Decimal(end) + "/" + Decimal(total)))
  }

  lemma SamePrefix(p: string, a: string, b: string)
    requires p + a == p + b
    ensures a == b
  {
    assert (p + a)[|p|..] == a && (p + b)[|p|..] == b;
  }

  predicate IsNumber(s: string) {
    forall i :: 0 <= i < |s| ==> '0' <= s[i] <= '9'
  }

  /** A separator that is no digit ends the number before it. */
  lemma {:induction false} CutAt(separator: string, a: string, x: string, b: string, y: string)
    requires |separator| == 1 && !('0' <= separator[0] <= '9')
    requires a + separator + x == b + separator + y
    requires IsNumber(a) && IsNumber(b)
    ensures a == b && x == y
  {
    var s, t := a + separator + x, b + separator + y;
    assert s[0] == if a == "" then separator[0] else a[0];
    assert t[0] == if b == "" then separator[0] else b[0];
    if a != "" && b != "" {
      assert s[1..] == a[1..] + separator + x && t[1..] == b[1..] + separator + y;
      CutAt(separator, a[1..], x, b[1..], y);
    } else {
      assert s[1..] == x && t[1..] == y;
    }
  }

  /** A header names one range only. */
  lemma ByteRangeInjective(a: nat, b: nat, c: nat, d: nat, total: nat)
    requires ByteRange(a, b, total) == ByteRange(c, d, total)
    ensures a == c && b == d
  {
    var x, y := Decimal(b) + "/" + Decimal(total), Decimal(d) + "/" + Decimal(total);
    SamePrefix("bytes ", Decimal(a) + "-" + x, Decimal(c) + "-" + y);
    CutAt("-", Decimal(a), x, Decimal(c), y);
    CutAt("/", Decimal(b), Decimal(total), Decimal(d), Decimal(total));
    DecimalInjective(a, c);
    DecimalInjective(b, d);
  }
}
