/** Putting Herd's entries back into a list that has changed: the integration's own entry `bin` may have
    come to the front, or gone. When do the other entries come back in their order? */
module PathRestore {
  import opened Wrappers
  import opened Text
  import opened PathEntries

  /** Restoring without looking for entries that are there already. */
  function InsertAll(list: seq<Entry>, removed: seq<Indexed>): seq<Entry>
    decreases |removed|
  {
    if removed == [] then list else InsertAll(InsertAt(list, removed[0].index, removed[0].entry), removed[1..])
  }

  lemma InsertFirst(list: seq<Entry>, r: Indexed, rest: seq<Indexed>)
    ensures InsertAll(list, [r] + rest) == InsertAll(InsertAt(list, r.index, r.entry), rest)
  {
    assert ([r] + rest)[1..] == rest;
  }

  lemma {:induction false} InsertConcat(list: seq<Entry>, a: seq<Indexed>, b: seq<Indexed>)
    ensures InsertAll(list, a + b) == InsertAll(InsertAll(list, a), b)
    decreases |a|
  {
    hide InsertAt;
    if a == [] {
      assert a + b == b;
    } else {
      assert (a + b)[0] == a[0] && (a + b)[1..] == a[1..] + b;
      InsertConcat(InsertAt(list, a[0].index, a[0].entry), a[1..], b);
    }
  }

  // ---------------------------------------------------------------------------------------------
  // Repeated entries are missing afterwards, distinct ones are all put back
  // ---------------------------------------------------------------------------------------------

  ghost predicate NoneRepeated(entries: seq<Entry>, k: nat) {
    forall i :: k <= i < |entries| ==> !Repeated(entries, i)
  }

  lemma DistinctIff(entries: seq<Entry>)
    ensures NoneRepeated(entries, 0) <==> HerdDistinct(entries)
  {
    if HerdDistinct(entries) {
      NoRepeats(entries, |entries|);
    } else {
      var i, j :| 0 <= i < j < |entries| && IsHerdPhpPathEntry(entries[i]) && IsHerdPhpPathEntry(entries[j])
                  && NormalizePathEntry(entries[i]) == NormalizePathEntry(entries[j]);
      hide IsHerdPhpPathEntry, NormalizePathEntry;
      assert Alike(entries[i], entries[j]);
      assert Repeated(entries, j);
    }
  }

  lemma {:induction false} PutBack(entries: seq<Entry>, k: nat, list: seq<Entry>)
    requires k <= |entries| && HasHerd(list, entries, k)
    ensures var removed := Removed(entries[k..], k);
      if NoneRepeated(entries, k) then Reinserted(list, removed) == InsertAll(list, removed)
      else |Reinserted(list, removed)| < |list| + |removed|
    decreases |entries| - k
  {
    hide HasHerd, Repeated, Present, IsHerdPhpPathEntry, InsertAt;
    if k == |entries| {
      assert entries[k..] == [];
    } else {
      var e, rest := entries[k], Removed(entries[k + 1..], k + 1);
      HasHerdNext(list, entries, k);
      HalfwayStep(entries, k);
      if IsHerdPhpPathEntry(e) {
        var next := if Present(list, e) then list else InsertAt(list, k, e);
        ReinsertFirst(list, Indexed(k, e), rest);
        InsertFirst(list, Indexed(k, e), rest);
        PutBack(entries, k + 1, next);
        ReinsertedLength(next, rest);
        InsertedLength(list, k, e);
      } else {
        NotRepeated(entries, k);
        PutBack(entries, k + 1, list);
      }
      assert NoneRepeated(entries, k) <==> !Repeated(entries, k) && NoneRepeated(entries, k + 1);
    }
  }

  lemma InsertedLength(list: seq<Entry>, index: nat, e: Entry)
    ensures |InsertAt(list, index, e)| == |list| + 1
  {
  }

  // ---------------------------------------------------------------------------------------------
  // Lists in parts
  // ---------------------------------------------------------------------------------------------

  lemma KeptFirst(e: Entry, rest: seq<Entry>)
    ensures Kept([e] + rest) == if IsHerdPhpPathEntry(e) then Kept(rest) else [e] + Kept(rest)
  {
    hide IsHerdPhpPathEntry;
    assert ([e] + rest)[1..] == rest;
  }

  lemma WithoutFirst(e: Entry, rest: seq<Entry>, bin: Entry)
    ensures Without([e] + rest, bin) == if Alike(e, bin) then Without(rest, bin) else [e] + Without(rest, bin)
  {
    hide NormalizePathEntry;
    assert ([e] + rest)[1..] == rest;
  }

  lemma RemovedFirst(e: Entry, rest: seq<Entry>, from: nat)
    ensures Removed([e] + rest, from) ==
            if IsHerdPhpPathEntry(e) then [Indexed(from, e)] + Removed(rest, from + 1) else Removed(rest, from + 1)
  {
    hide IsHerdPhpPathEntry;
    assert ([e] + rest)[1..] == rest;
  }

  lemma {:induction false} WithoutConcat(a: seq<Entry>, b: seq<Entry>, bin: Entry)
    ensures Without(a + b, bin) == Without(a, bin) + Without(b, bin)
  {
    hide NormalizePathEntry;
    if a == [] {
      assert a + b == b;
    } else {
      assert (a + b)[0] == a[0] && (a + b)[1..] == a[1..] + b;
      WithoutConcat(a[1..], b, bin);
    }
  }

  lemma {:induction false} KeptConcat(a: seq<Entry>, b: seq<Entry>)
    ensures Kept(a + b) == Kept(a) + Kept(b)
  {
    hide IsHerdPhpPathEntry;
    if a == [] {
      assert a + b == b;
    } else {
      assert (a + b)[0] == a[0] && (a + b)[1..] == a[1..] + b;
      KeptConcat(a[1..], b);
    }
  }

  lemma {:induction false} RemovedConcat(a: seq<Entry>, b: seq<Entry>, from: nat)
    ensures Removed(a + b, from) == Removed(a, from) + Removed(b, from + |a|)
  {
    hide IsHerdPhpPathEntry;
    if a == [] {
      assert a + b == b;
    } else {
      hide *;
      var e, rest := a[0], a[1..];
      assert a == [e] + rest && a + b == [e] + (rest + b);
      RemovedConcat(rest, b, from + 1);
      RemovedFirst(e, rest, from);
      RemovedFirst(e, rest + b, from);
      if IsHerdPhpPathEntry(e) {
        AssocSeq([Indexed(from, e)], Removed(rest, from + 1), Removed(b, from + |a|));
      }
    }
  }

  predicate AllHerd(a: seq<Entry>) {
    forall i :: 0 <= i < |a| ==> IsHerdPhpPathEntry(a[i])
  }

  predicate NoHerd(a: seq<Entry>) {
    forall i :: 0 <= i < |a| ==> !IsHerdPhpPathEntry(a[i])
  }

  lemma {:induction false} AllHerdKept(a: seq<Entry>)
    requires AllHerd(a)
    ensures Kept(a) == []
  {
    hide IsHerdPhpPathEntry;
    if a != [] {
      AllHerdKept(a[1..]);
    }
  }

  lemma {:induction false} NoHerdKept(a: seq<Entry>)
    requires NoHerd(a)
    ensures Kept(a) == a && forall from: nat :: Removed(a, from) == []
  {
    hide IsHerdPhpPathEntry;
    if a != [] {
      NoHerdKept(a[1..]);
      assert a == [a[0]] + a[1..];
    }
  }

  predicate NoOwn(l: seq<Entry>, bin: Entry) {
    forall i :: 0 <= i < |l| ==> !Alike(l[i], bin)
  }

  lemma NoOwnConcat(a: seq<Entry>, b: seq<Entry>, bin: Entry)
    ensures NoOwn(a + b, bin) <==> NoOwn(a, bin) && NoOwn(b, bin)
  {
    hide Alike;
    assert forall i :: 0 <= i < |a| ==> a[i] == (a + b)[i];
    assert forall i :: 0 <= i < |b| ==> b[i] == (a + b)[i + |a|];
  }

  lemma AlikeSelf(e: Entry)
    ensures Alike(e, e)
  {
  }

  lemma {:induction false} WithoutNone(a: seq<Entry>, bin: Entry)
    requires NoOwn(a, bin)
    ensures Without(a, bin) == a
  {
    hide NormalizePathEntry;
    if a != [] {
      WithoutNone(a[1..], bin);
      assert a == [a[0]] + a[1..];
    }
  }

  lemma {:induction false} WithoutHas(a: seq<Entry>, bin: Entry)
    ensures forall e :: e in Without(a, bin) <==> e in a && !Alike(e, bin)
    ensures |Without(a, bin)| <= |a|
  {
    hide NormalizePathEntry;
    if a != [] {
      WithoutHas(a[1..], bin);
      assert a == [a[0]] + a[1..];
    }
  }

  lemma {:induction false} WithoutKept(a: seq<Entry>, bin: Entry)
    ensures Without(Kept(a), bin) == Kept(Without(a, bin))
  {
    if a != [] {
      var e, rest := a[0], a[1..];
      WithoutKept(rest, bin);
      KeptFirst(e, rest);
      WithoutFirst(e, rest, bin);
      WithoutFirst(e, Kept(rest), bin);
      KeptFirst(e, Without(rest, bin));
      hide *;
      assert a == [e] + rest;
    }
  }

  lemma {:induction false} RemovedBounds(a: seq<Entry>, from: nat)
    ensures forall r :: r in Removed(a, from) ==> from <= r.index && IsHerdPhpPathEntry(r.entry)
  {
    hide IsHerdPhpPathEntry;
    if a != [] {
      RemovedBounds(a[1..], from + 1);
    }
  }

  // ---------------------------------------------------------------------------------------------
  // What insertions do to the parts
  // ---------------------------------------------------------------------------------------------

  /** Entries go back into place as long as everything before them is in place. */
  lemma {:induction false} SegmentBack(p: seq<Entry>, a: seq<Entry>, x: seq<Entry>)
    ensures InsertAll(p + Kept(a) + x, Removed(a, |p|)) == p + a + x
    decreases |a|
  {
    hide IsHerdPhpPathEntry, InsertAll, InsertAt;
    if a == [] {
      assert p + [] + x == p + x && InsertAll(p + x, []) == p + x by { InsertNothing(p + x); }
    } else {
      var e, rest := a[0], a[1..];
      var q := p + [e];
      SegmentBack(q, rest, x);
      assert q + rest + x == p + a + x;
      if IsHerdPhpPathEntry(e) {
        InsertFirst(p + Kept(rest) + x, Indexed(|p|, e), Removed(rest, |p| + 1));
        InsertHere(p, Kept(rest) + x, e);
        assert p + Kept(rest) + x == p + (Kept(rest) + x) && q + Kept(rest) + x == p + [e] + (Kept(rest) + x);
        assert [] + Kept(rest) == Kept(rest);
      } else {
        assert [] + Removed(rest, |p| + 1) == Removed(rest, |p| + 1);
        assert p + ([e] + Kept(rest)) + x == q + Kept(rest) + x;
      }
    }
  }

  lemma FrontBack(a: seq<Entry>, x: seq<Entry>)
    ensures InsertAll(Kept(a) + x, Removed(a, 0)) == a + x
  {
    hide *;
    SegmentBack([], a, x);
    assert [] + Kept(a) + x == Kept(a) + x && [] + a + x == a + x;
  }

  lemma InsertNothing(list: seq<Entry>)
    ensures InsertAll(list, []) == list
  {
  }

  lemma InsertHere(p: seq<Entry>, x: seq<Entry>, e: Entry)
    ensures InsertAt(p + x, |p|, e) == p + [e] + x
  {
  }

  /** What lies before all positions stays. */
  lemma {:induction false} FrontStays(p: seq<Entry>, x: seq<Entry>, removed: seq<Indexed>)
    requires forall r :: r in removed ==> |p| <= r.index
    ensures |p| <= |InsertAll(p + x, removed)| && InsertAll(p + x, removed)[..|p|] == p
    decreases |removed|
  {
    if removed != [] {
      var r := removed[0];
      assert r in removed;
      var y := InsertAt(p + x, r.index, r.entry)[|p|..];
      assert InsertAt(p + x, r.index, r.entry) == p + y;
      FrontStays(p, y, removed[1..]);
    }
  }

  /** Positions past the end append. */
  lemma {:induction false} Appended(list: seq<Entry>, a: seq<Entry>, from: nat, bin: Entry)
    requires |list| <= from && !IsHerdPhpPathEntry(bin) && HerdsOrOwn(a, bin)
    ensures InsertAll(list, Removed(a, from)) == list + Without(a, bin)
    decreases |a|
  {
    hide *;
    if a == [] {
      NoParts(list, from, bin);
    } else {
      var e, rest := a[0], a[1..];
      HerdOrOwn(e, bin);
      HerdsFirst(a, bin);
      assert a == [e] + rest;
      RemovedFirst(e, rest, from);
      WithoutFirst(e, rest, bin);
      if Alike(e, bin) {
        Appended(list, rest, from + 1, bin);
      } else {
        InsertEnd(list, from, e);
        InsertFirst(list, Indexed(from, e), Removed(rest, from + 1));
        Appended(list + [e], rest, from + 1, bin);
        AssocSeq(list, [e], Without(rest, bin));
      }
    }
  }

  predicate HerdsOrOwn(l: seq<Entry>, bin: Entry) {
    forall i :: 0 <= i < |l| ==> IsHerdPhpPathEntry(l[i]) || Alike(l[i], bin)
  }

  lemma HerdsFirst(a: seq<Entry>, bin: Entry)
    requires a != [] && HerdsOrOwn(a, bin)
    ensures (IsHerdPhpPathEntry(a[0]) || Alike(a[0], bin)) && HerdsOrOwn(a[1..], bin)
  {
    hide IsHerdPhpPathEntry, Alike;
  }

  lemma NoParts(list: seq<Entry>, from: nat, bin: Entry)
    ensures InsertAll(list, Removed([], from)) == list + Without([], bin)
  {
    hide IsHerdPhpPathEntry, NormalizePathEntry;
  }

  lemma HerdOrOwn(e: Entry, bin: Entry)
    requires !IsHerdPhpPathEntry(bin)
    ensures !(Alike(e, bin) && IsHerdPhpPathEntry(e))
  {
    if Alike(e, bin) {
      HerdAlike(e, bin);
    }
  }

  lemma InsertEnd(list: seq<Entry>, index: nat, e: Entry)
    requires |list| <= index
    ensures InsertAt(list, index, e) == list + [e]
  {
    assert list[..|list|] == list && list[|list|..] == [];
  }

  /** Every entry put back counts among the others. */
  lemma {:induction false} CountOthers(list: seq<Entry>, removed: seq<Indexed>, bin: Entry)
    requires forall r :: r in removed ==> !Alike(r.entry, bin)
    ensures |Without(Reinserted(list, removed), bin)| + |list| == |Without(list, bin)| + |Reinserted(list, removed)|
    decreases |removed|
  {
    hide Present, NormalizePathEntry, InsertAt;
    if removed != [] {
      var r := removed[0];
      assert r in removed;
      InsertedOther(list, r.index, r.entry, bin);
      CountOthers(if Present(list, r.entry) then list else InsertAt(list, r.index, r.entry), removed[1..], bin);
    }
  }

  lemma InsertedOther(list: seq<Entry>, index: nat, e: Entry, bin: Entry)
    requires !Alike(e, bin)
    ensures |InsertAt(list, index, e)| == |list| + 1
    ensures |Without(InsertAt(list, index, e), bin)| == |Without(list, bin)| + 1
  {
    hide NormalizePathEntry;
    var at := if index < |list| then index else |list|;
    assert list == list[..at] + list[at..];
    WithoutConcat(list[..at], list[at..], bin);
    WithoutConcat(list[..at] + [e], list[at..], bin);
    WithoutConcat(list[..at], [e], bin);
    assert Without([e], bin) == [e] by {
      WithoutNone([e], bin);
    }
  }

  // ---------------------------------------------------------------------------------------------
  // The integration's entry was put in front after the positions were taken
  // ---------------------------------------------------------------------------------------------

  /** The length of the longest beginning of Herd entries only, or of others only. */
  function Leading(l: seq<Entry>, herd: bool): (n: nat)
    ensures n <= |l| && forall i :: 0 <= i < n ==> IsHerdPhpPathEntry(l[i]) == herd
    ensures n < |l| ==> IsHerdPhpPathEntry(l[n]) != herd
  {
    if l == [] || IsHerdPhpPathEntry(l[0]) != herd then 0 else 1 + Leading(l[1..], herd)
  }

  /** Every Herd entry before every other. */
  predicate HerdFirst(l: seq<Entry>) {
    forall i, j :: 0 <= i < j < |l| && IsHerdPhpPathEntry(l[j]) ==> IsHerdPhpPathEntry(l[i])
  }

  lemma FrontGood(h: seq<Entry>, q: seq<Entry>, bin: Entry)
    requires AllHerd(h) && NoHerd(q) && NoOwn(h + q, bin)
    ensures Without(InsertAll([bin] + Kept(h + q), Removed(h + q, 0)), bin) == h + q
  {
    hide *;
    AllHerdKept(h);
    NoHerdKept(q);
    KeptConcat(h, q);
    RemovedConcat(h, q, 0);
    FrontBack(h, [bin] + q);
    NoOwnConcat(h, q, bin);
    WithoutNone(h, bin);
    WithoutNone(q, bin);
    AlikeSelf(bin);
    WithoutFirst(bin, q, bin);
    WithoutConcat(h, [bin] + q, bin);
    assert [] + q == q && [] + ([bin] + q) == [bin] + q;
    assert Removed(h, 0) + [] == Removed(h, 0);
  }

  lemma FrontKept(h: seq<Entry>, q: seq<Entry>, e: Entry, t: seq<Entry>)
    requires AllHerd(h) && NoHerd(q) && IsHerdPhpPathEntry(e)
    ensures var l := h + q + ([e] + t);
      && Kept(l) == q + Kept(t)
      && Removed(l, 0) == Removed(h, 0) + ([Indexed(|h| + |q|, e)] + Removed(t, |h| + |q| + 1))
  {
    hide *;
    AllHerdKept(h);
    NoHerdKept(q);
    KeptConcat(h, q);
    KeptConcat(h + q, [e] + t);
    KeptFirst(e, t);
    RemovedConcat(h, q, 0);
    RemovedConcat(h + q, [e] + t, 0);
    RemovedFirst(e, t, |h| + |q|);
    assert [] + q == q && Removed(h, 0) + [] == Removed(h, 0);
    assert 0 + |h| == |h| && 0 + |h + q| == |h| + |q|;
  }

  /** The list after the first Herd entry that stood behind another entry was put back. */
  lemma FrontInserted(h: seq<Entry>, mid: seq<Entry>, e: Entry, y: seq<Entry>)
    requires AllHerd(h)
    ensures InsertAll(mid + y, Removed(h, 0) + [Indexed(|h| + |mid|, e)]) == h + mid + [e] + y
  {
    hide *;
    var one := [Indexed(|h| + |mid|, e)];
    AllHerdKept(h);
    FrontBack(h, mid + y);
    assert [] + (mid + y) == mid + y;
    AssocSeq(h, mid, y);
    InsertConcat(mid + y, Removed(h, 0), one);
    assert one + [] == one;
    InsertFirst(h + mid + y, one[0], []);
    InsertNothing(InsertAt(h + mid + y, |h + mid|, e));
    InsertHere(h + mid, y, e);
  }

  lemma FrontParts(h: seq<Entry>, q: seq<Entry>, e: Entry, bin: Entry)
    requires NoOwn(h + q + [e], bin)
    ensures Without(h + ([bin] + q) + [e], bin) == h + q + [e]
  {
    hide *;
    assert h + q + [e] == h + (q + [e]);
    NoOwnConcat(h, q + [e], bin);
    WithoutNone(h, bin);
    WithoutNone(q + [e], bin);
    AlikeSelf(bin);
    WithoutFirst(bin, q + [e], bin);
    WithoutConcat(h, [bin] + (q + [e]), bin);
    assert h + ([bin] + q) + [e] == h + ([bin] + (q + [e]));
  }

  lemma FrontBad(h: seq<Entry>, q: seq<Entry>, g: Entry, e: Entry, t: seq<Entry>, bin: Entry)
    requires AllHerd(h) && NoHerd(q + [g]) && IsHerdPhpPathEntry(e) && g != e
    requires NoOwn(h + q + [e], bin)
    ensures var l := h + (q + [g]) + ([e] + t);
      Without(InsertAll([bin] + Kept(l), Removed(l, 0)), bin) != l
  {
    hide *;
    var l := h + (q + [g]) + ([e] + t);
    var first, rest := [Indexed(|h| + |q| + 1, e)], Removed(t, |h| + |q| + 2);
    var mid, x := [bin] + q, [g] + Kept(t);
    var p := h + mid + [e];
    FrontKept(h, q + [g], e, t);
    FrontInserted(h, mid, e, x);
    assert [bin] + Kept(l) == mid + x;
    AssocSeq(Removed(h, 0), first, rest);
    InsertConcat([bin] + Kept(l), Removed(h, 0) + first, rest);
    RemovedBounds(t, |h| + |q| + 2);
    FrontStays(p, x, rest);
    var result := InsertAll(p + x, rest);
    assert result == p + result[|p|..];
    WithoutConcat(p, result[|p|..], bin);
    FrontParts(h, q, e, bin);
    assert Without(result, bin)[|h| + |q|] == e;
    assert l[|h| + |q|] == g;
  }

  /** Herd entries, others, and then either nothing or a Herd entry that stands behind one of the others. */
  predicate InParts(h: seq<Entry>, q: seq<Entry>, t: seq<Entry>) {
    AllHerd(h) && NoHerd(q) && (t != [] ==> q != [] && IsHerdPhpPathEntry(t[0]))
  }

  lemma Parts(l: seq<Entry>) returns (h: seq<Entry>, q: seq<Entry>, t: seq<Entry>)
    ensures l == h + q + t && InParts(h, q, t)
  {
    hide IsHerdPhpPathEntry;
    var m := Leading(l, true);
    var rest := l[m..];
    var n := Leading(rest, false);
    h, q, t := l[..m], rest[..n], rest[n..];
    assert rest != [] ==> rest[0] == l[m];
    assert t != [] ==> t[0] == rest[n];
  }

  lemma HerdFirstParts(h: seq<Entry>, q: seq<Entry>, t: seq<Entry>)
    requires InParts(h, q, t)
    ensures HerdFirst(h + q + t) <==> t == []
  {
    hide IsHerdPhpPathEntry;
    var l := h + q + t;
    if t != [] {
      assert l[|h|] == q[0] && l[|h| + |q|] == t[0];
    }
  }

  /** The others come back in their order exactly if every Herd entry was before every other entry. */
  lemma InFront(l: seq<Entry>, bin: Entry)
    requires NoOwn(l, bin)
    ensures Without(InsertAll([bin] + Kept(l), Removed(l, 0)), bin) == l <==> HerdFirst(l)
  {
    hide HerdFirst, IsHerdPhpPathEntry, NoOwn, InsertAll, Kept, Removed, Without;
    var h, q, t := Parts(l);
    HerdFirstParts(h, q, t);
    if t == [] {
      assert l == h + q;
      FrontGood(h, q, bin);
    } else {
      var q', g, e, t' := q[..|q| - 1], q[|q| - 1], t[0], t[1..];
      assert q == q' + [g] && t == [e] + t';
      assert l == h + q' + ([g] + t) == h + (q' + [g]) + ([e] + t');
      assert q[|q| - 1] == g;
      NoOwnConcat(h + q, t, bin);
      NoOwnConcat(h, q, bin);
      NoOwnConcat(q', [g], bin);
      NoOwnConcat([e], t', bin);
      NoOwnConcat(h, q', bin);
      NoOwnConcat(h + q', [e], bin);
      FrontBad(h, q', g, e, t', bin);
    }
  }

  // ---------------------------------------------------------------------------------------------
  // The integration's entry was there when the positions were taken, and has gone
  // ---------------------------------------------------------------------------------------------

  /** Behind the integration's entry no Herd entry is before another entry. */
  predicate HerdLast(l: seq<Entry>, bin: Entry) {
    forall i, j, k :: 0 <= i < j < k < |l| && Alike(l[i], bin) && IsHerdPhpPathEntry(l[j]) ==>
      IsHerdPhpPathEntry(l[k]) || Alike(l[k], bin)
  }

  lemma BehindParts(a: seq<Entry>, b: Entry, q: seq<Entry>, t: seq<Entry>, bin: Entry)
    requires NoOwn(a, bin) && Alike(b, bin) && NoHerd(q) && !IsHerdPhpPathEntry(bin)
    ensures var l, w := a + ([b] + q) + t, Without(q, bin);
      && Without(l, bin) == a + w + Without(t, bin)
      && Without(Kept(l), bin) == Kept(a) + (w + Without(Kept(t), bin))
      && Removed(l, 0) == Removed(a, 0) + Removed(t, |a| + 1 + |q|)
  {
    hide *;
    var l := a + ([b] + q) + t;
    HerdOrOwn(b, bin);
    NoHerdKept(q);
    WithoutNone(a, bin);
    WithoutFirst(b, q, bin);
    WithoutConcat(a, [b] + q, bin);
    WithoutConcat(a + ([b] + q), t, bin);
    KeptFirst(b, q);
    KeptConcat(a, [b] + q);
    KeptConcat(a + ([b] + q), t);
    RemovedFirst(b, q, |a|);
    RemovedConcat(a, [b] + q, 0);
    RemovedConcat(a + ([b] + q), t, 0);
    WithoutKept(a, bin);
    WithoutConcat(Kept(a), [b] + q, bin);
    WithoutConcat(Kept(a) + ([b] + q), Kept(t), bin);
    assert Removed(a, 0) + [] == Removed(a, 0);
    AssocSeq(Kept(a), Without(q, bin), Without(Kept(t), bin));
  }

  lemma BehindGood(a: seq<Entry>, b: Entry, q: seq<Entry>, t: seq<Entry>, bin: Entry)
    requires NoOwn(a, bin) && Alike(b, bin) && NoHerd(q) && !IsHerdPhpPathEntry(bin) && HerdsOrOwn(t, bin)
    ensures var l := a + ([b] + q) + t;
      InsertAll(Without(Kept(l), bin), Removed(l, 0)) == Without(l, bin)
  {
    hide *;
    var l, w := a + ([b] + q) + t, Without(q, bin);
    BehindParts(a, b, q, t, bin);
    NothingElse(t, bin);
    WithoutHas(q, bin);
    Appended(a + w, t, |a| + 1 + |q|, bin);
    FrontBack(a, w);
    InsertConcat(Kept(a) + w, Removed(a, 0), Removed(t, |a| + 1 + |q|));
    assert w + [] == w;
  }

  lemma NothingElse(t: seq<Entry>, bin: Entry)
    ensures Without(Kept(t), bin) == [] <==> HerdsOrOwn(t, bin)
  {
    hide IsHerdPhpPathEntry, NormalizePathEntry, Alike, Kept, Without;
    KeptPlain(t);
    WithoutHas(Kept(t), bin);
    var w := Without(Kept(t), bin);
    Inhabited(w);
    if w != [] {
      var e :| e in w;
      assert e in t && !IsHerdPhpPathEntry(e) && !Alike(e, bin);
    } else {
      forall i | 0 <= i < |t|
        ensures IsHerdPhpPathEntry(t[i]) || Alike(t[i], bin)
      {
        assert t[i] in t && t[i] !in w;
      }
    }
  }

  lemma BehindBad(a: seq<Entry>, b: Entry, q: seq<Entry>, t: seq<Entry>, bin: Entry)
    requires NoOwn(a, bin) && Alike(b, bin) && NoHerd(q) && !IsHerdPhpPathEntry(bin)
    requires t != [] && IsHerdPhpPathEntry(t[0]) && !HerdsOrOwn(t, bin)
    ensures var l := a + ([b] + q) + t;
      InsertAll(Without(Kept(l), bin), Removed(l, 0)) != Without(l, bin)
  {
    hide *;
    var l, w := a + ([b] + q) + t, Without(q, bin);
    BehindParts(a, b, q, t, bin);
    NothingElse(t, bin);
    WithoutHas(q, bin);
    KeptPlain(t);
    WithoutHas(Kept(t), bin);
    HerdOrOwn(t[0], bin);
    WithoutFirst(t[0], t[1..], bin);
    assert t == [t[0]] + t[1..];
    var others := Without(Kept(t), bin);
    var g := others[0];
    assert g in others && !IsHerdPhpPathEntry(g);
    var rest := Removed(t, |a| + 1 + |q|);
    FrontBack(a, w + others);
    InsertConcat(Kept(a) + (w + others), Removed(a, 0), rest);
    assert others == [g] + others[1..];
    assert a + (w + others) == (a + w + [g]) + others[1..];
    RemovedBounds(t, |a| + 1 + |q|);
    FrontStays(a + w + [g], others[1..], rest);
    assert InsertAll(a + w + [g] + others[1..], rest)[|a| + |w|] == g;
    assert Without(l, bin)[|a| + |w|] == t[0];
  }

  /** The others come back in their order exactly if behind the integration's entry no Herd entry was before
      another entry. */
  lemma Gone(l: seq<Entry>, bin: Entry)
    requires !NoOwn(l, bin) && !IsHerdPhpPathEntry(bin)
    ensures InsertAll(Without(Kept(l), bin), Removed(l, 0)) == Without(l, bin) <==> HerdLast(l, bin)
  {
    hide *;
    var a, b, q, t := OwnParts(l, bin);
    HerdLastParts(a, b, q, t, bin);
    if HerdsOrOwn(t, bin) {
      BehindGood(a, b, q, t, bin);
    } else {
      BehindBad(a, b, q, t, bin);
    }
  }

  /** The first of the integration's entries, what is before it, and what is behind it from the first Herd
      entry on. */
  predicate AroundOwn(a: seq<Entry>, b: Entry, q: seq<Entry>, t: seq<Entry>, bin: Entry) {
    NoOwn(a, bin) && Alike(b, bin) && NoHerd(q) && (t != [] ==> IsHerdPhpPathEntry(t[0]))
  }

  lemma OwnParts(l: seq<Entry>, bin: Entry) returns (a: seq<Entry>, b: Entry, q: seq<Entry>, t: seq<Entry>)
    requires !NoOwn(l, bin)
    ensures l == a + ([b] + q) + t && NoOwn(a, bin) && Alike(b, bin) && NoHerd(q)
    ensures !HerdsOrOwn(t, bin) ==> t != [] && IsHerdPhpPathEntry(t[0])
    ensures AroundOwn(a, b, q, t, bin)
  {
    hide IsHerdPhpPathEntry, Alike;
    var m := FirstOwn(l, bin);
    var rest := l[m + 1..];
    var n := Leading(rest, false);
    a, b, q, t := l[..m], l[m], rest[..n], rest[n..];
    assert t != [] ==> t[0] == rest[n];
  }

  lemma HerdLastParts(a: seq<Entry>, b: Entry, q: seq<Entry>, t: seq<Entry>, bin: Entry)
    requires AroundOwn(a, b, q, t, bin)
    ensures HerdLast(a + ([b] + q) + t, bin) <==> HerdsOrOwn(t, bin)
  {
    if HerdsOrOwn(t, bin) {
      LastGood(a, b, q, t, bin);
    } else {
      LastBad(a, b, q, t, bin);
    }
  }

  lemma PartAt(a: seq<Entry>, b: Entry, q: seq<Entry>, t: seq<Entry>, i: nat)
    requires i < |a| + 1 + |q| + |t|
    ensures (a + ([b] + q) + t)[i] ==
            if i < |a| then a[i] else if i == |a| then b
            else if i < |a| + 1 + |q| then q[i - |a| - 1] else t[i - |a| - 1 - |q|]
  {
  }

  lemma LastGood(a: seq<Entry>, b: Entry, q: seq<Entry>, t: seq<Entry>, bin: Entry)
    requires AroundOwn(a, b, q, t, bin) && HerdsOrOwn(t, bin)
    ensures HerdLast(a + ([b] + q) + t, bin)
  {
    hide IsHerdPhpPathEntry, Alike;
    var l := a + ([b] + q) + t;
    forall i, j, k | 0 <= i < j < k < |l| && Alike(l[i], bin) && IsHerdPhpPathEntry(l[j])
      ensures IsHerdPhpPathEntry(l[k]) || Alike(l[k], bin)
    {
      PartAt(a, b, q, t, i);
      PartAt(a, b, q, t, j);
      PartAt(a, b, q, t, k);
    }
  }

  lemma LastBad(a: seq<Entry>, b: Entry, q: seq<Entry>, t: seq<Entry>, bin: Entry)
    requires AroundOwn(a, b, q, t, bin) && !HerdsOrOwn(t, bin)
    ensures !HerdLast(a + ([b] + q) + t, bin)
  {
    hide IsHerdPhpPathEntry, Alike;
    var l, n := a + ([b] + q) + t, |a| + 1 + |q|;
    var k :| 0 <= k < |t| && !(IsHerdPhpPathEntry(t[k]) || Alike(t[k], bin));
    PartAt(a, b, q, t, |a|);
    PartAt(a, b, q, t, n);
    PartAt(a, b, q, t, n + k);
  }

  lemma {:induction false} FirstOwn(l: seq<Entry>, bin: Entry) returns (m: nat)
    requires !NoOwn(l, bin)
    ensures m < |l| && Alike(l[m], bin) && NoOwn(l[..m], bin)
  {
    hide Alike;
    if Alike(l[0], bin) {
      m := 0;
    } else {
      assert l == [l[0]] + l[1..];
      NoOwnConcat([l[0]], l[1..], bin);
      var n := FirstOwn(l[1..], bin);
      m := n + 1;
      assert l[..m] == [l[0]] + l[1..][..n];
      NoOwnConcat([l[0]], l[1..][..n], bin);
    }
  }


  // ---------------------------------------------------------------------------------------------
  // All four cases
  // ---------------------------------------------------------------------------------------------

  /** The list that the Herd entries are put back into: without them, with the integration's entry in front
      unless it was there, and without that entry unless it is `kept`. */
  function Changed(l: seq<Entry>, bin: Entry, kept: bool): seq<Entry> {
    var enabled := if Present(l, bin) then Kept(l) else [bin] + Kept(l);
    if kept then enabled else Without(enabled, bin)
  }

  /** No two Herd entries are alike, and if the integration's entry has come or gone since, the Herd entries
      stand where that does not matter. */
  ghost predicate ComesBack(l: seq<Entry>, bin: Entry, kept: bool) {
    HerdDistinct(l) &&
    (Present(l, bin) != kept ==> if kept then HerdFirst(l) else HerdLast(l, bin))
  }

  lemma PresentIff(l: seq<Entry>, bin: Entry)
    ensures Present(l, bin) <==> !NoOwn(l, bin)
  {
    hide NormalizePathEntry;
  }

  lemma ChangedIs(l: seq<Entry>, bin: Entry, kept: bool)
    ensures Changed(l, bin, kept) ==
      if Present(l, bin) == kept then Kept(l) else if kept then [bin] + Kept(l) else Without(Kept(l), bin)
    ensures Without(Changed(l, bin, kept), bin) == Without(Kept(l), bin)
  {
    hide NormalizePathEntry, IsHerdPhpPathEntry, Present;
    AlikeSelf(bin);
    WithoutFirst(bin, Kept(l), bin);
    if !Present(l, bin) {
      PresentIff(l, bin);
      WithoutNone(l, bin);
      WithoutKept(l, bin);
    }
    WithoutTwice(Kept(l), bin);
  }

  lemma WithoutTwice(l: seq<Entry>, bin: Entry)
    ensures Without(Without(l, bin), bin) == Without(l, bin)
  {
    WithoutHas(l, bin);
    hide NormalizePathEntry, Alike, Without;
    var w := Without(l, bin);
    assert forall i :: 0 <= i < |w| ==> w[i] in w;
    WithoutNone(w, bin);
  }

  lemma ChangedHasNone(l: seq<Entry>, bin: Entry, kept: bool)
    requires !IsHerdPhpPathEntry(bin)
    ensures HasHerd(Changed(l, bin, kept), l, 0)
  {
    KeptPlain(l);
    ChangedIs(l, bin, kept);
    WithoutHas(Kept(l), bin);
    hide IsHerdPhpPathEntry, NormalizePathEntry, Present, HasHerd, Without, Kept, Changed;
    KeptHasNone(l, Changed(l, bin, kept));
  }

  /** When every Herd entry is put back: the order of the others. */
  lemma OrderBack(l: seq<Entry>, bin: Entry, kept: bool)
    requires !IsHerdPhpPathEntry(bin)
    ensures Without(InsertAll(Changed(l, bin, kept), Removed(l, 0)), bin) == Without(l, bin) <==>
            (Present(l, bin) != kept ==> if kept then HerdFirst(l) else HerdLast(l, bin))
  {
    hide *;
    ChangedIs(l, bin, kept);
    PresentIff(l, bin);
    if Present(l, bin) == kept {
      FrontBack(l, []);
      assert Kept(l) + [] == Kept(l) && l + [] == l;
    } else if kept {
      WithoutNone(l, bin);
      InFront(l, bin);
    } else {
      Gone(l, bin);
      OthersStay(Without(Kept(l), bin), Removed(l, 0), bin) by {
        WithoutHas(Kept(l), bin);
        RemovedBounds(l, 0);
        OthersOnly(l, bin);
      }
    }
  }

  lemma OthersOnly(l: seq<Entry>, bin: Entry)
    requires !IsHerdPhpPathEntry(bin)
    ensures NoOwn(Without(Kept(l), bin), bin)
    ensures forall r :: r in Removed(l, 0) ==> !Alike(r.entry, bin)
  {
    WithoutHas(Kept(l), bin);
    RemovedBounds(l, 0);
    hide IsHerdPhpPathEntry, NormalizePathEntry, Alike, Without, Removed;
    var w := Without(Kept(l), bin);
    assert forall i :: 0 <= i < |w| ==> w[i] in w;
    forall r | r in Removed(l, 0)
      ensures !Alike(r.entry, bin)
    {
      HerdOrOwn(r.entry, bin);
    }
  }

  lemma {:induction false} OthersStay(list: seq<Entry>, removed: seq<Indexed>, bin: Entry)
    requires NoOwn(list, bin) && forall r :: r in removed ==> !Alike(r.entry, bin)
    ensures Without(InsertAll(list, removed), bin) == InsertAll(list, removed)
    decreases |removed|
  {
    hide Alike, Without;
    if removed == [] {
      WithoutNone(list, bin);
    } else {
      var r := removed[0];
      assert r in removed;
      var next := InsertAt(list, r.index, r.entry);
      assert NoOwn(next, bin) by {
        var at := if r.index < |list| then r.index else |list|;
        assert forall i :: 0 <= i < |next| ==>
          next[i] == if i < at then list[i] else if i == at then r.entry else list[i - 1];
      }
      OthersStay(next, removed[1..], bin);
    }
  }

  /** Whatever became of the integration's entry, the others come back in their order exactly if no two Herd
      entries are alike and the Herd entries stand where the change does not matter. */
  lemma OthersComeBack(l: seq<Entry>, bin: Entry, kept: bool)
    requires !IsHerdPhpPathEntry(bin)
    ensures Without(Reinserted(Changed(l, bin, kept), Removed(l, 0)), bin) == Without(l, bin) <==>
            ComesBack(l, bin, kept)
  {
    var list, removed := Changed(l, bin, kept), Removed(l, 0);
    assert l[0..] == l;
    hide *;
    DistinctIff(l);
    ChangedHasNone(l, bin, kept);
    PutBack(l, 0, list);
    if NoneRepeated(l, 0) {
      OrderBack(l, bin, kept);
    } else {
      OthersOnly(l, bin);
      CountOthers(list, removed, bin);
      ChangedIs(l, bin, kept);
      WithoutKept(l, bin);
      OthersCount(l, bin);
    }
    ComesBackIs(l, bin, kept);
  }

  lemma ComesBackIs(l: seq<Entry>, bin: Entry, kept: bool)
    ensures ComesBack(l, bin, kept) <==>
      HerdDistinct(l) && (Present(l, bin) != kept ==> if kept then HerdFirst(l) else HerdLast(l, bin))
  {
    hide HerdDistinct, Present, HerdFirst, HerdLast;
  }

  lemma OthersCount(l: seq<Entry>, bin: Entry)
    requires !IsHerdPhpPathEntry(bin)
    ensures |Without(Kept(l), bin)| + |Removed(l, 0)| == |Without(l, bin)|
  {
    OthersCountFrom(l, bin, 0);
  }

  lemma {:induction false} OthersCountFrom(l: seq<Entry>, bin: Entry, from: nat)
    requires !IsHerdPhpPathEntry(bin)
    ensures |Without(Kept(l), bin)| + |Removed(l, from)| == |Without(l, bin)|
  {
    hide IsHerdPhpPathEntry, NormalizePathEntry;
    if l != [] {
      var e, rest := l[0], l[1..];
      assert l == [e] + rest;
      OthersCountFrom(rest, bin, from + 1);
      KeptFirst(e, rest);
      WithoutFirst(e, rest, bin);
      WithoutFirst(e, Kept(rest), bin);
      HerdOrOwn(e, bin);
    }
  }
}
