/** Taking Herd's entries out of the Windows user PATH and putting them back. */
module PathEntries {
  import opened Wrappers
  import opened Text

  type Entry = string

  /** An entry together with its position among the non-blank entries of the PATH it came from. */
  datatype Indexed = Indexed(index: nat, entry: Entry)

  function DropStart(s: string, cut: char -> bool): string {
    if s != "" && cut(s[0]) then DropStart(s[1..], cut) else s
  }

  function DropEnd(s: string, cut: char -> bool): string {
    if s != "" && cut(s[|s| - 1]) then DropEnd(s[..|s| - 1], cut) else s
  }

  function Lowered(s: string): string {
    seq(|s|, i requires 0 <= i < |s| =>
      if s[i] == '/' then '\\' else LowerChar(s[i]))
  }

  predicate IsQuote(c: char) {
    c == '"'
  }

  predicate IsSeparator(c: char) {
    c == '\\' || c == '/'
  }

  function NormalizePathEntry(value: Entry): string {
    Lowered(DropEnd(DropEnd(DropStart(Trim(value), IsQuote), IsQuote), IsSeparator))
  }

  predicate IsHerdPhpPathEntry(entry: Entry) {
    Contains(NormalizePathEntry(entry), "\\herd\\bin")
  }

  predicate Blank(entry: Entry) {
    Trim(entry) == ""
  }

  function NonBlank(entries: seq<Entry>): (r: seq<Entry>)
    ensures forall e :: e in r <==> e in entries && !Blank(e)
  {
    if entries == [] then []
    else (if Blank(entries[0]) then [] else [entries[0]]) + NonBlank(entries[1..])
  }

  /** The entries of a PATH value. */
  function Entries(value: string): seq<Entry> {
    NonBlank(Split(value, ';'))
  }

  ghost predicate AreEntries(entries: seq<Entry>) {
    forall e :: e in entries ==> ';' !in e && !Blank(e)
  }

  // ---------------------------------------------------------------------------------------------
  // The operations
  // ---------------------------------------------------------------------------------------------

  function Kept(entries: seq<Entry>): seq<Entry> {
    if entries == [] then []
    else (if IsHerdPhpPathEntry(entries[0]) then [] else [entries[0]]) + Kept(entries[1..])
  }

  function Removed(entries: seq<Entry>, from: nat): seq<Indexed> {
    if entries == [] then []
    else (if IsHerdPhpPathEntry(entries[0]) then [Indexed(from, entries[0])] else []) + Removed(entries[1..], from + 1)
  }

  predicate Present(entries: seq<Entry>, entry: Entry) {
    exists i :: 0 <= i < |entries| && NormalizePathEntry(entries[i]) == NormalizePathEntry(entry)
  }

  function InsertAt(entries: seq<Entry>, index: nat, entry: Entry): seq<Entry> {
    var at := if index < |entries| then index else |entries|;
    entries[..at] + [entry] + entries[at..]
  }

  function Reinserted(entries: seq<Entry>, removed: seq<Indexed>): seq<Entry>
    decreases |removed|
  {
    if removed == [] then entries
    else
      var r := removed[0];
      Reinserted(if Present(entries, r.entry) then entries else InsertAt(entries, r.index, r.entry), removed[1..])
  }

  function Without(entries: seq<Entry>, path: Entry): seq<Entry> {
    if entries == [] then []
    else
      (if NormalizePathEntry(entries[0]) == NormalizePathEntry(path) then [] else [entries[0]])
      + Without(entries[1..], path)
  }

  lemma AssocSeq<T>(a: seq<T>, b: seq<T>, c: seq<T>)
    ensures a + (b + c) == a + b + c
  {
  }

  method RemoveHerdPhpEntries(value: string) returns (without: string, removed: seq<Indexed>)
    ensures without == Join(Kept(Entries(value)), ";")
    ensures removed == Removed(Entries(value), 0)
  {
    hide IsHerdPhpPathEntry, Join, Entries;
    var entries := Entries(value);
    var kept := [];
    removed := [];
    assert entries[0..] == entries;
    for k := 0 to |entries|
      invariant kept + Kept(entries[k..]) == Kept(entries)
      invariant removed + Removed(entries[k..], k) == Removed(entries, 0)
    {
      var e, tail := entries[k], entries[k + 1..];
      assert entries[k..] == [e] + tail;
      if IsHerdPhpPathEntry(e) {
        AssocSeq(removed, [Indexed(k, e)], Removed(tail, k + 1));
        removed := removed + [Indexed(k, e)];
      } else {
        AssocSeq(kept, [e], Kept(tail));
        kept := kept + [e];
      }
    }
    assert kept + [] == kept && removed + [] == removed;
    return Join(kept, ";"), removed;
  }

  method RestorePathEntries(value: string, entries: seq<Indexed>) returns (r: string)
    ensures r == Join(Reinserted(Entries(value), entries), ";")
  {
    hide Present, Join, Entries;
    var restored := Entries(value);
    assert entries[0..] == entries;
    for k := 0 to |entries|
      invariant Reinserted(restored, entries[k..]) == Reinserted(Entries(value), entries)
    {
      assert entries[k..] == [entries[k]] + entries[k + 1..];
      if !Present(restored, entries[k].entry) {
        restored := InsertAt(restored, entries[k].index, entries[k].entry);
      }
    }
    return Join(restored, ";");
  }

  method RemovePathEntry(value: string, path: Entry) returns (r: string)
    ensures r == Join(Without(Entries(value), path), ";")
  {
    hide NormalizePathEntry, Join, Entries;
    var entries := Entries(value);
    var kept := [];
    assert entries[0..] == entries;
    for k := 0 to |entries|
      invariant kept + Without(entries[k..], path) == Without(entries, path)
    {
      var e, tail := entries[k], entries[k + 1..];
      assert entries[k..] == [e] + tail;
      if NormalizePathEntry(e) != NormalizePathEntry(path) {
        AssocSeq(kept, [e], Without(tail, path));
        kept := kept + [e];
      } else {
        assert [] + Without(tail, path) == Without(tail, path);
      }
    }
    assert kept + [] == kept;
    return Join(kept, ";");
  }

  // ---------------------------------------------------------------------------------------------
  // Restoring what was removed
  // ---------------------------------------------------------------------------------------------

  ghost predicate HerdDistinct(entries: seq<Entry>) {
    forall i, j :: 0 <= i < j < |entries| && IsHerdPhpPathEntry(entries[i]) && IsHerdPhpPathEntry(entries[j]) ==>
      NormalizePathEntry(entries[i]) != NormalizePathEntry(entries[j])
  }

  lemma {:induction false} KeptPlain(entries: seq<Entry>)
    ensures forall e :: e in Kept(entries) <==> e in entries && !IsHerdPhpPathEntry(e)
    ensures forall from: nat :: |Kept(entries)| + |Removed(entries, from)| == |entries|
  {
    hide IsHerdPhpPathEntry;
    if entries != [] {
      KeptPlain(entries[1..]);
      assert entries == [entries[0]] + entries[1..];
    }
  }

  lemma {:induction false} ReinsertedLength(entries: seq<Entry>, removed: seq<Indexed>)
    ensures |Reinserted(entries, removed)| <= |entries| + |removed|
    decreases |removed|
  {
    if removed != [] {
      var r := removed[0];
      ReinsertedLength(
        if Present(entries, r.entry) then entries else InsertAt(entries, r.index, r.entry), removed[1..]);
    }
  }

  /** The list with everything before position `k` back in place. */
  function Halfway(entries: seq<Entry>, k: nat): seq<Entry>
    requires k <= |entries|
  {
    entries[..k] + Kept(entries[k..])
  }

  /** An entry that is still to come back is present already exactly if an earlier Herd entry
      normalizes to the same text. */
  lemma PresentHalfway(entries: seq<Entry>, k: nat)
    requires k < |entries| && IsHerdPhpPathEntry(entries[k])
    ensures Present(Halfway(entries, k), entries[k]) <==>
      exists i :: 0 <= i < k && NormalizePathEntry(entries[i]) == NormalizePathEntry(entries[k])
  {
    hide NormalizePathEntry;
    KeptPlain(entries[k..]);
    var h := Halfway(entries, k);
    forall i | k <= i < |h|
      ensures NormalizePathEntry(h[i]) != NormalizePathEntry(entries[k])
    {
      assert h[i] == Kept(entries[k..])[i - k];
      assert h[i] in Kept(entries[k..]);
    }
    assert forall i :: 0 <= i < k ==> h[i] == entries[i];
  }

  lemma DistinctExtend(entries: seq<Entry>, k: nat)
    requires k < |entries| && HerdDistinct(entries[..k])
    requires IsHerdPhpPathEntry(entries[k]) ==>
      forall i :: 0 <= i < k ==> NormalizePathEntry(entries[i]) != NormalizePathEntry(entries[k])
    ensures HerdDistinct(entries[..k + 1])
  {
    hide IsHerdPhpPathEntry, NormalizePathEntry;
    assert forall i :: 0 <= i < k ==> entries[..k + 1][i] == entries[..k][i];
  }

  lemma HalfwayStep(entries: seq<Entry>, k: nat)
    requires k < |entries|
    ensures var e := entries[k];
      if IsHerdPhpPathEntry(e) then
        Removed(entries[k..], k) == [Indexed(k, e)] + Removed(entries[k + 1..], k + 1)
        && InsertAt(Halfway(entries, k), k, e) == Halfway(entries, k + 1)
      else
        Removed(entries[k..], k) == Removed(entries[k + 1..], k + 1) && Halfway(entries, k) == Halfway(entries, k + 1)
  {
    hide IsHerdPhpPathEntry;
    assert entries[k..] == [entries[k]] + entries[k + 1..];
    assert entries[..k + 1] == entries[..k] + [entries[k]];
  }

  lemma TooShort(entries: seq<Entry>, k: nat)
    requires k < |entries| && IsHerdPhpPathEntry(entries[k])
    ensures Reinserted(Halfway(entries, k), Removed(entries[k + 1..], k + 1)) != entries
  {
    HalfwayStep(entries, k);
    KeptPlain(entries[k..]);
    ReinsertedLength(Halfway(entries, k), Removed(entries[k + 1..], k + 1));
    assert |Removed(entries[k..], k)| == 1 + |Removed(entries[k + 1..], k + 1)|;
  }

  lemma ReinsertFirst(entries: seq<Entry>, r: Indexed, rest: seq<Indexed>)
    ensures Reinserted(entries, [r] + rest) ==
            Reinserted(if Present(entries, r.entry) then entries else InsertAt(entries, r.index, r.entry), rest)
  {
    hide Present, InsertAt;
    assert ([r] + rest)[1..] == rest;
  }

  lemma NothingLeft(entries: seq<Entry>)
    ensures entries[..|entries|] == entries
    ensures Reinserted(Halfway(entries, |entries|), Removed(entries[|entries|..], |entries|)) == entries
  {
    hide IsHerdPhpPathEntry, Present, InsertAt;
    assert entries[|entries|..] == [] && Halfway(entries, |entries|) == entries;
  }

  lemma {:induction false} ReinsertedIff(entries: seq<Entry>, k: nat)
    requires k <= |entries| && HerdDistinct(entries[..k])
    ensures Reinserted(Halfway(entries, k), Removed(entries[k..], k)) == entries <==> HerdDistinct(entries)
    decreases |entries| - k
  {
    hide *;
    if k == |entries| {
      NothingLeft(entries);
    } else {
      HalfwayStep(entries, k);
      if IsHerdPhpPathEntry(entries[k]) {
        PresentHalfway(entries, k);
        ReinsertFirst(Halfway(entries, k), Indexed(k, entries[k]), Removed(entries[k + 1..], k + 1));
        if i :| 0 <= i < k && NormalizePathEntry(entries[i]) == NormalizePathEntry(entries[k]) {
          NotDistinct(entries, i, k);
          TooShort(entries, k);
        } else {
          DistinctExtend(entries, k);
          ReinsertedIff(entries, k + 1);
        }
      } else {
        DistinctExtend(entries, k);
        ReinsertedIff(entries, k + 1);
      }
    }
  }

  /** Herd's entries are told by their normalized text, so two with the same text are both Herd's. */
  lemma NotDistinct(entries: seq<Entry>, i: nat, k: nat)
    requires i < k < |entries| && IsHerdPhpPathEntry(entries[k])
    requires NormalizePathEntry(entries[i]) == NormalizePathEntry(entries[k])
    ensures !HerdDistinct(entries)
  {
    assert IsHerdPhpPathEntry(entries[i]);
    hide IsHerdPhpPathEntry, NormalizePathEntry;
  }

  lemma {:induction false} NonBlankAll(entries: seq<Entry>)
    requires forall e :: e in entries ==> !Blank(e)
    ensures NonBlank(entries) == entries
  {
    if entries != [] {
      assert entries[0] in entries;
      NonBlankAll(entries[1..]);
      assert entries == [entries[0]] + entries[1..];
    }
  }

  /** A PATH value is determined by its entries. */
  lemma EntriesOfJoin(entries: seq<Entry>)
    requires AreEntries(entries)
    ensures Entries(Join(entries, ";")) == entries
  {
    if entries == [] {
      assert Blank("");
    } else {
      SplitJoin(entries, ';');
      NonBlankAll(entries);
    }
  }

  lemma AreEntriesOf(value: string)
    ensures AreEntries(Entries(value)) && AreEntries(Kept(Entries(value)))
  {
    KeptPlain(Entries(value));
    var parts := Split(value, ';');
    assert forall e :: e in parts ==> ';' !in e;
  }

  /** Removing and restoring rebuilds the entries in their order exactly when no two Herd entries
      normalize to the same text. */
  lemma RemoveThenRestore(value: string)
    ensures var e := Entries(value);
      Reinserted(Entries(Join(Kept(e), ";")), Removed(e, 0)) == e <==> HerdDistinct(e)
  {
    hide *;
    var e := Entries(value);
    AreEntriesOf(value);
    EntriesOfJoin(Kept(e));
    NothingYet(e);
    ReinsertedIff(e, 0);
  }

  lemma NothingYet(entries: seq<Entry>)
    ensures HerdDistinct(entries[..0]) && entries[0..] == entries && Halfway(entries, 0) == Kept(entries)
  {
    hide IsHerdPhpPathEntry, NormalizePathEntry;
  }

  // ---------------------------------------------------------------------------------------------
  // Positions past the end
  // ---------------------------------------------------------------------------------------------

  /** Whether restoring inserts every entry at its recorded position, never past the end of the list. */
  predicate NeverClamped(entries: seq<Entry>, removed: seq<Indexed>)
    decreases |removed|
  {
    removed != [] ==>
      var r := removed[0];
      if Present(entries, r.entry) then NeverClamped(entries, removed[1..])
      else r.index <= |entries| && NeverClamped(InsertAt(entries, r.index, r.entry), removed[1..])
  }

  predicate Alike(a: Entry, b: Entry) {
    NormalizePathEntry(a) == NormalizePathEntry(b)
  }

  /** One of the first `k` entries normalizes like `x`. */
  ghost predicate Before(entries: seq<Entry>, k: nat, x: Entry)
    requires k <= |entries|
  {
    exists j :: 0 <= j < k && Alike(entries[j], x)
  }

  /** The entry at `k` is a Herd entry that is not put back, since one like it is there already. */
  ghost predicate Repeated(entries: seq<Entry>, k: nat)
    requires k < |entries|
  {
    IsHerdPhpPathEntry(entries[k]) && Before(entries, k, entries[k])
  }

  /** How many of the first `k` entries are not put back. */
  ghost function Repeats(entries: seq<Entry>, k: nat): nat
    requires k <= |entries|
  {
    if k == 0 then 0 else Repeats(entries, k - 1) + if Repeated(entries, k - 1) then 1 else 0
  }

  /** The entry at `k` is put back, and the entries after it make up for those before it that are not. */
  ghost predicate Reaches(entries: seq<Entry>, k: nat)
    requires k < |entries|
  {
    IsHerdPhpPathEntry(entries[k]) && !Repeated(entries, k) ==> Repeats(entries, k) <= |Kept(entries[k..])|
  }

  /** Of the Herd entries, `list` has those like one of the first `k`. */
  ghost predicate HasHerd(list: seq<Entry>, entries: seq<Entry>, k: nat)
    requires k <= |entries|
  {
    forall x :: IsHerdPhpPathEntry(x) ==> (Present(list, x) <==> Before(entries, k, x))
  }

  lemma HerdAlike(a: Entry, b: Entry)
    requires Alike(a, b)
    ensures IsHerdPhpPathEntry(a) <==> IsHerdPhpPathEntry(b)
  {
  }

  lemma PresentInserted(list: seq<Entry>, index: nat, e: Entry, x: Entry)
    ensures Present(InsertAt(list, index, e), x) <==> Present(list, x) || Alike(e, x)
  {
    hide NormalizePathEntry;
    var at := if index < |list| then index else |list|;
    var longer := InsertAt(list, index, e);
    assert longer[at] == e;
    assert forall i :: 0 <= i < at ==> longer[i] == list[i];
    assert forall i :: at <= i < |list| ==> longer[i + 1] == list[i];
    if i :| 0 <= i < |list| && NormalizePathEntry(list[i]) == NormalizePathEntry(x) {
      assert NormalizePathEntry(longer[if i < at then i else i + 1]) == NormalizePathEntry(x);
    }
  }

  lemma BeforeNext(entries: seq<Entry>, k: nat, x: Entry)
    requires k < |entries|
    ensures Before(entries, k + 1, x) <==> Before(entries, k, x) || Alike(entries[k], x)
  {
    hide Alike;
  }

  /** One turn of the restore loop keeps track of the Herd entries. */
  lemma HasHerdNext(list: seq<Entry>, entries: seq<Entry>, k: nat)
    requires k < |entries| && HasHerd(list, entries, k)
    ensures if IsHerdPhpPathEntry(entries[k]) && !Present(list, entries[k]) then
              HasHerd(InsertAt(list, k, entries[k]), entries, k + 1)
            else
              HasHerd(list, entries, k + 1)
    ensures IsHerdPhpPathEntry(entries[k]) ==> (Present(list, entries[k]) <==> Repeated(entries, k))
  {
    hide IsHerdPhpPathEntry, Present, InsertAt, Alike, Before;
    var e := entries[k];
    forall x | IsHerdPhpPathEntry(x)
      ensures Present(InsertAt(list, k, e), x) <==> Present(list, x) || Alike(e, x)
      ensures Before(entries, k + 1, x) <==> Before(entries, k, x) || Alike(e, x)
      ensures Alike(e, x) ==> IsHerdPhpPathEntry(e)
      ensures Alike(e, x) && Present(list, e) ==> Present(list, x)
    {
      PresentInserted(list, k, e, x);
      BeforeNext(entries, k, x);
      if Alike(e, x) {
        HerdAlike(e, x);
        PresentAlike(list, e, x);
      }
    }
  }

  lemma PresentAlike(list: seq<Entry>, a: Entry, b: Entry)
    requires Alike(a, b)
    ensures Present(list, a) <==> Present(list, b)
  {
    hide NormalizePathEntry;
  }

  lemma {:induction false} NeverClampedFrom(entries: seq<Entry>, k: nat, list: seq<Entry>)
    requires k <= |entries| && HasHerd(list, entries, k)
    requires |list| == k - Repeats(entries, k) + |Kept(entries[k..])|
    ensures NeverClamped(list, Removed(entries[k..], k)) <==>
            forall i :: k <= i < |entries| ==> Reaches(entries, i)
    decreases |entries| - k
  {
    hide HasHerd, Repeated, Present, IsHerdPhpPathEntry;
    if k < |entries| {
      HasHerdNext(list, entries, k);
      HalfwayStep(entries, k);
      KeptStep(entries, k);
      var e := entries[k];
      if IsHerdPhpPathEntry(e) {
        ClampedFirst(list, Indexed(k, e), Removed(entries[k + 1..], k + 1));
        NeverClampedFrom(entries, k + 1, if Present(list, e) then list else InsertAt(list, k, e));
      } else {
        assert !Repeated(entries, k) by { NotRepeated(entries, k); }
        NeverClampedFrom(entries, k + 1, list);
      }
      assert (forall i :: k <= i < |entries| ==> Reaches(entries, i)) <==>
             Reaches(entries, k) && forall i :: k + 1 <= i < |entries| ==> Reaches(entries, i);
    } else {
      assert entries[k..] == [];
    }
  }

  lemma NotRepeated(entries: seq<Entry>, k: nat)
    requires k < |entries| && !IsHerdPhpPathEntry(entries[k])
    ensures !Repeated(entries, k)
  {
  }

  lemma KeptStep(entries: seq<Entry>, k: nat)
    requires k < |entries|
    ensures |Kept(entries[k..])| == |Kept(entries[k + 1..])| + if IsHerdPhpPathEntry(entries[k]) then 0 else 1
  {
    hide IsHerdPhpPathEntry;
    assert entries[k..] == [entries[k]] + entries[k + 1..];
  }

  lemma ClampedFirst(list: seq<Entry>, r: Indexed, rest: seq<Indexed>)
    ensures NeverClamped(list, [r] + rest) <==>
            if Present(list, r.entry) then NeverClamped(list, rest)
            else r.index <= |list| && NeverClamped(InsertAt(list, r.index, r.entry), rest)
  {
    hide Present, InsertAt;
    assert ([r] + rest)[1..] == rest;
  }

  /** What is left after the removal has no Herd entry. */
  lemma KeptHasNone(entries: seq<Entry>, list: seq<Entry>)
    requires forall e :: e in list ==> !IsHerdPhpPathEntry(e)
    ensures HasHerd(list, entries, 0)
  {
    hide IsHerdPhpPathEntry, Alike;
    forall x | IsHerdPhpPathEntry(x)
      ensures !Present(list, x)
    {
      if i :| 0 <= i < |list| && NormalizePathEntry(list[i]) == NormalizePathEntry(x) {
        AlikeIs(list[i], x);
        HerdAlike(list[i], x);
      }
    }
  }

  lemma AlikeIs(a: Entry, b: Entry)
    ensures Alike(a, b) <==> NormalizePathEntry(a) == NormalizePathEntry(b)
  {
  }

  /** Restoring what was removed never has to clamp a position, exactly if for every entry that is put back
      at least as many kept entries follow it as Herd entries before it are not put back. */
  lemma NeverClampedIff(entries: seq<Entry>)
    ensures NeverClamped(Kept(entries), Removed(entries, 0)) <==>
            forall i :: 0 <= i < |entries| ==> Reaches(entries, i)
  {
    KeptPlain(entries);
    KeptHasNone(entries, Kept(entries));
    assert entries[0..] == entries && Repeats(entries, 0) == 0;
    hide Kept, Removed, Reaches, HasHerd, NeverClamped;
    NeverClampedFrom(entries, 0, Kept(entries));
  }

  lemma {:induction false} NoRepeats(entries: seq<Entry>, k: nat)
    requires k <= |entries| && HerdDistinct(entries)
    ensures Repeats(entries, k) == 0 && forall i :: 0 <= i < k ==> !Repeated(entries, i)
  {
    if k > 0 {
      NoRepeats(entries, k - 1);
      RepeatedNotDistinct(entries, k - 1);
    }
  }

  lemma RepeatedNotDistinct(entries: seq<Entry>, k: nat)
    requires k < |entries|
    ensures Repeated(entries, k) ==> !HerdDistinct(entries)
  {
    if Repeated(entries, k) {
      hide IsHerdPhpPathEntry, NormalizePathEntry;
      var j :| 0 <= j < k && Alike(entries[j], entries[k]);
      NotDistinct(entries, j, k);
    }
  }

  /** In particular never when the Herd entries are distinct. */
  lemma DistinctNeverClamped(entries: seq<Entry>)
    requires HerdDistinct(entries)
    ensures NeverClamped(Kept(entries), Removed(entries, 0))
  {
    NoRepeats(entries, |entries|);
    forall i | 0 <= i < |entries|
      ensures Reaches(entries, i)
    {
      NoRepeats(entries, i);
    }
    hide *;
    NeverClampedIff(entries);
  }

  /** With two Herd entries alike and a third after them, the third is inserted past the end. */
  lemma RepeatClamps(h: Entry, again: Entry, g: Entry)
    requires IsHerdPhpPathEntry(h) && Alike(h, again) && IsHerdPhpPathEntry(g) && !Alike(h, g)
    ensures !NeverClamped(Kept([h, again, g]), Removed([h, again, g], 0))
  {
    var e := [h, again, g];
    HerdAlike(h, again);
    hide IsHerdPhpPathEntry;
    assert !Alike(again, g) by { hide NormalizePathEntry; }
    hide Alike;
    assert Alike(e[0], e[1]) && Before(e, 1, e[1]) && Repeated(e, 1);
    assert !Before(e, 2, e[2]) by {
      assert forall j :: 0 <= j < 2 ==> e[j] == h || e[j] == again;
    }
    assert Repeats(e, 2) >= 1;
    assert e[2..] == [g] && Kept([g]) == [];
    assert !Reaches(e, 2);
    NeverClampedIff(e);
  }
}
