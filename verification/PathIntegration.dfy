/** The terminal integrations of PHP and Node.js on Windows: both live in one directory, and so share one
    PATH entry `bin`. */
module PathIntegration {
  import opened Wrappers
  import opened Text
  import opened PathEntries
  import opened PathRestore

  /** The user PATH, the backup file of removed Herd entries (empty when there is none), and whether the
      shims of PHP and of Node.js are there. */
  datatype Integration = Integration(path: string, backup: seq<Indexed>, php: bool, node: bool)

  predicate PathContains(value: string, path: Entry) {
    Present(Split(value, ';'), path)
  }

  function PrependPathEntry(value: string, path: Entry): string {
    if Trim(value) == "" then path else path + ";" + value
  }

  /** What the backup file can hold. */
  predicate Storable(removed: seq<Indexed>) {
    forall r :: r in removed ==> '\r' !in r.entry && '\n' !in r.entry && '\t' !in r.entry
  }

  /** Tabs and line breaks (9, 10 and 13) are its own. */
  lemma StorableIs(removed: seq<Indexed>)
    ensures Storable(removed) <==> forall r, c :: r in removed && c in r.entry ==> c as int !in {9, 10, 13}
  {
  }

  datatype Event = EnablePhp | DisablePhp | EnableNode | DisableNode

  /** An entry that the backup file cannot hold is an error, found after the shim was written. */
  function Apply(s: Integration, e: Event, bin: Entry): Integration {
    match e
    case EnablePhp =>
      var without, removed := Join(Kept(Entries(s.path)), ";"), Removed(Entries(s.path), 0);
      if !Storable(removed) then s.(php := true)
      else
        s.(php := true,
           path := if PathContains(without, bin) then without else PrependPathEntry(without, bin),
           backup := if removed != [] then removed else s.backup)
    case DisablePhp =>
      var without := if s.node then s.path else Join(Without(Entries(s.path), bin), ";");
      s.(php := false, path := Join(Reinserted(Entries(without), s.backup), ";"), backup := [])
    case EnableNode =>
      s.(node := true, path := if PathContains(s.path, bin) then s.path else PrependPathEntry(s.path, bin))
    case DisableNode =>
      s.(node := false,
         path := if !s.php && PathContains(s.path, bin) then Join(Without(Entries(s.path), bin), ";") else s.path)
  }

  function Run(s: Integration, events: seq<Event>, bin: Entry): Integration
    decreases |events|
  {
    if events == [] then s else Run(Apply(s, events[0], bin), events[1..], bin)
  }

  /** The integrations' own directory: one PATH entry that is not Herd's. */
  ghost predicate OwnEntry(bin: Entry) {
    ';' !in bin && NormalizePathEntry(bin) != "" && !IsHerdPhpPathEntry(bin) && !Blank(bin)
  }

  function Others(s: Integration, bin: Entry): seq<Entry> {
    Without(Entries(s.path), bin)
  }

  // ---------------------------------------------------------------------------------------------
  // PATH values and their entries
  // ---------------------------------------------------------------------------------------------

  lemma {:induction false} TrimStartFacts(s: string)
    ensures TrimStart(s) == "" <==> forall c :: c in s ==> IsSpace(c)
    ensures TrimStart(s) != "" ==> !IsSpace(TrimStart(s)[0])
  {
    if s != "" {
      assert s == [s[0]] + s[1..];
      TrimStartFacts(s[1..]);
    }
  }

  lemma {:induction false} TrimEndKeepsFirst(s: string)
    requires s != "" && !IsSpace(s[0])
    ensures TrimEnd(s) != ""
  {
    if IsSpace(s[|s| - 1]) {
      TrimEndKeepsFirst(s[..|s| - 1]);
    }
  }

  /** Blank means white space only. */
  lemma BlankIff(s: string)
    ensures Trim(s) == "" <==> forall c :: c in s ==> IsSpace(c)
  {
    TrimStartFacts(s);
    if TrimStart(s) != "" {
      TrimEndKeepsFirst(TrimStart(s));
    }
  }

  lemma JoinNotBlank(entries: seq<Entry>)
    requires AreEntries(entries) && entries != []
    ensures Trim(Join(entries, ";")) != ""
  {
    BlankIff(entries[0]);
    BlankIff(Join(entries, ";"));
    assert !Blank(entries[0]) by { assert entries[0] in entries; }
    assert forall c :: c in entries[0] ==> c in Join(entries, ";");
  }

  lemma PrependJoin(entries: seq<Entry>, bin: Entry)
    requires AreEntries(entries)
    ensures PrependPathEntry(Join(entries, ";"), bin) == Join([bin] + entries, ";")
  {
    if entries == [] {
      BlankIff("");
    } else {
      JoinNotBlank(entries);
      assert ([bin] + entries)[1..] == entries;
    }
  }

  lemma {:induction false} RemovedIn(entries: seq<Entry>, from: nat)
    ensures forall r :: r in Removed(entries, from) ==> r.entry in entries
  {
    hide IsHerdPhpPathEntry;
    if entries != [] {
      RemovedIn(entries[1..], from + 1);
    }
  }

  lemma {:induction false} ReinsertedEntries(entries: seq<Entry>, removed: seq<Indexed>)
    requires AreEntries(entries) && forall r :: r in removed ==> ';' !in r.entry && !Blank(r.entry)
    ensures AreEntries(Reinserted(entries, removed))
    decreases |removed|
  {
    hide Blank, Present;
    if removed != [] {
      var r := removed[0];
      assert r in removed;
      ReinsertedEntries(
        if Present(entries, r.entry) then entries else InsertAt(entries, r.index, r.entry), removed[1..]);
    }
  }

  lemma SplitBlank(s: string)
    requires forall c :: c in s ==> IsSpace(c)
    ensures NormalizePathEntry(s) == ""
  {
    BlankIff(s);
  }

  /** Blank parts of a PATH value are like no entry. */
  lemma PathContainsIff(path: string, bin: Entry)
    requires OwnEntry(bin)
    ensures PathContains(path, bin) <==> Present(Entries(path), bin)
  {
    var parts, entries := Split(path, ';'), Entries(path);
    forall e | e in parts && NormalizePathEntry(e) == NormalizePathEntry(bin)
      ensures !Blank(e)
    {
      BlankIff(e);
      if Blank(e) {
        SplitBlank(e);
      }
    }
    assert forall e :: e in entries <==> e in parts && !Blank(e);
    PresentIn(parts, bin);
    PresentIn(entries, bin);
    hide *;
  }

  lemma PresentIn(entries: seq<Entry>, bin: Entry)
    ensures Present(entries, bin) <==> exists e :: e in entries && NormalizePathEntry(e) == NormalizePathEntry(bin)
  {
    hide NormalizePathEntry;
    if e :| e in entries && NormalizePathEntry(e) == NormalizePathEntry(bin) {
      var i :| 0 <= i < |entries| && entries[i] == e;
    }
  }

  lemma WithoutIn(entries: seq<Entry>, bin: Entry)
    requires AreEntries(entries)
    ensures AreEntries(Without(entries, bin)) && AreEntries(Kept(entries))
  {
    WithoutHas(entries, bin);
    KeptPlain(entries);
    hide Blank;
  }

  lemma NonBlankFirst(e: Entry, rest: seq<Entry>)
    ensures NonBlank([e] + rest) == if Blank(e) then NonBlank(rest) else [e] + NonBlank(rest)
  {
    hide Blank;
    assert ([e] + rest)[1..] == rest;
  }

  lemma PrependEntries(path: string, bin: Entry)
    requires OwnEntry(bin)
    ensures Entries(PrependPathEntry(path, bin)) == [bin] + Entries(path)
  {
    if Trim(path) == "" {
      BlankEntries(path);
      SplitPiece(bin, ';');
      NonBlankFirst(bin, []);
      hide Blank, NonBlank, Split, Trim;
      assert [bin] + [] == [bin];
      BlankEntries("");
    } else {
      SplitFirst(bin, ';', path);
      NonBlankFirst(bin, Split(path, ';'));
      hide Blank, NonBlank, Split, Trim;
      assert bin + [';'] + path == bin + ";" + path;
    }
  }

  lemma BlankEntries(path: string)
    requires Trim(path) == ""
    ensures Entries(path) == [] && NonBlank([]) == []
  {
    BlankIff(path);
    assert !IsSpace(';');
    SplitPiece(path, ';');
    NonBlankFirst(path, []);
    assert [path] + [] == [path];
  }

  // ---------------------------------------------------------------------------------------------
  // What each operation does to the entries
  // ---------------------------------------------------------------------------------------------

  lemma EnablePhpEntries(s: Integration, bin: Entry)
    requires OwnEntry(bin) && Storable(Removed(Entries(s.path), 0))
    ensures var l, t := Entries(s.path), Apply(s, EnablePhp, bin);
      && Entries(t.path) == (if Present(l, bin) then Kept(l) else [bin] + Kept(l))
      && t.php && t.node == s.node && Present(Entries(t.path), bin)
      && t.backup == if Removed(l, 0) != [] then Removed(l, 0) else s.backup
  {
    var l := Entries(s.path);
    var without := Join(Kept(l), ";");
    AreEntriesOf(s.path);
    EntriesOfJoin(Kept(l));
    PathContainsIff(without, bin);
    PrependEntries(without, bin);
    KeptPresent(l, bin);
    FrontPresent(bin, Kept(l));
    hide Entries, Kept, Removed, Present, PathContains, PrependPathEntry, OwnEntry, AreEntries, Storable, Join;
  }

  lemma KeptPresent(l: seq<Entry>, bin: Entry)
    requires OwnEntry(bin)
    ensures Present(Kept(l), bin) <==> Present(l, bin)
  {
    KeptPlain(l);
    PresentIn(l, bin);
    PresentIn(Kept(l), bin);
    hide Kept, Present;
    forall e | e in l && NormalizePathEntry(e) == NormalizePathEntry(bin)
      ensures !IsHerdPhpPathEntry(e)
    {
      HerdAlike(e, bin);
    }
    hide NormalizePathEntry, IsHerdPhpPathEntry;
  }

  lemma FrontPresent(bin: Entry, l: seq<Entry>)
    ensures Present([bin] + l, bin)
  {
    hide NormalizePathEntry;
    assert ([bin] + l)[0] == bin;
  }

  lemma DisablePhpEntries(s: Integration, bin: Entry)
    requires forall r :: r in s.backup ==> ';' !in r.entry && !Blank(r.entry)
    ensures var l, t := Entries(s.path), Apply(s, DisablePhp, bin);
      && Entries(t.path) == Reinserted(if s.node then l else Without(l, bin), s.backup)
      && !t.php && t.node == s.node && t.backup == []
  {
    var l := Entries(s.path);
    AreEntriesOf(s.path);
    WithoutIn(l, bin);
    EntriesOfJoin(Without(l, bin));
    var list := if s.node then l else Without(l, bin);
    hide Entries, Without, AreEntries, Blank, Join, Reinserted;
    ReinsertedEntries(list, s.backup) by { hide AreEntries; }
    EntriesOfJoin(Reinserted(list, s.backup));
  }

  predicate IsNode(e: Event) {
    e.EnableNode? || e.DisableNode?
  }

  /** Node.js leaves the others alone, and the whole PATH as long as PHP is on and has its entry. */
  lemma NodeEntries(s: Integration, e: Event, bin: Entry)
    requires OwnEntry(bin) && IsNode(e)
    ensures var t := Apply(s, e, bin);
      && Others(t, bin) == Others(s, bin) && t.php == s.php && t.backup == s.backup && t.node == e.EnableNode?
      && (s.php && Present(Entries(s.path), bin) ==> t.path == s.path)
      && (e.DisableNode? && !s.php ==> Entries(t.path) == Without(Entries(s.path), bin))
  {
    var l := Entries(s.path);
    PathContainsIff(s.path, bin);
    PresentIff(l, bin);
    if !Present(l, bin) {
      WithoutNone(l, bin);
    }
    PrependEntries(s.path, bin);
    AlikeSelf(bin);
    WithoutFirst(bin, l, bin);
    AreEntriesOf(s.path);
    WithoutIn(l, bin);
    EntriesOfJoin(Without(l, bin));
    WithoutTwice(l, bin);
    hide Entries, Without, AreEntries, Present, PathContains, PrependPathEntry, OwnEntry, Join, Alike;
  }

  lemma {:induction false} NodeRun(s: Integration, events: seq<Event>, bin: Entry)
    requires OwnEntry(bin) && forall i :: 0 <= i < |events| ==> IsNode(events[i])
    ensures var t := Run(s, events, bin);
      && Others(t, bin) == Others(s, bin) && t.php == s.php && t.backup == s.backup
      && (s.php && Present(Entries(s.path), bin) ==> t.path == s.path)
    decreases |events|
  {
    hide OwnEntry, Apply, Others, Present, Entries;
    if events != [] {
      NodeEntries(s, events[0], bin);
      NodeRun(Apply(s, events[0], bin), events[1..], bin);
    }
  }

  // ---------------------------------------------------------------------------------------------
  // PHP on and off again
  // ---------------------------------------------------------------------------------------------

  /** There is a backup only while PHP is on. */
  lemma {:induction false} BackupWhileOn(s: Integration, events: seq<Event>, bin: Entry)
    requires s.backup != [] ==> s.php
    ensures Run(s, events, bin).backup != [] ==> Run(s, events, bin).php
    decreases |events|
  {
    if events != [] {
      BackupStep(s, events[0], bin);
      hide Apply;
      BackupWhileOn(Apply(s, events[0], bin), events[1..], bin);
    }
  }

  lemma BackupStep(s: Integration, e: Event, bin: Entry)
    requires s.backup != [] ==> s.php
    ensures Apply(s, e, bin).backup != [] ==> Apply(s, e, bin).php
  {
    hide Entries, Kept, Removed, Storable, PathContains, PrependPathEntry, Reinserted, Without, Join;
  }

  /** The state after PHP was enabled, Node.js went on and off any number of times, and PHP was disabled. */
  function OnAndOff(s: Integration, between: seq<Event>, bin: Entry): Integration {
    Apply(Run(Apply(s, EnablePhp, bin), between, bin), DisablePhp, bin)
  }

  /** From any PATH, whether or not the directory is on it (and no backup, as long as PHP is off): the other
      entries come back in their order
      exactly if nothing was removed for want of a backup, or no two Herd entries are alike and the Herd
      entries stand where it does not matter that the directory has come (Node.js holds on to it) or gone. */
  lemma OthersAfter(s: Integration, between: seq<Event>, bin: Entry)
    requires OwnEntry(bin) && s.backup == []
    requires forall i :: 0 <= i < |between| ==> IsNode(between[i])
    ensures var l, shims := Entries(s.path), Run(Apply(s, EnablePhp, bin), between, bin).node;
      Others(OnAndOff(s, between, bin), bin) == Others(s, bin) <==>
      (Storable(Removed(l, 0)) ==> ComesBack(l, bin, shims))
  {
    var l := Entries(s.path);
    var on := Apply(s, EnablePhp, bin);
    var held := Run(on, between, bin);
    if Storable(Removed(l, 0)) {
      StoredOnAndOff(s, between, bin);
      assert !IsHerdPhpPathEntry(bin);
      hide *;
      OthersComeBack(l, bin, held.node);
    } else {
      assert on == s.(php := true);
      assert Others(on, bin) == Others(s, bin);
      hide *;
      NodeRun(on, between, bin);
      NothingStored(held, bin);
    }
  }

  lemma StoredOnAndOff(s: Integration, between: seq<Event>, bin: Entry)
    requires OwnEntry(bin) && s.backup == []
    requires forall i :: 0 <= i < |between| ==> IsNode(between[i])
    ensures var l, held := Entries(s.path), Run(Apply(s, EnablePhp, bin), between, bin);
      Storable(Removed(l, 0)) ==>
        && Others(s, bin) == Without(l, bin)
        && Others(OnAndOff(s, between, bin), bin) ==
           Without(Reinserted(Changed(l, bin, held.node), Removed(l, 0)), bin)
  {
    var l := Entries(s.path);
    var on := Apply(s, EnablePhp, bin);
    var held := Run(on, between, bin);
    if Storable(Removed(l, 0)) {
      EnablePhpEntries(s, bin);
      NodeRun(on, between, bin);
      BackupFits(s.path);
      assert held.backup == Removed(l, 0);
      hide OwnEntry, Storable, Present, Entries, Removed, Kept, Apply, Run, Without, Reinserted, Blank;
      DisablePhpEntries(held, bin);
    }
  }

  lemma BackupFits(path: string)
    ensures forall r :: r in Removed(Entries(path), 0) ==> ';' !in r.entry && !Blank(r.entry)
  {
    AreEntriesOf(path);
    RemovedIn(Entries(path), 0);
    hide Entries, Blank, Removed;
  }

  lemma NothingStored(s: Integration, bin: Entry)
    requires s.backup == []
    ensures Others(Apply(s, DisablePhp, bin), bin) == Others(s, bin)
  {
    var l := Entries(s.path);
    DisablePhpEntries(s, bin);
    WithoutTwice(l, bin);
    hide Entries, Without, Apply;
  }

  /** With Node.js off all the while, and the directory not on the PATH before: exactly if no two Herd entries
      are alike; and then the whole PATH is back. */
  lemma EnableThenDisable(s: Integration, bin: Entry)
    requires OwnEntry(bin) && s.backup == [] && !s.node && !Present(Entries(s.path), bin)
    ensures Entries(OnAndOff(s, [], bin).path) == Entries(s.path) <==>
            (Storable(Removed(Entries(s.path), 0)) ==> HerdDistinct(Entries(s.path)))
  {
    var l := Entries(s.path);
    var on := Apply(s, EnablePhp, bin);
    assert Run(on, [], bin) == on && on.node == s.node;
    if Storable(Removed(l, 0)) {
      EnablePhpEntries(s, bin);
      BackupFits(s.path);
      DisablePhpEntries(on, bin);
      ChangedIs(l, bin, false);
      assert l[0..] == l;
      hide *;
      NothingYet(l);
      ReinsertedIff(l, 0);
    } else {
      DisablePhpEntries(on, bin);
      PresentIff(l, bin);
      WithoutNone(l, bin);
      hide *;
    }
  }

  /** Enabling PHP again changes nothing. */
  lemma EnableIdempotent(s: Integration, bin: Entry)
    requires OwnEntry(bin)
    ensures Apply(Apply(s, EnablePhp, bin), EnablePhp, bin) == Apply(s, EnablePhp, bin)
  {
    var l, t := Entries(s.path), Apply(s, EnablePhp, bin);
    if Storable(Removed(l, 0)) {
      EnablePhpEntries(s, bin);
      KeptNoHerd(l, bin);
      NoHerdKept(Entries(t.path));
      PathContainsIff(t.path, bin);
      PathIsJoin(s, bin);
      hide Entries, Kept, Removed, Present, PathContains, PrependPathEntry, OwnEntry, Join;
    }
  }

  lemma KeptNoHerd(l: seq<Entry>, bin: Entry)
    requires OwnEntry(bin)
    ensures NoHerd(Kept(l)) && NoHerd([bin] + Kept(l))
  {
    KeptPlain(l);
    hide IsHerdPhpPathEntry, Kept;
    var k := Kept(l);
    assert forall i :: 0 <= i < |k| ==> k[i] in k;
  }

  lemma PathIsJoin(s: Integration, bin: Entry)
    requires OwnEntry(bin) && Storable(Removed(Entries(s.path), 0))
    ensures var t := Apply(s, EnablePhp, bin); t.path == Join(Entries(t.path), ";")
  {
    var l := Entries(s.path);
    EnablePhpEntries(s, bin);
    AreEntriesOf(s.path);
    PathContainsIff(Join(Kept(l), ";"), bin);
    EntriesOfJoin(Kept(l));
    KeptPresent(l, bin);
    PrependJoin(Kept(l), bin);
    hide Entries, Kept, Removed, Present, PathContains, PrependPathEntry, OwnEntry, AreEntries, Storable, Join;
  }

  /** Herd's only entry `h` is behind `a`. Node.js is enabled after PHP and disabled after it, and then `h` is
      in front. */
  ghost predicate Reorders(a: Entry, h: Entry, bin: Entry) {
    var s := Integration(Join([a, h], ";"), [], false, false);
    && Entries(s.path) == [a, h] && HerdDistinct([a, h]) && a != h
    && Entries(Run(s, [EnablePhp, EnableNode, DisablePhp, DisableNode], bin).path) == [h, a]
  }

  lemma NodeReorders(a: Entry, h: Entry, bin: Entry)
    requires OwnEntry(bin) && AreEntries([a, h]) && Storable([Indexed(1, h)])
    requires !IsHerdPhpPathEntry(a) && IsHerdPhpPathEntry(h) && !Alike(a, bin)
    ensures Reorders(a, h, bin)
  {
    var s := Integration(Join([a, h], ";"), [], false, false);
    assert !IsHerdPhpPathEntry(bin);
    hide *;
    var s1 := Apply(s, EnablePhp, bin);
    var s2 := Apply(s1, EnableNode, bin);
    var s3 := Apply(s2, DisablePhp, bin);
    var s4 := Apply(s3, DisableNode, bin);
    EntriesOfJoin([a, h]);
    TwoKept(a, h, bin);
    TwoBack(a, h, bin);
    EnablePhpEntries(s, bin);
    NodeEntries(s1, EnableNode, bin);
    assert [bin] + [a] == [bin, a] && [Indexed(1, h)] != [];
    BackupFits(s.path);
    DisablePhpEntries(s2, bin);
    NodeEntries(s3, DisableNode, bin);
    FourSteps(s, bin);
    ReorderedIs(a, h, bin);
  }

  lemma ReorderedIs(a: Entry, h: Entry, bin: Entry)
    ensures var s := Integration(Join([a, h], ";"), [], false, false);
      && Entries(s.path) == [a, h] && HerdDistinct([a, h]) && a != h
      && Entries(Run(s, [EnablePhp, EnableNode, DisablePhp, DisableNode], bin).path) == [h, a]
      ==> Reorders(a, h, bin)
  {
    hide Entries, HerdDistinct, Run, Join;
  }

  lemma FourSteps(s: Integration, bin: Entry)
    ensures Run(s, [EnablePhp, EnableNode, DisablePhp, DisableNode], bin) ==
            Apply(Apply(Apply(Apply(s, EnablePhp, bin), EnableNode, bin), DisablePhp, bin), DisableNode, bin)
  {
    hide Apply;
    var e := [EnablePhp, EnableNode, DisablePhp, DisableNode];
    assert e[1..] == [EnableNode, DisablePhp, DisableNode] && e[1..][1..] == [DisablePhp, DisableNode];
    assert e[1..][1..][1..] == [DisableNode] && e[1..][1..][1..][1..] == [];
  }

  lemma TwoKept(a: Entry, h: Entry, bin: Entry)
    requires !IsHerdPhpPathEntry(a) && IsHerdPhpPathEntry(h) && !IsHerdPhpPathEntry(bin) && !Alike(a, bin)
    ensures Kept([a, h]) == [a] && Removed([a, h], 0) == [Indexed(1, h)] && !Present([a, h], bin)
    ensures a != h && HerdDistinct([a, h])
  {
    hide *;
    HerdOrOwn(h, bin);
    NothingOf(bin);
    KeptFirst(a, [h]);
    KeptFirst(h, []);
    RemovedFirst(a, [h], 0);
    RemovedFirst(h, [], 1);
    assert [a] + [h] == [a, h] && [h] + [] == [h];
    assert [a] + [] == [a] && [Indexed(1, h)] + [] == [Indexed(1, h)];
    PresentIff([a, h], bin);
    TwoOthers(a, h, bin);
  }

  lemma TwoOthers(a: Entry, h: Entry, bin: Entry)
    requires !Alike(a, bin) && !Alike(h, bin) && !IsHerdPhpPathEntry(a) && IsHerdPhpPathEntry(h)
    ensures NoOwn([a, h], bin) && a != h && HerdDistinct([a, h])
  {
    hide Alike, IsHerdPhpPathEntry, NormalizePathEntry;
  }

  lemma NothingOf(bin: Entry)
    ensures Kept([]) == [] && Removed([], 2) == [] && Without([], bin) == []
  {
  }

  lemma TwoBack(a: Entry, h: Entry, bin: Entry)
    requires !IsHerdPhpPathEntry(a) && IsHerdPhpPathEntry(h) && !IsHerdPhpPathEntry(bin) && !Alike(a, bin)
    ensures Reinserted([bin, a], [Indexed(1, h)]) == [bin, h, a] && Without([bin, h, a], bin) == [h, a]
  {
    hide *;
    HerdOrOwn(h, bin);
    AlikeSelf(bin);
    NothingOf(bin);
    KeptHasNone([bin, a], [bin, a]);
    AbsentHerd([bin, a], h);
    WithoutFirst(bin, [h, a], bin);
    WithoutFirst(h, [a], bin);
    WithoutFirst(a, [], bin);
    assert [bin] + [h, a] == [bin, h, a] && [h] + [a] == [h, a] && [a] + [] == [a];
    ReinsertFirst([bin, a], Indexed(1, h), []);
    ReinsertNothing([bin, h, a]);
    assert [bin] + [a] == [bin, a] && [bin] + [h] + [a] == [bin, h, a];
    InsertHere([bin], [a], h);
    assert [Indexed(1, h)] + [] == [Indexed(1, h)] && |[bin]| == 1;
  }

  lemma ReinsertNothing(list: seq<Entry>)
    ensures Reinserted(list, []) == list
  {
  }

  lemma AbsentHerd(list: seq<Entry>, h: Entry)
    requires IsHerdPhpPathEntry(h) && HasHerd(list, list, 0)
    ensures !Present(list, h)
  {
    hide IsHerdPhpPathEntry, Present, Alike;
  }

  // One such PATH.

  lemma PlainEntry(s: Entry)
    requires s in {"a", "b", "\\herd\\bin"}
    ensures NormalizePathEntry(s) == s && Trim(s) == s && AreEntries([s])
  {
    assert !IsSpace(s[0]) && !IsSpace(s[|s| - 1]);
    assert TrimStart(s) == s;
    assert TrimEnd(s) == s;
    assert DropStart(s, c => c == '"') == s;
    assert DropEnd(s, c => c == '"') == s;
    assert DropEnd(s, c => c == '\\' || c == '/') == s;
    assert Lowered(s) == s;
    assert ';' !in s;
  }

  lemma SomePathReordered()
    ensures exists a, h, bin: Entry :: OwnEntry(bin) && Reorders(a, h, bin)
  {
    var a, h, bin := "a", "\\herd\\bin", "b";
    hide *;
    PlainEntries();
    PlainHerd();
    BothEntries(a, h);
    NodeReorders(a, h, bin);
  }

  lemma BothEntries(a: Entry, h: Entry)
    requires AreEntries([a]) && AreEntries([h])
    ensures AreEntries([a, h])
  {
    hide Blank;
    assert a in [a] && h in [h];
  }

  lemma PlainEntries()
    ensures !IsHerdPhpPathEntry("a") && OwnEntry("b") && !Alike("a", "b") && AreEntries(["a"])
  {
    PlainEntry("a");
    PlainEntry("b");
    hide NormalizePathEntry, Trim;
    assert "a"[0] != "b"[0];
  }

  lemma PlainHerd()
    ensures IsHerdPhpPathEntry("\\herd\\bin") && AreEntries(["\\herd\\bin"])
    ensures Storable([Indexed(1, "\\herd\\bin")])
  {
    var h := "\\herd\\bin";
    PlainEntry(h);
    hide NormalizePathEntry, Trim, Blank;
    assert '\r' !in h && '\n' !in h && '\t' !in h;
    WholeAt(h);
  }

  lemma WholeAt(s: string)
    ensures At(s, s, 0)
  {
  }

  // ---------------------------------------------------------------------------------------------
  // While an integration is on
  // ---------------------------------------------------------------------------------------------

  /** A backup that could have been saved from a PATH. */
  predicate Separate(backup: seq<Indexed>) {
    forall r :: r in backup ==> ';' !in r.entry && !Blank(r.entry)
  }

  /** Node.js is reached through the PATH while it is on, PHP while it is on and its entries could be backed
      up, and then none of Herd's entries is in its way. */
  ghost predicate OnPath(s: Integration, bin: Entry) {
    && Separate(s.backup)
    && (s.node ==> Present(Entries(s.path), bin))
    && (s.php ==> Present(Entries(s.path), bin) && NoHerd(Entries(s.path)))
  }

  /** PHP is only enabled when Herd's entries can be backed up. */
  predicate Stores(s: Integration, events: seq<Event>, bin: Entry)
    decreases |events|
  {
    events != [] ==>
      && (events[0].EnablePhp? ==> Storable(Removed(Entries(s.path), 0)))
      && Stores(Apply(s, events[0], bin), events[1..], bin)
  }

  lemma {:induction false} PresentReinserted(list: seq<Entry>, removed: seq<Indexed>, x: Entry)
    requires Present(list, x)
    ensures Present(Reinserted(list, removed), x)
    decreases |removed|
  {
    if removed != [] {
      var r := removed[0];
      PresentInserted(list, r.index, r.entry, x);
      hide Present, InsertAt;
      PresentReinserted(
        if Present(list, r.entry) then list else InsertAt(list, r.index, r.entry), removed[1..], x);
    }
  }

  lemma EnableNodeEntries(s: Integration, bin: Entry)
    requires OwnEntry(bin)
    ensures var l, t := Entries(s.path), Apply(s, EnableNode, bin);
      && t == s.(node := true, path := t.path)
      && Entries(t.path) == (if Present(l, bin) then l else [bin] + l) && Present(Entries(t.path), bin)
  {
    var l := Entries(s.path);
    PathContainsIff(s.path, bin);
    PrependEntries(s.path, bin);
    FrontPresent(bin, l);
    hide Entries, Present, PathContains, PrependPathEntry, OwnEntry;
  }

  lemma EnablePhpOnPath(s: Integration, bin: Entry)
    requires OwnEntry(bin) && OnPath(s, bin) && Storable(Removed(Entries(s.path), 0))
    ensures OnPath(Apply(s, EnablePhp, bin), bin)
  {
    hide *;
    EnablePhpEntries(s, bin);
    FreshBackup(s);
    NoneOfHerds(Entries(s.path), bin);
    WhileOn(s, Apply(s, EnablePhp, bin), bin);
  }

  lemma FreshBackup(s: Integration)
    ensures Separate(Removed(Entries(s.path), 0))
  {
    BackupFits(s.path);
  }

  lemma NoneOfHerds(l: seq<Entry>, bin: Entry)
    requires OwnEntry(bin)
    ensures NoHerd(Kept(l)) && NoHerd([bin] + Kept(l))
  {
    KeptPlain(l);
    assert !IsHerdPhpPathEntry(bin);
    assert forall i :: 0 <= i < |Kept(l)| ==> Kept(l)[i] in Kept(l);
    hide IsHerdPhpPathEntry, Kept;
  }

  lemma WhileOn(s: Integration, t: Integration, bin: Entry)
    requires OnPath(s, bin) && Separate(Removed(Entries(s.path), 0))
    requires Present(Entries(t.path), bin) && NoHerd(Entries(t.path))
    requires t.backup == if Removed(Entries(s.path), 0) != [] then Removed(Entries(s.path), 0) else s.backup
    ensures OnPath(t, bin)
  {
    hide Entries, Present, NoHerd, Separate, Removed;
  }

  lemma DisablePhpOnPath(s: Integration, bin: Entry)
    requires OnPath(s, bin)
    ensures OnPath(Apply(s, DisablePhp, bin), bin)
  {
    hide Entries, Present, Apply, Blank, NoHerd;
    DisablePhpEntries(s, bin);
    if s.node {
      PresentReinserted(Entries(s.path), s.backup, bin);
    }
  }

  lemma NodeOnPath(s: Integration, e: Event, bin: Entry)
    requires OwnEntry(bin) && OnPath(s, bin) && IsNode(e)
    ensures OnPath(Apply(s, e, bin), bin)
  {
    hide Entries, Present, Apply, Blank, NoHerd, OwnEntry;
    NodeEntries(s, e, bin);
    if e.EnableNode? {
      EnableNodeEntries(s, bin);
    }
  }

  lemma OnPathStep(s: Integration, e: Event, bin: Entry)
    requires OwnEntry(bin) && OnPath(s, bin)
    requires e.EnablePhp? ==> Storable(Removed(Entries(s.path), 0))
    ensures OnPath(Apply(s, e, bin), bin)
  {
    if e.EnablePhp? {
      EnablePhpOnPath(s, bin);
    } else if e.DisablePhp? {
      DisablePhpOnPath(s, bin);
    } else {
      NodeOnPath(s, e, bin);
    }
    hide *;
  }

  /** Over every run of the four operations. */
  lemma {:induction false} RunOnPath(s: Integration, events: seq<Event>, bin: Entry)
    requires OwnEntry(bin) && OnPath(s, bin) && Stores(s, events, bin)
    ensures OnPath(Run(s, events, bin), bin)
    decreases |events|
  {
    hide OwnEntry, OnPath, Apply;
    if events != [] {
      OnPathStep(s, events[0], bin);
      RunOnPath(Apply(s, events[0], bin), events[1..], bin);
    }
  }
}
