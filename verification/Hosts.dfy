/** The managed blocks of the Windows hosts file. */
module Hosts {
  import opened Wrappers
  import opened Text

  const SITE_MANAGED_START := "# BEGIN FABDEV MANAGED"
  const SITE_MANAGED_END := "# END FABDEV MANAGED"
  const PROXY_MANAGED_START := "# BEGIN FABDEV PROXY MANAGED"
  const PROXY_MANAGED_END := "# END FABDEV PROXY MANAGED"

  // ---------------------------------------------------------------------------------------------
  // The block editor
  // ---------------------------------------------------------------------------------------------

  function Lines(domains: seq<string>): string {
    if domains == [] then ""
    else Lines(domains[..|domains| - 1]) + "127.0.0.1 " + domains[|domains| - 1] + "\r\n"
  }

  function Removed(contents: string, startMarker: string, endMarker: string): Option<string> {
    match Find(contents, startMarker)
    case None => if Contains(contents, endMarker) then None else Some(contents)
    case Some(start) =>
      var remainder := contents[start + |startMarker|..];
      match Find(remainder, endMarker)
      case None => None
      case Some(offset) =>
        var rest := remainder[offset + |endMarker|..];
        if Contains(rest, startMarker) || Contains(rest, endMarker) then None
        else Some(TrimEndBreaks(contents[..start]) + rest)
  }

  function Rendered(startMarker: string, endMarker: string, domains: seq<string>): string {
    if domains == [] then "" else "\r\n\r\n" + startMarker + "\r\n" + Lines(domains) + endMarker
  }

  function Updated(contents: string, startMarker: string, endMarker: string, domains: seq<string>): Option<string> {
    match Removed(contents, startMarker, endMarker)
    case None => None
    case Some(rest) => Some(TrimEndBreaks(rest) + Rendered(startMarker, endMarker, domains) + "\r\n")
  }

  method UpdateManagedBlock(contents: string, startMarker: string, endMarker: string, domains: seq<string>)
    returns (r: Option<string>)
    ensures r == Updated(contents, startMarker, endMarker, domains)
  {
    var withoutManaged := Removed(contents, startMarker, endMarker);
    if withoutManaged.None? {
      return None;
    }
    var output := TrimEndBreaks(withoutManaged.value);
    if domains != [] {
      ghost var base := output;
      output := output + "\r\n\r\n";
      output := output + startMarker;
      output := output + "\r\n";
      ghost var head := output;
      for k := 0 to |domains|
        invariant output == head + Lines(domains[..k])
      {
        output := output + "127.0.0.1 ";
        output := output + domains[k];
        output := output + "\r\n";
        LinesSnoc(head, domains, k);
      }
      assert domains[..|domains|] == domains;
      output := output + endMarker;
      RenderedIs(base, startMarker, endMarker, domains);
    }
    assert output == TrimEndBreaks(withoutManaged.value) + Rendered(startMarker, endMarker, domains);
    output := output + "\r\n";
    return Some(output);
  }

  lemma LinesSnoc(head: string, domains: seq<string>, k: nat)
    requires k < |domains|
    ensures head + Lines(domains[..k + 1]) == head + Lines(domains[..k]) + "127.0.0.1 " + domains[k] + "\r\n"
  {
    assert domains[..k + 1][..k] == domains[..k];
    Assoc(head, Lines(domains[..k]), "127.0.0.1 " + domains[k] + "\r\n");
    Assoc(Lines(domains[..k]), "127.0.0.1 ", domains[k] + "\r\n");
    Assoc(head + Lines(domains[..k]), "127.0.0.1 ", domains[k] + "\r\n");
  }

  lemma RenderedIs(base: string, startMarker: string, endMarker: string, domains: seq<string>)
    requires domains != []
    ensures base + Rendered(startMarker, endMarker, domains)
         == base + "\r\n\r\n" + startMarker + "\r\n" + Lines(domains) + endMarker
  {
    var lines := Lines(domains);
    Assoc(base, "\r\n\r\n", startMarker + "\r\n" + lines + endMarker);
    Assoc(base, "\r\n\r\n" + startMarker, "\r\n" + lines + endMarker);
  }

  // ---------------------------------------------------------------------------------------------
  // Whole runs of updates
  // ---------------------------------------------------------------------------------------------

  datatype Kind = Site | Proxy

  /** One call of the editor: the new domain list of one kind of block. */
  datatype Update = Update(kind: Kind, domains: seq<string>)

  function StartMarker(k: Kind): string {
    if k == Site then SITE_MANAGED_START else PROXY_MANAGED_START
  }

  function EndMarker(k: Kind): string {
    if k == Site then SITE_MANAGED_END else PROXY_MANAGED_END
  }

  function Apply(contents: string, u: Update): Option<string> {
    Updated(contents, StartMarker(u.kind), EndMarker(u.kind), u.domains)
  }

  function ApplyAll(contents: string, updates: seq<Update>): Option<string>
    decreases |updates|
  {
    if updates == [] then Some(contents)
    else match Apply(contents, updates[0])
      case None => None
      case Some(next) => ApplyAll(next, updates[1..])
  }

  /** The blocks in file order. An update drops the block of its kind and appends the new list. */
  function Without(blocks: seq<Update>, k: Kind): seq<Update> {
    if blocks == [] then []
    else (if blocks[0].kind == k then [] else [blocks[0]]) + Without(blocks[1..], k)
  }

  function After(blocks: seq<Update>, u: Update): seq<Update> {
    Without(blocks, u.kind) + (if u.domains == [] then [] else [u])
  }

  function Latest(blocks: seq<Update>, updates: seq<Update>): seq<Update>
    decreases |updates|
  {
    if updates == [] then blocks
    else Latest(After(blocks, updates[0]), updates[1..])
  }

  function Render(blocks: seq<Update>): string {
    if blocks == [] then ""
    else Rendered(StartMarker(blocks[0].kind), EndMarker(blocks[0].kind), blocks[0].domains) + Render(blocks[1..])
  }

  function File(base: string, blocks: seq<Update>): string {
    base + Render(blocks) + "\r\n"
  }

  predicate ManagedChar(c: char) {
    ('a' <= c <= 'z') || ('0' <= c <= '9') || c == '.' || c == '-'
  }

  ghost predicate PlainDomains(domains: seq<string>) {
    forall d :: d in domains ==> forall c :: c in d ==> ManagedChar(c)
  }

  ghost predicate Plain(updates: seq<Update>) {
    forall u :: u in updates ==> PlainDomains(u.domains)
  }

  /** At most one block of each kind, none of them empty. */
  ghost predicate WellFormed(blocks: seq<Update>) {
    && Plain(blocks)
    && (forall u :: u in blocks ==> u.domains != [])
    && DistinctKinds(blocks)
  }

  ghost predicate MarkerFree(s: string) {
    && Free(s, SITE_MANAGED_START) && Free(s, SITE_MANAGED_END)
    && Free(s, PROXY_MANAGED_START) && Free(s, PROXY_MANAGED_END)
  }

  lemma SiteStart()
    ensures IsMarker(SITE_MANAGED_START)
  {
  }

  lemma SiteEnd()
    ensures IsMarker(SITE_MANAGED_END)
  {
  }

  lemma ProxyStart()
    ensures IsMarker(PROXY_MANAGED_START)
  {
  }

  lemma ProxyEnd()
    ensures IsMarker(PROXY_MANAGED_END)
  {
  }

  lemma Markers(k: Kind)
    ensures IsMarker(StartMarker(k)) && IsMarker(EndMarker(k))
  {
    SiteStart();
    SiteEnd();
    ProxyStart();
    ProxyEnd();
  }

  /** A marker starts with the only `#` it has, so it can only occur where a `#` is. */
  lemma FreeOfMarker(s: string, m: string)
    requires IsMarker(m)
    requires forall i :: 0 <= i < |s| && s[i] == '#' ==> !At(s, m, i)
    ensures Free(s, m)
  {
    forall i
      ensures !At(s, m, i)
    {
      if At(s, m, i) {
        AtChar(s, m, i, 0);
      }
    }
  }

  lemma OtherMarker(k: Kind, other: Kind)
    requires k != other
    ensures Free(StartMarker(other), StartMarker(k)) && Free(StartMarker(other), EndMarker(k))
    ensures Free(EndMarker(other), StartMarker(k)) && Free(EndMarker(other), EndMarker(k))
  {
    Markers(k);
    Markers(other);
    forall m, o | m in {StartMarker(k), EndMarker(k)} && o in {StartMarker(other), EndMarker(other)}
      ensures Free(o, m)
    {
      MarkersDiffer(k, other);
      FreeOfMarker(o, m);
    }
  }

  lemma MarkersDiffer(k: Kind, other: Kind)
    requires k != other
    ensures forall m, o | m in {StartMarker(k), EndMarker(k)} && o in {StartMarker(other), EndMarker(other)} ::
              !At(o, m, 0)
  {
    forall m, o | m in {StartMarker(k), EndMarker(k)} && o in {StartMarker(other), EndMarker(other)}
      ensures !At(o, m, 0)
    {
      if At(o, m, 0) {
        AtChar(o, m, 0, 2);
        AtChar(o, m, 0, 13);
        AtChar(o, m, 0, 15);
      }
    }
  }

  lemma {:induction false} LinesPlain(domains: seq<string>)
    requires PlainDomains(domains)
    ensures '#' !in Lines(domains)
  {
    if domains != [] {
      var init := domains[..|domains| - 1];
      assert forall d :: d in init ==> d in domains;
      LinesPlain(init);
      assert domains[|domains| - 1] in domains;
    }
  }

  /** Everything between the two markers of a block, and before the first, is free of markers. */
  lemma LinesFree(domains: seq<string>, m: string)
    requires PlainDomains(domains) && IsMarker(m)
    ensures Free("\r\n" + Lines(domains), m) && Free("\r\n\r\n", m) && Free("\r\n", m)
  {
    LinesPlain(domains);
    FreeOfMarker("\r\n" + Lines(domains), m);
    FreeOfMarker("\r\n\r\n", m);
    FreeOfMarker("\r\n", m);
  }

  lemma LinesEnd(domains: seq<string>)
    ensures Lines(domains) == "" || Lines(domains)[|Lines(domains)| - 1] == '\n'
  {
    if domains != [] {
      assert ("x" + "\r\n")[2] == '\n';
    }
  }

  lemma RenderedFree(u: Update, m: string)
    requires PlainDomains(u.domains) && IsMarker(m)
    requires Free(StartMarker(u.kind), m) && Free(EndMarker(u.kind), m)
    ensures Free(Rendered(StartMarker(u.kind), EndMarker(u.kind), u.domains), m)
    ensures var r := Rendered(StartMarker(u.kind), EndMarker(u.kind), u.domains); r == "" || r[0] == '\r'
  {
    var s, e, body := StartMarker(u.kind), EndMarker(u.kind), "\r\n" + Lines(u.domains);
    if u.domains != [] {
      LinesFree(u.domains, m);
      LinesEnd(u.domains);
      assert '\r' !in m && '\n' !in m;
      FreeJoin("\r\n\r\n", s, m);
      FreeJoin("\r\n\r\n" + s, body, m);
      FreeJoin("\r\n\r\n" + s + body, e, m);
      Assoc("\r\n\r\n" + s, "\r\n", Lines(u.domains));
    } else {
      FreeOfMarker("", m);
    }
  }

  lemma {:induction false} RenderFree(blocks: seq<Update>, k: Kind)
    requires Plain(blocks) && forall u :: u in blocks ==> u.kind != k
    ensures Free(Render(blocks), StartMarker(k)) && Free(Render(blocks), EndMarker(k))
    ensures Render(blocks) == "" || Render(blocks)[0] == '\r'
  {
    Markers(k);
    if blocks == [] {
      FreeOfMarker("", StartMarker(k));
      FreeOfMarker("", EndMarker(k));
    } else {
      assert blocks[0] in blocks;
      OtherMarker(k, blocks[0].kind);
      RenderFree(blocks[1..], k);
      var r := Rendered(StartMarker(blocks[0].kind), EndMarker(blocks[0].kind), blocks[0].domains);
      forall m | m in {StartMarker(k), EndMarker(k)}
        ensures Free(Render(blocks), m)
      {
        RenderedFree(blocks[0], m);
        FreeJoin(r, Render(blocks[1..]), m);
      }
      RenderedFree(blocks[0], StartMarker(k));
    }
  }

  /** Text before and after a block stays free of the block's markers. */
  lemma FileFree(base: string, blocks: seq<Update>, k: Kind)
    requires MarkerFree(base) && Plain(blocks) && forall u :: u in blocks ==> u.kind != k
    ensures forall m | m in {StartMarker(k), EndMarker(k)} ::
      Free(base + Render(blocks), m) && Free(Render(blocks) + "\r\n", m) && Free(File(base, blocks), m)
      && Free(base + Render(blocks) + "\r\n\r\n", m)
  {
    Markers(k);
    RenderFree(blocks, k);
    forall m | m in {StartMarker(k), EndMarker(k)}
      ensures Free(base + Render(blocks), m) && Free(Render(blocks) + "\r\n", m) && Free(File(base, blocks), m)
      ensures Free(base + Render(blocks) + "\r\n\r\n", m)
    {
      assert '\r' !in m;
      LinesFree([], m);
      FreeJoin(base, Render(blocks), m);
      FreeJoin(Render(blocks), "\r\n", m);
      FreeJoin(base + Render(blocks), "\r\n", m);
      FreeJoin(base + Render(blocks), "\r\n\r\n", m);
    }
  }

  lemma {:induction false} RenderAppend(a: seq<Update>, b: seq<Update>)
    ensures Render(a + b) == Render(a) + Render(b)
  {
    if a == [] {
      assert a + b == b;
      assert "" + Render(b) == Render(b);
    } else {
      assert (a + b)[1..] == a[1..] + b;
      RenderAppend(a[1..], b);
      Assoc(Rendered(StartMarker(a[0].kind), EndMarker(a[0].kind), a[0].domains), Render(a[1..]), Render(b));
    }
  }

  lemma {:induction false} WithoutAbsent(blocks: seq<Update>, k: Kind)
    requires forall u :: u in blocks ==> u.kind != k
    ensures Without(blocks, k) == blocks
  {
    if blocks != [] {
      assert blocks[0] in blocks;
      WithoutAbsent(blocks[1..], k);
      assert [blocks[0]] + blocks[1..] == blocks;
    }
  }

  lemma {:induction false} WithoutMiddle(a: seq<Update>, b: Update, c: seq<Update>)
    requires forall u :: u in a + c ==> u.kind != b.kind
    ensures Without(a + [b] + c, b.kind) == a + c
  {
    var all := a + [b] + c;
    if a == [] {
      assert all[1..] == c;
      assert forall u :: u in c ==> u in a + c;
      WithoutAbsent(c, b.kind);
    } else {
      assert all[1..] == a[1..] + [b] + c;
      assert a[0] in a + c;
      assert forall u :: u in a[1..] + c ==> u in a + c;
      WithoutMiddle(a[1..], b, c);
      assert [a[0]] + (a[1..] + c) == a + c;
    }
  }

  /** A trimmed base followed by whole blocks does not end in a line break. */
  lemma TrimmedFile(base: string, blocks: seq<Update>)
    requires TrimEndBreaks(base) == base
    ensures TrimEndBreaks(base + Render(blocks)) == base + Render(blocks)
    ensures TrimEndBreaks(File(base, blocks)) == base + Render(blocks)
    ensures TrimEndBreaks(base + Render(blocks) + "\r\n\r\n") == base + Render(blocks)
  {
    var text := base + Render(blocks);
    LastChar(base, blocks);
    TrimEndIs(text, "");
    assert text + "" == text;
    TrimEndIs(text, "\r\n");
    TrimEndIs(text, "\r\n\r\n");
  }

  predicate EndsTrimmed(s: string) {
    s == "" || !IsBreak(s[|s| - 1])
  }

  lemma RenderedEnd(u: Update)
    ensures EndsTrimmed(Rendered(StartMarker(u.kind), EndMarker(u.kind), u.domains))
  {
    Markers(u.kind);
    var e := EndMarker(u.kind);
    assert e[|e| - 1] in e;
  }

  lemma {:induction false} LastChar(base: string, blocks: seq<Update>)
    requires EndsTrimmed(base)
    ensures EndsTrimmed(base + Render(blocks))
    decreases |blocks|
  {
    if blocks == [] {
      assert base + "" == base;
    } else {
      var r := Rendered(StartMarker(blocks[0].kind), EndMarker(blocks[0].kind), blocks[0].domains);
      RenderedEnd(blocks[0]);
      assert r == "" ==> base + r == base;
      LastChar(base + r, blocks[1..]);
      Assoc(base, r, Render(blocks[1..]));
    }
  }

  /** Removing a block puts the two sides back together. */
  lemma RemovedBlock(base: string, a: seq<Update>, u: Update, c: seq<Update>)
    requires MarkerFree(base) && TrimEndBreaks(base) == base && u.domains != []
    requires Plain(a + [u] + c) && forall v :: v in a + c ==> v.kind != u.kind
    ensures Removed(File(base, a + [u] + c), StartMarker(u.kind), EndMarker(u.kind)) == Some(File(base, a + c))
  {
    var s, e := StartMarker(u.kind), EndMarker(u.kind);
    BlockLayout(base, a, u, c);
    Parts(base, a, u, c);
    Markers(u.kind);
    assert s in {s, e} && e in {s, e};
    RemovedMiddle(base + Render(a) + "\r\n\r\n", s, "\r\n" + Lines(u.domains), e, Render(c) + "\r\n");
    TrimmedFile(base, a);
    RenderAppend(a, c);
    Assoc(base, Render(a), Render(c));
    Assoc(base + Render(a), Render(c), "\r\n");
  }

  lemma RemovedMiddle(before: string, s: string, body: string, e: string, rest: string)
    requires IsMarker(s) && IsMarker(e) && before != "" && before[|before| - 1] == '\n'
    requires Free(before, s) && Free(body, e) && Free(rest, s) && Free(rest, e)
    ensures Removed(before + s + (body + e + rest), s, e) == Some(TrimEndBreaks(before) + rest)
  {
    FindMiddle(before, s, body + e + rest);
    Slices(before, s, body + e + rest);
    FindMarker(body, e, rest);
    Slices(body, e, rest);
  }

  lemma FindMarker(a: string, m: string, c: string)
    requires IsMarker(m) && Free(a, m)
    ensures Find(a + m + c, m) == Some(|a|)
  {
    forall k | 0 < k < |m|
      ensures m[k] != m[0]
    {
      assert m[k] == m[1..][k - 1];
    }
    FindMiddle(a, m, c);
  }

  lemma BlockLayout(base: string, a: seq<Update>, u: Update, c: seq<Update>)
    requires u.domains != []
    ensures File(base, a + [u] + c) ==
      base + Render(a) + "\r\n\r\n" + StartMarker(u.kind)
      + ("\r\n" + Lines(u.domains) + EndMarker(u.kind) + (Render(c) + "\r\n"))
  {
    RenderAppend(a + [u], c);
    RenderAppend(a, [u]);
    RenderOne(u);
    Regroup(
      base, Render(a), "\r\n\r\n", StartMarker(u.kind), "\r\n", Lines(u.domains), EndMarker(u.kind), Render(c),
      "\r\n");
  }

  lemma RenderOne(u: Update)
    ensures Render([u]) == Rendered(StartMarker(u.kind), EndMarker(u.kind), u.domains)
  {
    assert [u][1..] == [];
    var r := Rendered(StartMarker(u.kind), EndMarker(u.kind), u.domains);
    assert r + "" == r;
  }

  lemma Regroup(
    base: string, ra: string, gap: string, s: string, nl: string, lines: string, e: string, rc: string, end: string)
    ensures base + (ra + (gap + s + nl + lines + e) + rc) + end == base + ra + gap + s + (nl + lines + e + (rc + end))
  {
    var block := gap + s + nl + lines + e;
    assert block == gap + s + (nl + lines + e);
    Assoc(base, ra + block, rc);
    Assoc(base, ra, block);
    Assoc(base + ra, gap + s, nl + lines + e);
    Assoc(base + ra, gap, s);
    var head, tail := base + ra + gap + s, nl + lines + e;
    assert base + (ra + block + rc) + end == head + tail + rc + end;
    Assoc(head + tail, rc, end);
    Assoc(head, tail, rc + end);
  }

  lemma Parts(base: string, a: seq<Update>, u: Update, c: seq<Update>)
    requires MarkerFree(base) && Plain(a + [u] + c) && forall v :: v in a + c ==> v.kind != u.kind
    ensures forall m | m in {StartMarker(u.kind), EndMarker(u.kind)} ::
      && Free(base + Render(a) + "\r\n\r\n", m)
      && Free("\r\n" + Lines(u.domains), m)
      && Free(Render(c) + "\r\n", m)
  {
    assert forall v :: v in a ==> v in a + [u] + c && v in a + c;
    assert forall v :: v in c ==> v in a + [u] + c && v in a + c;
    assert u in a + [u] + c;
    Markers(u.kind);
    FileFree(base, a, u.kind);
    FileFree(base, c, u.kind);
    LinesFree(u.domains, StartMarker(u.kind));
    LinesFree(u.domains, EndMarker(u.kind));
  }

  lemma RemovedFile(base: string, blocks: seq<Update>, k: Kind)
    requires MarkerFree(base) && TrimEndBreaks(base) == base && WellFormed(blocks)
    ensures Removed(File(base, blocks), StartMarker(k), EndMarker(k)) == Some(File(base, Without(blocks, k)))
  {
    if i :| 0 <= i < |blocks| && blocks[i].kind == k {
      var a, u, c := blocks[..i], blocks[i], blocks[i + 1..];
      assert blocks == a + [u] + c;
      assert u in blocks;
      RemovedBlock(base, a, u, c);
      WithoutMiddle(a, u, c);
    } else {
      WithoutAbsent(blocks, k);
      FileFree(base, blocks, k);
      assert StartMarker(k) in {StartMarker(k), EndMarker(k)} && EndMarker(k) in {StartMarker(k), EndMarker(k)};
    }
  }

  lemma {:induction false} WithoutIn(blocks: seq<Update>, k: Kind)
    ensures forall u :: u in Without(blocks, k) <==> u in blocks && u.kind != k
  {
    if blocks != [] {
      WithoutIn(blocks[1..], k);
      assert blocks == [blocks[0]] + blocks[1..];
    }
  }

  ghost predicate DistinctKinds(blocks: seq<Update>) {
    forall i, j :: 0 <= i < j < |blocks| ==> blocks[i].kind != blocks[j].kind
  }

  lemma {:induction false} WithoutDistinct(blocks: seq<Update>, k: Kind)
    requires DistinctKinds(blocks)
    ensures DistinctKinds(Without(blocks, k))
  {
    if blocks != [] {
      var rest := Without(blocks[1..], k);
      WithoutDistinct(blocks[1..], k);
      WithoutIn(blocks[1..], k);
      assert forall i :: 0 <= i < |rest| ==> rest[i] in rest;
      assert forall v :: v in blocks[1..] ==> v.kind != blocks[0].kind;
    }
  }

  lemma AppendDistinct(blocks: seq<Update>, u: Update)
    requires DistinctKinds(blocks) && forall v :: v in blocks ==> v.kind != u.kind
    ensures DistinctKinds(blocks + [u])
  {
  }

  lemma AfterWellFormed(blocks: seq<Update>, u: Update)
    requires WellFormed(blocks) && PlainDomains(u.domains)
    ensures WellFormed(After(blocks, u))
  {
    var w := Without(blocks, u.kind);
    WithoutIn(blocks, u.kind);
    WithoutDistinct(blocks, u.kind);
    AppendDistinct(w, u);
    assert w + [] == w;
  }

  /** One update of a file in normal form gives the next file in normal form. */
  lemma ApplyFile(base: string, blocks: seq<Update>, u: Update)
    requires MarkerFree(base) && TrimEndBreaks(base) == base && WellFormed(blocks) && PlainDomains(u.domains)
    ensures Apply(File(base, blocks), u) == Some(File(base, After(blocks, u)))
  {
    RemovedFile(base, blocks, u.kind);
    AppendBlock(base, Without(blocks, u.kind), u);
    TrimmedFile(base, Without(blocks, u.kind));
  }

  lemma AppendBlock(base: string, blocks: seq<Update>, u: Update)
    ensures base + Render(blocks) + Rendered(StartMarker(u.kind), EndMarker(u.kind), u.domains) + "\r\n"
         == File(base, blocks + (if u.domains == [] then [] else [u]))
  {
    if u.domains == [] {
      assert blocks + [] == blocks;
    } else {
      RenderAppend(blocks, [u]);
      RenderOne(u);
      Assoc(base, Render(blocks), Rendered(StartMarker(u.kind), EndMarker(u.kind), u.domains));
    }
  }

  /** The first update of a file without markers only trims it and appends its block. */
  lemma ApplyFirst(text: string, u: Update)
    requires MarkerFree(text)
    ensures Apply(text, u) == Some(File(TrimEndBreaks(text), After([], u)))
  {
    AppendBlock(TrimEndBreaks(text), [], u);
    assert TrimEndBreaks(text) + "" == TrimEndBreaks(text);
  }

  lemma TrimmedFree(text: string)
    requires MarkerFree(text)
    ensures MarkerFree(TrimEndBreaks(text)) && TrimEndBreaks(TrimEndBreaks(text)) == TrimEndBreaks(text)
  {
    var t := TrimEndBreaks(text);
    TrimEndFacts(text);
    TrimEndIs(t, "");
    assert t + "" == t;
    assert text == "" + t + text[|t|..];
    FreePiece("", t, text[|t|..], SITE_MANAGED_START);
    FreePiece("", t, text[|t|..], SITE_MANAGED_END);
    FreePiece("", t, text[|t|..], PROXY_MANAGED_START);
    FreePiece("", t, text[|t|..], PROXY_MANAGED_END);
  }

  lemma {:induction false} ApplyAllFile(base: string, blocks: seq<Update>, updates: seq<Update>)
    requires MarkerFree(base) && TrimEndBreaks(base) == base && WellFormed(blocks) && Plain(updates)
    ensures ApplyAll(File(base, blocks), updates) == Some(File(base, Latest(blocks, updates)))
    decreases |updates|
  {
    if updates != [] {
      assert updates[0] in updates;
      ApplyFile(base, blocks, updates[0]);
      AfterWellFormed(blocks, updates[0]);
      ApplyAllFile(base, After(blocks, updates[0]), updates[1..]);
    }
  }

  /** From any text without markers, any sequence of updates succeeds, and the file is the trimmed
      text followed by the latest non-empty list of each kind. */
  lemma RunOfUpdates(text: string, updates: seq<Update>)
    requires MarkerFree(text) && updates != [] && Plain(updates)
    ensures ApplyAll(text, updates) == Some(File(TrimEndBreaks(text), Latest([], updates)))
    ensures WellFormed(Latest([], updates))
  {
    assert updates[0] in updates;
    ApplyFirst(text, updates[0]);
    TrimmedFree(text);
    AfterWellFormed([], updates[0]);
    ApplyAllFile(TrimEndBreaks(text), After([], updates[0]), updates[1..]);
    LatestWellFormed([], updates);
  }

  lemma {:induction false} LatestWellFormed(blocks: seq<Update>, updates: seq<Update>)
    requires WellFormed(blocks) && Plain(updates)
    ensures WellFormed(Latest(blocks, updates))
    decreases |updates|
  {
    if updates != [] {
      assert updates[0] in updates;
      AfterWellFormed(blocks, updates[0]);
      LatestWellFormed(After(blocks, updates[0]), updates[1..]);
    }
  }

  /** The list a kind has after a run is the one its last update gave it. */
  function LastList(updates: seq<Update>, k: Kind): seq<string> {
    if updates == [] then []
    else if updates[|updates| - 1].kind == k then updates[|updates| - 1].domains
    else LastList(updates[..|updates| - 1], k)
  }

  lemma {:induction false} LatestSnoc(blocks: seq<Update>, updates: seq<Update>, u: Update)
    ensures Latest(blocks, updates + [u]) == After(Latest(blocks, updates), u)
    decreases |updates|
  {
    if updates == [] {
      assert updates + [u] == [u] && [u][1..] == [];
    } else {
      assert (updates + [u])[1..] == updates[1..] + [u];
      LatestSnoc(After(blocks, updates[0]), updates[1..], u);
    }
  }

  /** A kind has a block exactly when its last list was not empty, and the block is that list. */
  lemma {:induction false} LatestIsLastList(updates: seq<Update>, k: Kind)
    ensures forall u: Update :: u.kind == k ==> (u in Latest([], updates) <==> u.domains == LastList(updates, k) != [])
  {
    if updates != [] {
      var init, last := updates[..|updates| - 1], updates[|updates| - 1];
      assert updates == init + [last];
      LatestSnoc([], init, last);
      LatestIsLastList(init, k);
      WithoutIn(Latest([], init), last.kind);
    }
  }

  /** Clearing both kinds gives the unmanaged text back, trimmed and with one line end. */
  lemma ClearBoth(text: string, updates: seq<Update>)
    requires MarkerFree(text) && updates != [] && Plain(updates)
    requires LastList(updates, Site) == [] && LastList(updates, Proxy) == []
    ensures ApplyAll(text, updates) == Some(TrimEndBreaks(text) + "\r\n")
  {
    RunOfUpdates(text, updates);
    LatestIsLastList(updates, Site);
    LatestIsLastList(updates, Proxy);
    var blocks := Latest([], updates);
    Inhabited(blocks);
    assert TrimEndBreaks(text) + "" == TrimEndBreaks(text);
  }

  // ---------------------------------------------------------------------------------------------
  // What is written and what is turned down
  // ---------------------------------------------------------------------------------------------

  lemma MarkersAre()
    ensures StartMarker(Site) == "# BEGIN FABDEV MANAGED" && EndMarker(Site) == "# END FABDEV MANAGED"
    ensures StartMarker(Proxy) == "# BEGIN FABDEV PROXY MANAGED" && EndMarker(Proxy) == "# END FABDEV PROXY MANAGED"
  {
  }

  lemma SplitNext(s: string, sep: char)
    requires s != ""
    ensures var rest := Split(s[1..], sep);
      Split(s, sep) == if s[0] == sep then [""] + rest else [[s[0]] + rest[0]] + rest[1..]
  {
  }

  /** The pieces when a line and its separator are put behind a text. */
  function Longer(pieces: seq<string>, line: string): seq<string>
    requires pieces != []
  {
    pieces[..|pieces| - 1] + [pieces[|pieces| - 1] + line, ""]
  }

  lemma LongerFirst(c: char, sep: char, rest: seq<string>, line: string)
    requires rest != []
    ensures var longer := Longer(rest, line);
      if c == sep then Longer([""] + rest, line) == [""] + longer
      else Longer([[c] + rest[0]] + rest[1..], line) == [[c] + longer[0]] + longer[1..]
  {
    if c != sep && |rest| == 1 {
      Assoc([c], rest[0], line);
    }
  }

  lemma SplitLine(line: string, sep: char)
    requires sep !in line
    ensures Split(line + [sep], sep) == Longer(Split("", sep), line)
  {
    SplitFirst(line, sep, "");
    assert line + [sep] + "" == line + [sep];
    assert "" + line == line && [line] + [""] == [line, ""];
  }

  lemma {:induction false} SplitAppend(s: string, t: string, sep: char)
    requires t != "" && t[|t| - 1] == sep && sep !in t[..|t| - 1]
    ensures Split(s + t, sep) == Longer(Split(s, sep), t[..|t| - 1])
  {
    hide Split, Longer;
    var line := t[..|t| - 1];
    if s == "" {
      assert s + t == t;
      SplitLine(line, sep);
      assert t == line + [sep];
    } else {
      SplitNext(s, sep);
      SplitNext(s + t, sep);
      assert (s + t)[1..] == s[1..] + t;
      SplitAppend(s[1..], t, sep);
      LongerFirst(s[0], sep, Split(s[1..], sep), line);
    }
  }

  function HostLine(domain: string): string {
    "127.0.0.1 " + domain + "\r\n"
  }

  lemma HostLineEnds(domain: string)
    requires '\n' !in domain
    ensures var line := HostLine(domain);
      && line != "" && line[|line| - 1] == '\n' && '\n' !in line[..|line| - 1]
      && line[..|line| - 1] == "127.0.0.1 " + domain + "\r"
  {
  }

  lemma FourPieces(a: string, b: string, c: string, d: string)
    ensures a + b + c + d == a + (b + c + d)
  {
  }

  lemma OneMoreLine(domains: seq<string>)
    requires domains != []
    ensures Lines(domains) == Lines(domains[..|domains| - 1]) + HostLine(domains[|domains| - 1])
  {
    var before, d := domains[..|domains| - 1], domains[|domains| - 1];
    assert Lines(domains) == Lines(before) + "127.0.0.1 " + d + "\r\n";
    hide Lines;
    FourPieces(Lines(before), "127.0.0.1 ", d, "\r\n");
  }

  /** One line for each domain, and nothing after the last line break. */
  lemma {:induction false} LinesAre(domains: seq<string>)
    requires forall d :: d in domains ==> '\n' !in d
    ensures var lines := Split(Lines(domains), '\n');
      && |lines| == |domains| + 1 && lines[|domains|] == ""
      && forall k :: 0 <= k < |domains| ==> lines[k] == "127.0.0.1 " + domains[k] + "\r"
  {
    if domains != [] {
      var before, d := domains[..|domains| - 1], domains[|domains| - 1];
      assert d in domains && forall e :: e in before ==> e in domains;
      OneMoreLine(domains);
      HostLineEnds(d);
      hide Lines, Split, HostLine;
      LinesAre(before);
      SplitAppend(Lines(before), HostLine(d), '\n');
      assert "" + HostLine(d)[..|HostLine(d)| - 1] == HostLine(d)[..|HostLine(d)| - 1];
    }
  }

  /** The first end marker from `start` on is at `j`. */
  ghost predicate EndsAt(contents: string, endMarker: string, start: nat, j: int) {
    start <= j && At(contents, endMarker, j) && forall k :: start <= k < j ==> !At(contents, endMarker, k)
  }

  /** A marker of either kind stands somewhere from `start` on. */
  ghost predicate MarkerFrom(contents: string, startMarker: string, endMarker: string, start: nat) {
    exists k :: start <= k && (At(contents, startMarker, k) || At(contents, endMarker, k))
  }

  /** The block that is replaced: from the first start marker to the first end marker behind it. */
  ghost predicate BlockAt(contents: string, startMarker: string, endMarker: string, i: int, j: int) {
    FirstAt(contents, startMarker, i) && EndsAt(contents, endMarker, i + |startMarker|, j)
  }

  lemma FindFrom(contents: string, start: nat, m: string)
    requires start <= |contents|
    ensures Find(contents[start..], m).None? <==> !exists k :: start <= k && At(contents, m, k)
    ensures Find(contents[start..], m).Some? ==> EndsAt(contents, m, start, start + Find(contents[start..], m).value)
  {
    AtFrom(contents, start, m);
    if Find(contents[start..], m).Some? {
      assert At(contents, m, start + Find(contents[start..], m).value);
    }
  }

  /** A text with a block is turned down exactly if a marker stands behind the block. */
  lemma BlockRejected(contents: string, startMarker: string, endMarker: string, i: nat, j: nat)
    requires BlockAt(contents, startMarker, endMarker, i, j)
    ensures Removed(contents, startMarker, endMarker).None? <==>
            MarkerFrom(contents, startMarker, endMarker, j + |endMarker|)
  {
    var start := i + |startMarker|;
    FindIs(contents, startMarker, i);
    FindFrom(contents, start, endMarker);
    var remainder := contents[start..];
    var offset := Find(remainder, endMarker).value;
    assert start + offset == j;
    assert remainder[offset + |endMarker|..] == contents[j + |endMarker|..];
    FindFrom(contents, j + |endMarker|, startMarker);
    FindFrom(contents, j + |endMarker|, endMarker);
    hide Find, At, EndsAt, FirstAt;
  }

  /** Exactly the texts that are turned down: an end marker without a start marker, a first start marker
      that no end marker follows, or a marker behind the block. */
  lemma RejectedExactly(contents: string, startMarker: string, endMarker: string, domains: seq<string>)
    ensures Updated(contents, startMarker, endMarker, domains).None? <==>
      if Free(contents, startMarker) then !Free(contents, endMarker)
      else
        !exists i, j :: BlockAt(contents, startMarker, endMarker, i, j) &&
                        !MarkerFrom(contents, startMarker, endMarker, j + |endMarker|)
  {
    forall i, j | BlockAt(contents, startMarker, endMarker, i, j)
      ensures Removed(contents, startMarker, endMarker).None? <==>
              MarkerFrom(contents, startMarker, endMarker, j + |endMarker|)
    {
      BlockRejected(contents, startMarker, endMarker, i, j);
    }
    if !Free(contents, startMarker) && Removed(contents, startMarker, endMarker).Some? {
      var i := Find(contents, startMarker).value;
      var start := i + |startMarker|;
      FindFrom(contents, start, endMarker);
      assert BlockAt(contents, startMarker, endMarker, i, start + Find(contents[start..], endMarker).value);
    }
  }

  lemma AtFrom(s: string, start: nat, m: string)
    requires start <= |s|
    ensures forall k :: start <= k ==> (At(s, m, k) <==> At(s[start..], m, k - start))
    ensures forall k :: 0 <= k ==> (At(s[start..], m, k) <==> At(s, m, k + start))
  {
    assert s == s[..start] + s[start..];
    forall k: int | start <= k
      ensures At(s, m, k) <==> At(s[start..], m, k - start)
    {
      AtRight(s[..start], s[start..], m, k);
    }
  }
}
