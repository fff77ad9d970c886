/** Which PATH entries are taken for Herd's and which for the same, said of their characters. */
module PathRecognition {
  import opened Text
  import opened PathEntries

  // ---------------------------------------------------------------------------------------------
  // What is cut off
  // ---------------------------------------------------------------------------------------------

  lemma {:induction false} DropStartAt(s: string, cut: char -> bool, i: nat)
    requires i <= |s| && (forall k :: 0 <= k < i ==> cut(s[k])) && (i < |s| ==> !cut(s[i]))
    ensures DropStart(s, cut) == s[i..]
  {
    if i > 0 {
      DropStartAt(s[1..], cut, i - 1);
    }
  }

  lemma {:induction false} DropEndAt(s: string, cut: char -> bool, j: nat)
    requires j <= |s| && (forall k :: j <= k < |s| ==> cut(s[k])) && (j > 0 ==> !cut(s[j - 1]))
    ensures DropEnd(s, cut) == s[..j]
  {
    if j < |s| {
      DropEndAt(s[..|s| - 1], cut, j);
    } else {
      assert s[..j] == s;
    }
  }

  lemma DropStartIn(s: string, cut: char -> bool, a: nat, i: nat, b: nat)
    requires a <= i <= b <= |s| && (forall k :: a <= k < i ==> cut(s[k])) && (i < b ==> !cut(s[i]))
    ensures DropStart(s[a..b], cut) == s[i..b]
  {
    DropStartAt(s[a..b], cut, i - a);
    assert s[a..b][i - a..] == s[i..b];
  }

  lemma DropEndIn(s: string, cut: char -> bool, a: nat, j: nat, b: nat)
    requires a <= j <= b <= |s| && (forall k :: j <= k < b ==> cut(s[k])) && (a < j ==> !cut(s[j - 1]))
    ensures DropEnd(s[a..b], cut) == s[a..j]
  {
    DropEndAt(s[a..b], cut, j - a);
    assert s[a..b][..j - a] == s[a..j];
  }

  /** The layers around an entry: white space up to `left` and from `right` on, quotes up to `open` and from
      `close` on, separators from `end` on. */
  datatype Layers = Layers(left: nat, right: nat, open: nat, close: nat, end: nat)

  ghost predicate IsLayered(s: Entry, l: Layers) {
    && l.left <= l.open <= l.end <= l.close <= l.right <= |s|
    && AllSpace(s[..l.left]) && AllSpace(s[l.right..])
    && (l.left < l.right ==> !IsSpace(s[l.left]) && !IsSpace(s[l.right - 1]))
    && (forall k :: l.left <= k < l.open ==> s[k] == '"') && (l.open < l.right ==> s[l.open] != '"')
    && (forall k :: l.close <= k < l.right ==> s[k] == '"') && (l.open < l.close ==> s[l.close - 1] != '"')
    && (forall k :: l.end <= k < l.close ==> IsSeparator(s[k])) && (l.open < l.end ==> !IsSeparator(s[l.end - 1]))
  }

  lemma HasLayers(s: Entry) returns (l: Layers)
    ensures IsLayered(s, l)
  {
    var left, right := TrimParts(s);
    var open := left;
    while open < right && s[open] == '"'
      invariant left <= open <= right && forall k :: left <= k < open ==> s[k] == '"'
    {
      open := open + 1;
    }
    var close := right;
    while open < close && s[close - 1] == '"'
      invariant open <= close <= right && forall k :: close <= k < right ==> s[k] == '"'
    {
      close := close - 1;
    }
    var end := close;
    while open < end && IsSeparator(s[end - 1])
      invariant open <= end <= close && forall k :: end <= k < close ==> IsSeparator(s[k])
    {
      end := end - 1;
    }
    l := Layers(left, right, open, close, end);
  }

  /** The normal form is what is inside the layers, with one case and one slash. */
  lemma NormalIs(s: Entry, l: Layers)
    requires IsLayered(s, l)
    ensures NormalizePathEntry(s) == Lowered(s[l.open..l.end])
  {
    TrimIs(s, l.left, l.right);
    DropStartIn(s, IsQuote, l.left, l.open, l.right);
    DropEndIn(s, IsQuote, l.open, l.close, l.right);
    DropEndIn(s, IsSeparator, l.open, l.end, l.close);
  }

  // ---------------------------------------------------------------------------------------------
  // Herd's entries
  // ---------------------------------------------------------------------------------------------

  /** A back slash or slash, "herd", a back slash or slash, "bin", letters in either case. */
  predicate HerdStands(s: Entry, p: int) {
    && 0 <= p && p + 9 <= |s|
    && s[p] in "\\/" && s[p + 1] in "hH" && s[p + 2] in "eE" && s[p + 3] in "rR" && s[p + 4] in "dD"
    && s[p + 5] in "\\/" && s[p + 6] in "bB" && s[p + 7] in "iI" && s[p + 8] in "nN"
  }

  lemma LoweredAt(s: string, p: int)
    ensures At(Lowered(s), "\\herd\\bin", p) <==> HerdStands(s, p)
  {
    var m := "\\herd\\bin";
    if 0 <= p && p + 9 <= |s| {
      var t := Lowered(s)[p..p + 9];
      assert forall k :: 0 <= k < 9 ==> t[k] == Lowered(s)[p + k];
      assert t == m <==> t[0] == m[0] && t[1] == m[1] && t[2] == m[2] && t[3] == m[3] && t[4] == m[4] &&
                         t[5] == m[5] && t[6] == m[6] && t[7] == m[7] && t[8] == m[8];
    }
  }

  /** An entry is Herd's exactly if these nine characters stand anywhere in it. */
  lemma HerdIs(entry: Entry)
    ensures IsHerdPhpPathEntry(entry) <==> exists p :: HerdStands(entry, p)
  {
    var l := HasLayers(entry);
    NormalIs(entry, l);
    HerdInside(entry, l);
    hide *;
  }

  lemma HerdInside(entry: Entry, l: Layers)
    requires IsLayered(entry, l) && NormalizePathEntry(entry) == Lowered(entry[l.open..l.end])
    ensures IsHerdPhpPathEntry(entry) <==> exists p :: HerdStands(entry, p)
  {
    var inner := entry[l.open..l.end];
    hide NormalizePathEntry, Lowered, HerdStands, IsLayered;
    if IsHerdPhpPathEntry(entry) {
      var p :| At(Lowered(inner), "\\herd\\bin", p);
      LoweredAt(inner, p);
      OutsideLayers(entry, l, p);
      assert HerdStands(entry, l.open + p);
    }
    if p :| HerdStands(entry, p) {
      InsideLayers(entry, l, p);
      LoweredAt(inner, p - l.open);
      assert At(Lowered(inner), "\\herd\\bin", p - l.open);
    }
  }

  lemma OutsideLayers(s: Entry, l: Layers, p: int)
    requires l.open <= l.end <= |s| && HerdStands(s[l.open..l.end], p)
    ensures HerdStands(s, l.open + p)
  {
  }

  lemma InsideLayers(s: Entry, l: Layers, p: int)
    requires IsLayered(s, l) && HerdStands(s, p)
    ensures l.open <= p && p + 9 <= l.end && HerdStands(s[l.open..l.end], p - l.open)
  {
    assert forall k :: 0 <= k < l.left ==> s[..l.left][k] == s[k];
    assert forall k :: l.right <= k < |s| ==> s[l.right..][k - l.right] == s[k];
    assert !IsSpace(s[p]) && s[p] != '"';
    assert !IsSpace(s[p + 8]) && s[p + 8] != '"' && !IsSeparator(s[p + 8]);
  }

  // ---------------------------------------------------------------------------------------------
  // Entries that are the same
  // ---------------------------------------------------------------------------------------------

  predicate CasePair(upper: char, lower: char) {
    'A' <= upper <= 'Z' && lower as int == upper as int + 32
  }

  /** The same character, up to the case of letters and the direction of slashes. */
  predicate SameChar(c: char, d: char) {
    c == d || (IsSeparator(c) && IsSeparator(d)) || CasePair(c, d) || CasePair(d, c)
  }

  predicate SameText(a: string, b: string) {
    |a| == |b| && forall k :: 0 <= k < |a| ==> SameChar(a[k], b[k])
  }

  /** Two entries count as the same exactly if what is inside their layers is. */
  lemma AlikeExactly(a: Entry, inA: Layers, b: Entry, inB: Layers)
    requires IsLayered(a, inA) && IsLayered(b, inB)
    ensures Alike(a, b) <==> SameText(a[inA.open..inA.end], b[inB.open..inB.end])
  {
    NormalIs(a, inA);
    NormalIs(b, inB);
    LoweredAlike(a[inA.open..inA.end], b[inB.open..inB.end]);
    hide NormalizePathEntry, Lowered, SameText;
  }

  lemma LoweredAlike(a: string, b: string)
    ensures Lowered(a) == Lowered(b) <==> SameText(a, b)
  {
    assert |Lowered(a)| == |a| && |Lowered(b)| == |b|;
    forall k | 0 <= k < |a| == |b|
      ensures Lowered(a)[k] == Lowered(b)[k] <==> SameChar(a[k], b[k])
    {
    }
  }
}
