/** The text file that keeps Herd's entries while PHP is on. */
module PathBackup {
  import opened Wrappers
  import opened Text
  import opened ContentRange
  import opened PathEntries
  import opened PathIntegration

  const MAX_INDEX: nat := 0xFFFF_FFFF_FFFF_FFFF

  function Row(r: Indexed): string {
    Decimal(r.index) + "\t" + r.entry
  }

  function Rows(removed: seq<Indexed>): seq<string> {
    seq(|removed|, k requires 0 <= k < |removed| => Row(removed[k]))
  }

  /** What is written, or nothing if an entry cannot be kept. */
  function Saved(removed: seq<Indexed>): Option<string> {
    if Storable(removed) then Some(Join(Rows(removed), "\n")) else None
  }

  // ---- reading ----

  /** The lines of a text: a carriage return before a line feed is dropped, as is an empty last line. */
  function TextLines(s: string): seq<string> {
    Ended(Split(s, '\n'))
  }

  function Ended(pieces: seq<string>): seq<string>
    requires pieces != []
  {
    var last := pieces[|pieces| - 1];
    seq(|pieces| - 1, k requires 0 <= k < |pieces| - 1 => WithoutReturn(pieces[k])) + if last == "" then [] else [last]
  }

  function WithoutReturn(line: string): string {
    if line != "" && line[|line| - 1] == '\r' then line[..|line| - 1] else line
  }

  /** Digits, with a plus sign in front or not. */
  function ParseIndex(s: string): Option<nat> {
    var digits := if s != "" && s[0] == '+' then s[1..] else s;
    if digits == "" || !IsNumber(digits) || ParseNumber(digits) > MAX_INDEX then None else Some(ParseNumber(digits))
  }

  function ReadRow(line: string): Option<Indexed> {
    match Find(line, "\t")
    case None => None
    case Some(i) =>
      match ParseIndex(line[..i])
      case None => None
      case Some(index) => Some(Indexed(index, line[i + 1..]))
  }

  function ReadRows(lines: seq<string>): Option<seq<Indexed>> {
    if lines == [] then
      Some([])
    else if Blank(lines[0]) then
      ReadRows(lines[1..])
    else
      match ReadRow(lines[0])
      case None => None
      case Some(first) =>
        match ReadRows(lines[1..])
        case None => None
        case Some(rest) => Some([first] + rest)
  }

  function Loaded(contents: string): Option<seq<Indexed>> {
    ReadRows(TextLines(contents))
  }

  // ---- the round trip ----

  lemma RowRead(r: Indexed)
    requires r.index <= MAX_INDEX
    ensures ReadRow(Row(r)) == Some(r)
  {
    var number := Decimal(r.index);
    assert Free(number, "\t") by {
      forall i
        ensures !At(number, "\t", i)
      {
        if 0 <= i < |number| {
          assert number[i..i + 1][0] == number[i];
        }
      }
    }
    FindMiddle(number, "\t", r.entry);
    Slices(number, "\t", r.entry);
    DecimalRead(r.index);
  }

  lemma RowIsLine(r: Indexed)
    requires '\r' !in r.entry && '\n' !in r.entry
    ensures Row(r) != "" && '\n' !in Row(r) && WithoutReturn(Row(r)) == Row(r) && !Blank(Row(r))
  {
    var row := Row(r);
    assert row[0] == Decimal(r.index)[0];
    assert row[|row| - 1] == if r.entry == "" then '\t' else r.entry[|r.entry| - 1];
    BlankIff(row);
    assert row[0] in row;
  }

  lemma RowsFirst(removed: seq<Indexed>)
    requires removed != []
    ensures Rows(removed) == [Row(removed[0])] + Rows(removed[1..])
    ensures Rows(removed)[1..] == Rows(removed[1..])
  {
    hide Row;
  }

  lemma {:induction false} RowsRead(removed: seq<Indexed>)
    requires forall r :: r in removed ==> r.index <= MAX_INDEX && '\r' !in r.entry && '\n' !in r.entry
    ensures ReadRows(Rows(removed)) == Some(removed)
  {
    hide Row, ReadRow, Blank;
    if removed != [] {
      assert removed[0] in removed;
      RowRead(removed[0]);
      RowIsLine(removed[0]);
      RowsRead(removed[1..]);
      RowsFirst(removed);
      assert removed == [removed[0]] + removed[1..];
    }
  }

  lemma RowsAreLines(removed: seq<Indexed>)
    requires Storable(removed)
    ensures TextLines(Join(Rows(removed), "\n")) == Rows(removed)
  {
    var rows := Rows(removed);
    forall k | 0 <= k < |rows|
      ensures rows[k] != "" && '\n' !in rows[k] && WithoutReturn(rows[k]) == rows[k]
    {
      assert removed[k] in removed;
      RowIsLine(removed[k]);
    }
    hide Row, Rows, Storable;
    LinesJoined(rows);
  }

  lemma LinesJoined(rows: seq<string>)
    requires forall k :: 0 <= k < |rows| ==> rows[k] != "" && '\n' !in rows[k] && WithoutReturn(rows[k]) == rows[k]
    ensures TextLines(Join(rows, "\n")) == rows
  {
    hide WithoutReturn, Ended;
    if rows == [] {
      NoLines();
    } else {
      SplitJoin(rows, '\n');
      EndedAlready(rows);
    }
  }

  lemma NoLines()
    ensures TextLines(Join([], "\n")) == []
  {
    assert Split("", '\n') == [""];
  }

  lemma EndedAlready(rows: seq<string>)
    requires rows != []
    requires forall k :: 0 <= k < |rows| ==> rows[k] != "" && WithoutReturn(rows[k]) == rows[k]
    ensures Ended(rows) == rows
  {
    hide WithoutReturn;
    assert rows == rows[..|rows| - 1] + [rows[|rows| - 1]];
  }

  /** What could be saved is loaded as it was: every entry with its position, in order. */
  lemma SavedIsLoaded(removed: seq<Indexed>)
    requires Saved(removed).Some? && forall r :: r in removed ==> r.index <= MAX_INDEX
    ensures Loaded(Saved(removed).value) == Some(removed)
  {
    RowsAreLines(removed);
    RowsRead(removed);
  }
}
