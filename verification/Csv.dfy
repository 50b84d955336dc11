/** The CSV export of follower lists and a reader for it (RFC 4180, section 2, rules 5 to 7, with LF line ends). */
module Csv {
  import opened Basics

  const QUOTE: char := '"'
  const COMMA: char := ','
  const LF: char := '\n'

  // ---------- the export ----------

  datatype Person = Person(id: string, username: string, displayName: string, email: string,
                           followedAt: string, bio: string, avatar: string)

  /** `bio.replace(/"/g, '""')` */
  function Escape(s: string): string {
    if s == "" then ""
    else (if s[0] == QUOTE then [QUOTE, QUOTE] else [s[0]]) + Escape(s[1..])
  }

  const HEADERS: seq<string> := ["User ID", "Username", "Display Name", "Email", "Followed At", "Bio", "Avatar URL"]

  /** The cells of one row as the export holds them: only the bio has its quotes doubled. */
  function Row(p: Person): seq<string> {
    [p.id, p.username, p.displayName, p.email, p.followedAt, Escape(p.bio), p.avatar]
  }

  /** The cells a reader should get back. */
  function Cells(p: Person): seq<string> {
    [p.id, p.username, p.displayName, p.email, p.followedAt, p.bio, p.avatar]
  }

  function Quoted(cell: string): string {
    [QUOTE] + cell + [QUOTE]
  }

  /** `row.map(cell => '"' + cell + '"').join(',')` */
  function PrintRow(row: seq<string>): string {
    if row == [] then "" else if |row| == 1 then Quoted(row[0]) else Quoted(row[0]) + [COMMA] + PrintRow(row[1..])
  }

  /** `csvRows.join('\n')` */
  function PrintRows(rows: seq<seq<string>>): string {
    if rows == [] then "" else if |rows| == 1 then PrintRow(rows[0]) else PrintRow(rows[0]) + [LF] + PrintRows(rows[1..])
  }

  function Rows(people: seq<Person>): seq<seq<string>> {
    [HEADERS] + seq(|people|, i requires 0 <= i < |people| => Row(people[i]))
  }

  function Export(people: seq<Person>): string {
    PrintRows(Rows(people))
  }

  // ---------- the reader ----------

  /** A field and the text after it. */
  datatype Field = Field(text: string, rest: string)

  /** The inside of a quoted field up to its closing quote; two quotes stand for one. */
  function ReadQuoted(s: string): (r: Option<Field>)
    ensures r.Some? ==> |r.value.rest| < |s|
  {
    if s == "" then None
    else if s[0] != QUOTE then
      var r := ReadQuoted(s[1..]);
      if r.None? then None else Some(Field([s[0]] + r.value.text, r.value.rest))
    else if |s| > 1 && s[1] == QUOTE then
      var r := ReadQuoted(s[2..]);
      if r.None? then None else Some(Field([QUOTE] + r.value.text, r.value.rest))
    else Some(Field("", s[1..]))
  }

  /** An unquoted field runs to the next comma or line end and contains no quote. */
  function ReadPlain(s: string): (r: Option<Field>)
    ensures r.Some? ==> |r.value.rest| <= |s|
  {
    if s == "" || s[0] == COMMA || s[0] == LF then Some(Field("", s))
    else if s[0] == QUOTE then None
    else
      var r := ReadPlain(s[1..]);
      if r.None? then None else Some(Field([s[0]] + r.value.text, r.value.rest))
  }

  function ReadField(s: string): (r: Option<Field>)
    ensures r.Some? ==> |r.value.rest| <= |s|
  {
    if s != "" && s[0] == QUOTE then ReadQuoted(s[1..]) else ReadPlain(s)
  }

  /** All records of a text; a field must end at a comma, a line end or the end of the text. */
  function Read(s: string): (r: Option<seq<seq<string>>>)
    ensures r.Some? ==> |r.value| > 0
    decreases |s|
  {
    var f := ReadField(s);
    if f.None? then None
    else if f.value.rest == "" then Some([[f.value.text]])
    else if f.value.rest[0] == COMMA then
      var r := Read(f.value.rest[1..]);
      if r.None? then None else Some([[f.value.text] + r.value[0]] + r.value[1..])
    else if f.value.rest[0] == LF then
      var r := Read(f.value.rest[1..]);
      if r.None? then None else Some([[f.value.text]] + r.value)
    else None
  }

  // ---------- one cell ----------

  predicate QuoteFree(s: string) {
    QUOTE !in s
  }

  /** The text after a cell's closing quote does not begin with another quote. */
  predicate Ends(rest: string) {
    rest == "" || rest[0] != QUOTE
  }

  /** Doubling the quotes is undone by the reader, whatever the cell contains. */
  lemma {:induction false} EscapedCellReadsBack(cell: string, rest: string)
    requires Ends(rest)
    ensures ReadQuoted(Escape(cell) + [QUOTE] + rest) == Some(Field(cell, rest))
  {
    var s := Escape(cell) + [QUOTE] + rest;
    if cell == "" {
      assert s == [QUOTE] + rest && s[1..] == rest;
    } else {
      EscapedCellReadsBack(cell[1..], rest);
      var tail := Escape(cell[1..]) + [QUOTE] + rest;
      if cell[0] == QUOTE {
        assert s == [QUOTE, QUOTE] + tail && s[2..] == tail;
      } else {
        assert s == [cell[0]] + tail && s[1..] == tail;
      }
      assert [cell[0]] + cell[1..] == cell;
    }
  }

  lemma {:induction false} QuoteFreeIsEscaped(cell: string)
    requires QuoteFree(cell)
    ensures Escape(cell) == cell
  {
    if cell != "" {
      QuoteFreeIsEscaped(cell[1..]);
      assert [cell[0]] + cell[1..] == cell;
    }
  }

  lemma {:induction false} EscapeGrows(cell: string)
    ensures |Escape(cell)| >= |cell|
    ensures Escape(cell) == cell ==> QuoteFree(cell)
  {
    if cell != "" {
      EscapeGrows(cell[1..]);
      if cell[0] == QUOTE {
        assert |Escape(cell)| > |cell|;
      } else {
        assert Escape(cell)[1..] == Escape(cell[1..]);
      }
    }
  }

  function Quotes(k: nat): string {
    seq(k, _ => QUOTE)
  }

  lemma ReadQuotedHead(s: string)
    requires Ends(s) && ReadQuoted(s).Some?
    ensures s != "" && ReadQuoted(s).value.text != "" && ReadQuoted(s).value.text[0] == s[0]
  {
  }

  /**
   * A cell printed as it is comes back only if it has no quote: each quote either ends the field or
   * swallows the next one. `k` counts quotes the reader still owes.
   */
  lemma {:induction false} RawCellReadsBack(cell: string, k: nat, rest: string)
    requires Ends(rest) && ReadQuoted(cell + [QUOTE] + rest).Some?
    requires ReadQuoted(cell + [QUOTE] + rest).value.text == Quotes(k) + cell
    ensures k == 0 && QuoteFree(cell)
    decreases |cell|
  {
    var s := cell + [QUOTE] + rest;
    var text := ReadQuoted(s).value.text;
    if cell == "" {
      assert s == [QUOTE] + rest;
    } else if cell[0] != QUOTE {
      assert s[1..] == cell[1..] + [QUOTE] + rest;
      assert text[0] == cell[0];
      assert k == 0;
      assert text[1..] == Quotes(0) + cell[1..];
      RawCellReadsBack(cell[1..], 0, rest);
      assert cell == [cell[0]] + cell[1..];
    } else {
      RawQuoteFails(cell, k, rest);
    }
  }

  /** A quote followed by anything else ends the field there. */
  lemma LoneQuote(s: string)
    requires |s| > 1 && s[0] == QUOTE && s[1] != QUOTE
    ensures ReadQuoted(s).Some? && ReadQuoted(s).value.text == ""
  {
  }

  lemma QuotePair(s: string)
    requires |s| > 1 && s[0] == QUOTE && s[1] == QUOTE && ReadQuoted(s).Some?
    ensures ReadQuoted(s[2..]).Some? && ReadQuoted(s).value.text == [QUOTE] + ReadQuoted(s[2..]).value.text
  {
  }

  lemma {:induction false} RawQuoteFails(cell: string, k: nat, rest: string)
    requires Ends(rest) && cell != "" && cell[0] == QUOTE && ReadQuoted(cell + [QUOTE] + rest).Some?
    ensures ReadQuoted(cell + [QUOTE] + rest).value.text != Quotes(k) + cell
    decreases |cell|, 0
  {
    var s := cell + [QUOTE] + rest;
    if |cell| == 1 {
      QuotePair(s);
      assert s[2..] == rest;
      ReadQuotedHead(rest);
      assert (Quotes(k) + cell)[k] == QUOTE;
      assert k > 0 ==> (Quotes(k) + cell)[1] == QUOTE;
    } else if cell[1] == QUOTE {
      QuotePair(s);
      var after := cell[2..] + [QUOTE] + rest;
      assert s[2..] == after;
      if ReadQuoted(s).value.text == Quotes(k) + cell {
        assert ReadQuoted(s).value.text[1..] == ReadQuoted(after).value.text;
        assert (Quotes(k) + cell)[1..] == Quotes(k + 1) + cell[2..];
        RawCellReadsBack(cell[2..], k + 1, rest);
      }
    } else {
      LoneQuote(s);
    }
  }

  // ---------- rows and files ----------

  /** What may follow a row: nothing, or a line end and further rows. */
  predicate RowEnds(rest: string) {
    rest == "" || rest[0] == LF
  }

  predicate PrintedEscaped(row: seq<string>, meant: seq<string>) {
    |row| == |meant| > 0 && forall i :: 0 <= i < |row| ==> row[i] == Escape(meant[i])
  }

  /** Each cell was printed as it is or with its quotes doubled. */
  predicate PrintedSomehow(row: seq<string>, meant: seq<string>) {
    |row| == |meant| > 0 && forall i :: 0 <= i < |row| ==> row[i] == Escape(meant[i]) || row[i] == meant[i]
  }

  /** What reading a row and the text after it yields, once the row is known to come back. */
  function Prepend(row: seq<string>, rest: string): Option<seq<seq<string>>> {
    if rest == "" then Some([row])
    else
      var r := Read(rest[1..]);
      if r.None? then None else Some([row] + r.value)
  }

  /** The text that follows the first cell of a row. */
  function AfterCell(row: seq<string>, rest: string): string
    requires row != []
  {
    if |row| == 1 then rest else [COMMA] + PrintRow(row[1..]) + rest
  }

  lemma Quoting(cell: string, after: string)
    ensures Quoted(cell) + after == [QUOTE] + (cell + [QUOTE] + after)
    ensures ReadField(Quoted(cell) + after) == ReadQuoted(cell + [QUOTE] + after)
  {
    hide ReadQuoted;
    assert Quoted(cell) + after == [QUOTE] + (cell + [QUOTE] + after);
    assert (Quoted(cell) + after)[1..] == cell + [QUOTE] + after;
  }

  lemma Regroup(a: string, b: string, c: string, d: string)
    ensures a + b + c + d == a + (b + c + d)
  {
  }

  lemma FirstCell(row: seq<string>, rest: string)
    requires row != []
    ensures PrintRow(row) + rest == Quoted(row[0]) + AfterCell(row, rest)
    ensures RowEnds(rest) ==> Ends(AfterCell(row, rest))
  {
    if |row| > 1 {
      Regroup(Quoted(row[0]), [COMMA], PrintRow(row[1..]), rest);
    }
  }

  lemma NextCells(row: seq<string>, rest: string)
    requires |row| > 1
    ensures AfterCell(row, rest) != "" && AfterCell(row, rest)[0] == COMMA
    ensures AfterCell(row, rest)[1..] == PrintRow(row[1..]) + rest
  {
    hide PrintRow;
    var more := PrintRow(row[1..]);
    assert AfterCell(row, rest) == [COMMA] + more + rest == [COMMA] + (more + rest);
  }

  /** Reading on after a field that ended at a comma. */
  lemma ReadComma(s: string, text: string, after: string)
    requires ReadField(s) == Some(Field(text, after)) && after != "" && after[0] == COMMA
    ensures Read(after[1..]).None? ==> Read(s).None?
    ensures Read(after[1..]).Some? ==>
      Read(s) == Some([[text] + Read(after[1..]).value[0]] + Read(after[1..]).value[1..])
  {
  }

  lemma {:induction false} EscapedRowReadsBack(row: seq<string>, meant: seq<string>, rest: string)
    requires PrintedEscaped(row, meant) && RowEnds(rest)
    ensures Read(PrintRow(row) + rest) == Prepend(meant, rest)
    decreases |row|
  {
    var s, after := PrintRow(row) + rest, AfterCell(row, rest);
    FirstCell(row, rest);
    Quoting(row[0], after);
    EscapedCellReadsBack(meant[0], after);
    assert ReadField(s) == Some(Field(meant[0], after));
    assert meant == [meant[0]] + meant[1..];
    if |row| > 1 {
      EscapedRowReadsBack(row[1..], meant[1..], rest);
      NextCells(row, rest);
      ReadComma(s, meant[0], after);
      assert Read(after[1..]) == Prepend(meant[1..], rest);
      var more := if rest == "" then Some([]) else Read(rest[1..]);
      if more.Some? {
        assert [meant[1..]] + [] == [meant[1..]] && [meant] + [] == [meant];
        assert Prepend(meant[1..], rest) == Some([meant[1..]] + more.value);
        assert ([meant[1..]] + more.value)[1..] == more.value;
      }
    } else {
      assert meant == [meant[0]];
    }
  }

  /** A cell that came back was printed with its quotes doubled. */
  lemma CellReadsBackOnlyIfEscaped(cell: string, meant: string, after: string)
    requires (cell == Escape(meant) || cell == meant) && Ends(after)
    requires ReadField(Quoted(cell) + after).Some? && ReadField(Quoted(cell) + after).value.text == meant
    ensures cell == Escape(meant) && ReadField(Quoted(cell) + after) == Some(Field(meant, after))
  {
    Quoting(cell, after);
    if cell == meant {
      assert Quotes(0) + meant == meant;
      RawCellReadsBack(meant, 0, after);
      QuoteFreeIsEscaped(meant);
    }
    EscapedCellReadsBack(meant, after);
  }

  lemma {:induction false} RowReadsBackOnlyIfEscaped(row: seq<string>, meant: seq<string>, rest: string)
    requires PrintedSomehow(row, meant) && RowEnds(rest)
    requires Read(PrintRow(row) + rest).Some? && Read(PrintRow(row) + rest).value[0] == meant
    ensures PrintedEscaped(row, meant)
    decreases |row|
  {
    var s, after := PrintRow(row) + rest, AfterCell(row, rest);
    var all := Read(s).value;
    FirstCell(row, rest);
    assert ReadField(s).Some? && all[0][0] == ReadField(s).value.text;
    CellReadsBackOnlyIfEscaped(row[0], meant[0], after);
    if |row| > 1 {
      NextCells(row, rest);
      ReadComma(s, meant[0], after);
      var tail := Read(after[1..]);
      assert all[0] == [meant[0]] + tail.value[0];
      assert all[0][1..] == tail.value[0];
      RowReadsBackOnlyIfEscaped(row[1..], meant[1..], rest);
      forall i | 0 <= i < |row| ensures row[i] == Escape(meant[i]) {
        assert i > 0 ==> row[i] == row[1..][i - 1] && meant[i] == meant[1..][i - 1];
      }
    }
  }

  /** The rest of a file after its first row. */
  function AfterRow(rows: seq<seq<string>>): string
    requires rows != []
  {
    if |rows| == 1 then "" else [LF] + PrintRows(rows[1..])
  }

  predicate AllEscaped(rows: seq<seq<string>>, meant: seq<seq<string>>) {
    |rows| == |meant| && forall i :: 0 <= i < |rows| ==> PrintedEscaped(rows[i], meant[i])
  }

  lemma AllEscapedCons(rows: seq<seq<string>>, meant: seq<seq<string>>)
    requires |rows| == |meant| > 0
    ensures AllEscaped(rows, meant) <==> PrintedEscaped(rows[0], meant[0]) && AllEscaped(rows[1..], meant[1..])
  {
    assert forall i :: 0 < i < |rows| ==> rows[i] == rows[1..][i - 1] && meant[i] == meant[1..][i - 1];
    if PrintedEscaped(rows[0], meant[0]) && AllEscaped(rows[1..], meant[1..]) {
      forall i | 0 <= i < |rows| ensures PrintedEscaped(rows[i], meant[i]) {
        if i > 0 {
          assert PrintedEscaped(rows[1..][i - 1], meant[1..][i - 1]);
        }
      }
    }
  }

  /** A file of quoted rows reads back exactly when every cell's quotes were doubled. */
  lemma {:induction false} FileReadsBackIff(rows: seq<seq<string>>, meant: seq<seq<string>>)
    requires |rows| == |meant| > 0 && forall i :: 0 <= i < |rows| ==> PrintedSomehow(rows[i], meant[i])
    ensures Read(PrintRows(rows)) == Some(meant) <==> AllEscaped(rows, meant)
    decreases |rows|
  {
    var rest := AfterRow(rows);
    assert PrintRows(rows) == PrintRow(rows[0]) + rest;
    AllEscapedCons(rows, meant);
    assert meant == [meant[0]] + meant[1..];
    if Read(PrintRows(rows)) == Some(meant) {
      RowReadsBackOnlyIfEscaped(rows[0], meant[0], rest);
    }
    if PrintedEscaped(rows[0], meant[0]) {
      EscapedRowReadsBack(rows[0], meant[0], rest);
      if |rows| > 1 {
        assert rest[1..] == PrintRows(rows[1..]);
        FileReadsBackIff(rows[1..], meant[1..]);
        var more := Read(rest[1..]);
        if more.Some? {
          assert ([meant[0]] + more.value)[1..] == more.value;
        }
      } else {
        assert meant == [meant[0]];
      }
    }
  }

  // ---------- the export as a whole ----------

  /** The cells the export prints as they are. */
  predicate QuoteFreePerson(p: Person) {
    && QuoteFree(p.id) && QuoteFree(p.username) && QuoteFree(p.displayName)
    && QuoteFree(p.email) && QuoteFree(p.followedAt) && QuoteFree(p.avatar)
  }

  function Table(people: seq<Person>): seq<seq<string>> {
    [HEADERS] + seq(|people|, i requires 0 <= i < |people| => Cells(people[i]))
  }

  lemma RowEscapedIff(p: Person)
    ensures PrintedSomehow(Row(p), Cells(p))
    ensures PrintedEscaped(Row(p), Cells(p)) <==> QuoteFreePerson(p)
  {
    var row, cells := Row(p), Cells(p);
    assert row[0] == p.id && row[1] == p.username && row[2] == p.displayName && row[3] == p.email;
    assert row[4] == p.followedAt && row[5] == Escape(p.bio) && row[6] == p.avatar;
    forall i | 0 <= i < 7 && i != 5 ensures row[i] == cells[i] && (row[i] == Escape(cells[i]) <==> QuoteFree(cells[i])) {
      EscapeGrows(cells[i]);
      if QuoteFree(cells[i]) {
        QuoteFreeIsEscaped(cells[i]);
      }
    }
  }

  lemma HeadersAreEscaped()
    ensures PrintedEscaped(HEADERS, HEADERS)
  {
    forall i | 0 <= i < |HEADERS| ensures HEADERS[i] == Escape(HEADERS[i]) {
      assert QuoteFree(HEADERS[i]);
      QuoteFreeIsEscaped(HEADERS[i]);
    }
  }

  lemma RowOfExport(people: seq<Person>, i: nat)
    requires i <= |people|
    ensures PrintedSomehow(Rows(people)[i], Table(people)[i])
    ensures PrintedEscaped(Rows(people)[i], Table(people)[i]) <==> i == 0 || QuoteFreePerson(people[i - 1])
  {
    if i == 0 {
      HeadersAreEscaped();
    } else {
      RowEscapedIff(people[i - 1]);
      assert Rows(people)[i] == Row(people[i - 1]);
      assert Table(people)[i] == Cells(people[i - 1]);
    }
  }

  /** The exported text reads back as the table exactly when no cell other than a bio contains a quote. */
  lemma ExportReadsBackIff(people: seq<Person>)
    ensures Read(Export(people)) == Some(Table(people)) <==> forall i :: 0 <= i < |people| ==> QuoteFreePerson(people[i])
  {
    var rows, table := Rows(people), Table(people);
    forall i | 0 <= i < |rows|
      ensures PrintedSomehow(rows[i], table[i])
      ensures PrintedEscaped(rows[i], table[i]) <==> i == 0 || QuoteFreePerson(people[i - 1])
    {
      RowOfExport(people, i);
    }
    FileReadsBackIff(rows, table);
    if AllEscaped(rows, table) {
      forall i | 0 <= i < |people| ensures QuoteFreePerson(people[i]) {
        assert PrintedEscaped(rows[i + 1], table[i + 1]);
      }
    }
  }

  /** The value of a person that belongs under a header of the export. */
  function Under(header: string, p: Person): Option<string> {
    if header == "User ID" then Some(p.id)
    else if header == "Username" then Some(p.username)
    else if header == "Display Name" then Some(p.displayName)
    else if header == "Email" then Some(p.email)
    else if header == "Followed At" then Some(p.followedAt)
    else if header == "Bio" then Some(p.bio)
    else if header == "Avatar URL" then Some(p.avatar)
    else None
  }

  /** What is read back: a header line, and then one line per person with each value under its header. */
  lemma ColumnsAreLabelled(people: seq<Person>, i: nat, k: nat)
    requires i < |people| && k < 7
    requires forall j :: 0 <= j < |people| ==> QuoteFreePerson(people[j])
    ensures var table := Read(Export(people));
      && table.Some? && |table.value| == |people| + 1
      && |table.value[0]| == 7 && |table.value[i + 1]| == 7
      && Under(table.value[0][k], people[i]) == Some(table.value[i + 1][k])
      && forall j :: 0 <= j < 7 && j != k ==> table.value[0][j] != table.value[0][k]
  {
    ExportReadsBackIff(people);
    hide Read, Export;
    var table := Table(people);
    assert table[0] == HEADERS && table[i + 1] == Cells(people[i]);
    HeadersDiffer(k);
  }

  lemma HeadersDiffer(k: nat)
    requires k < 7
    ensures forall j :: 0 <= j < 7 && j != k ==> HEADERS[j] != HEADERS[k]
  {
    assert HEADERS[0][0] == 'U' && HEADERS[0][3] == 'r' && HEADERS[0][4] == ' ';
    assert HEADERS[1][0] == 'U' && HEADERS[1][3] == 'r' && HEADERS[1][4] == 'n';
    assert HEADERS[2][0] == 'D' && HEADERS[3][0] == 'E' && HEADERS[4][0] == 'F' && HEADERS[5][0] == 'B' && HEADERS[6][0] == 'A';
  }
}
