/** The character scanners of the contact and group importers, and what they read in quoted tables. */
module CsvScan {
  import opened Wrappers

  // ----- lines and cells -----

  /** The newline-terminated lines of a text. */
  function Lines(text: string): seq<string>
  {
    if text == [] then []
    else if text[|text| - 1] == '\n' then Lines(text[..|text| - 1]) + [Partial(text[..|text| - 1])]
    else Lines(text[..|text| - 1])
  }

  /** What follows the last newline. */
  function Partial(text: string): string
  {
    if text == [] || text[|text| - 1] == '\n' then []
    else Partial(text[..|text| - 1]) + [text[|text| - 1]]
  }

  function Quotes(line: string): nat
  {
    if line == [] then 0 else Quotes(line[..|line| - 1]) + (if line[|line| - 1] == '"' then 1 else 0)
  }

  /** The characters that stand behind exactly n quotes. */
  function Field(line: string, n: nat): string
  {
    if line == [] then []
    else if line[|line| - 1] != '"' && Quotes(line[..|line| - 1]) == n then Field(line[..|line| - 1], n) + [line[|line| - 1]]
    else Field(line[..|line| - 1], n)
  }

  /** The first character is dropped unseen, and then everything up to a newline. */
  function Body(file: string): string
  {
    if file == [] then [] else AfterNewline(file[1..])
  }

  function AfterNewline(s: string): string
  {
    if s == [] then [] else if s[0] == '\n' then s[1..] else AfterNewline(s[1..])
  }

  lemma LinesSnoc(text: string, i: nat)
    requires i < |text|
    ensures Lines(text[..i + 1]) == if text[i] == '\n' then Lines(text[..i]) + [Partial(text[..i])] else Lines(text[..i])
    ensures Partial(text[..i + 1]) == if text[i] == '\n' then [] else Partial(text[..i]) + [text[i]]
  {
    assert text[..i + 1][..i] == text[..i];
  }

  lemma FieldSnoc(line: string, c: char, n: nat)
    ensures Quotes(line + [c]) == Quotes(line) + (if c == '"' then 1 else 0)
    ensures Field(line + [c], n) == if c != '"' && Quotes(line) == n then Field(line, n) + [c] else Field(line, n)
  {
    assert (line + [c])[..|line|] == line;
  }

  // ----- the file -----

  /** The same by positions. */
  function AfterFrom(data: string, k: nat): (r: string)
    requires k <= |data|
    ensures r == AfterNewline(data[k..])
    decreases |data| - k
  {
    if k == |data| then []
    else
      assert data[k..][1..] == data[k + 1..];
      if data[k] == '\n' then data[k + 1..] else AfterFrom(data, k + 1)
  }

  class File {
    const data: string
    var pos: nat

    constructor (data: string)
      ensures this.data == data && pos == 0
    {
      this.data := data;
      pos := 0;
    }

    /** zip_fread of one byte: none at the end. */
    method Read() returns (c: Option<char>)
      requires pos <= |data|
      modifies this
      ensures pos <= |data|
      ensures if old(pos) < |data| then c == Some(data[old(pos)]) && pos == old(pos) + 1 else c == None && pos == old(pos)
    {
      if pos == |data| {
        return None;
      }
      c := Some(data[pos]);
      pos := pos + 1;
    }

    /** The character last read is number i of the body, which ends with the file. */
    ghost predicate Following(body: string, i: nat, c: Option<char>)
      reads this
    {
      && pos <= |data| && |body| <= |data| && data[|data| - |body|..] == body
      && (if c.Some? then i < |body| && c.value == body[i] && pos == |data| - |body| + i + 1
          else i == |body| && pos == |data|)
    }

    /** The header loop of both scanners: leaves the first character of the first data line. */
    method SkipHeader() returns (c: Option<char>)
      requires pos == 0
      modifies this
      ensures Following(Body(data), 0, c)
    {
      c := Read();
      c := Read();
      ghost var body := Body(data);
      if data != [] {
        assert body == AfterFrom(data, 1);
        while c.Some? && c.value != '\n'
          invariant 0 < pos <= |data| && (c == None ==> pos == |data|)
          invariant c.Some? ==> pos > 1 && c.value == data[pos - 1]
          invariant body == if c.Some? then AfterFrom(data, pos - 1) else []
          decreases |data| - pos, c.Some?
        {
          c := Read();
        }
      }
      c := Read();
    }
  }

  // ----- contacts -----

  const ID := 1
  const FIRST_NAME := 11
  const LAST_NAME := 13
  const ALIAS := 15

  datatype Contact = Contact(id: string, first: string, last: string, nick: string)

  function ContactOf(line: string): Contact
  {
    Contact(Field(line, ID), Field(line, FIRST_NAME), Field(line, LAST_NAME), Field(line, ALIAS))
  }

  function CStr(s: string): (r: string)
    ensures r <= s
  {
    if s == [] || s[0] == '\0' then [] else [s[0]] + CStr(s[1..])
  }

  /** Up to the first NUL. */
  lemma {:induction false} CStrIs(s: string, r: string)
    ensures r == CStr(s) <==> r <= s && '\0' !in r && (|r| < |s| ==> s[|r|] == '\0')
  {
    if s != [] && s[0] != '\0' && r != [] {
      CStrIs(s[1..], r[1..]);
      assert r <= s <==> r[0] == s[0] && r[1..] <= s[1..];
      assert r[0] != '\0' ==> ('\0' in r <==> '\0' in r[1..]);
      assert r == CStr(s) <==> r[0] == s[0] && r[1..] == CStr(s[1..]);
    }
  }

  datatype Buddy = Buddy(id: string, alias: string)

  /**
   * The alias shown: both names stand in for a missing one (or one that is just the id),
   * and one of them takes the place of a real one.
   */
  function AliasOf(c: Contact): string
  {
    if c.nick == "" || c.nick == c.id then
      if c.first != "" && c.last != "" then c.first + " " + c.last else c.nick
    else if c.first != "" then c.first
    else if c.last != "" then c.last
    else c.nick
  }

  /** The buddy list: known ids, buddies added, and the two counters. */
  datatype Buddies = Buddies(known: set<string>, added: seq<Buddy>, b_new: nat, b_old: nat)

  function AddContact(b: Buddies, c: Contact): Buddies
  {
    if CStr(c.id) in b.known then b.(b_old := b.b_old + 1)
    else Buddies(b.known + {CStr(c.id)}, b.added + [Buddy(CStr(c.id), CStr(AliasOf(c)))], b.b_new + 1, b.b_old)
  }

  function AddContacts(b: Buddies, lines: seq<string>): Buddies
  {
    if lines == [] then b
    else AddContact(AddContacts(b, lines[..|lines| - 1]), ContactOf(lines[|lines| - 1]))
  }

  lemma AddContactsSnoc(b: Buddies, lines: seq<string>, line: string)
    ensures AddContacts(b, lines + [line]) == AddContact(AddContacts(b, lines), ContactOf(line))
  {
    assert (lines + [line])[..|lines|] == lines;
  }

  /** The scanner's variables. */
  datatype Scanner = Scanner(b: Buddies, state: nat, row: Contact)

  const NO_CONTACT := Contact("", "", "", "")

  function Eat(x: Scanner, c: char): Scanner
  {
    if c == '"' then x.(state := x.state + 1)
    else if c == '\n' then Scanner(AddContact(x.b, x.row), 0, NO_CONTACT)
    else if x.state == ID then x.(row := x.row.(id := x.row.id + [c]))
    else if x.state == FIRST_NAME then x.(row := x.row.(first := x.row.first + [c]))
    else if x.state == LAST_NAME then x.(row := x.row.(last := x.row.last + [c]))
    else if x.state == ALIAS then x.(row := x.row.(nick := x.row.nick + [c]))
    else x
  }

  function Eaten(b: Buddies, body: string, i: nat): Scanner
    requires i <= |body|
  {
    if i == 0 then Scanner(b, 0, NO_CONTACT) else Eat(Eaten(b, body, i - 1), body[i - 1])
  }

  /** Within a line the scanner's state and row are the quotes and fields of what has been read of it. */
  lemma EatField(b: Buddies, line: string, c: char)
    requires c != '\n'
    ensures Eat(Scanner(b, Quotes(line), ContactOf(line)), c) == Scanner(b, Quotes(line + [c]), ContactOf(line + [c]))
  {
    FieldSnoc(line, c, ID);
    FieldSnoc(line, c, FIRST_NAME);
    FieldSnoc(line, c, LAST_NAME);
    FieldSnoc(line, c, ALIAS);
  }

  lemma NothingRead()
    ensures ContactOf("") == NO_CONTACT && Quotes("") == 0
  {
  }

  /** A newline adds the line's contact and starts a new row. */
  lemma EatLine(b: Buddies, lines: seq<string>, line: string)
    ensures Eat(Scanner(AddContacts(b, lines), Quotes(line), ContactOf(line)), '\n')
            == Scanner(AddContacts(b, lines + [line]), Quotes(""), ContactOf(""))
  {
    AddContactsSnoc(b, lines, line);
    NothingRead();
  }

  lemma EatChar(b: Buddies, lines: seq<string>, line: string, c: char)
    ensures var x := Scanner(AddContacts(b, lines), Quotes(line), ContactOf(line));
      Eat(x, c) == if c == '\n' then Scanner(AddContacts(b, lines + [line]), Quotes(""), ContactOf(""))
                   else Scanner(AddContacts(b, lines), Quotes(line + [c]), ContactOf(line + [c]))
  {
    if c == '\n' {
      EatLine(b, lines, line);
    } else {
      EatField(AddContacts(b, lines), line, c);
    }
  }

  /** The scanner between two characters: complete lines added, and one line begun. */
  lemma EatenStep(b: Buddies, body: string, i: nat, lines: seq<string>, line: string, more: seq<string>, rest: string)
    requires 0 < i <= |body|
    requires Eaten(b, body, i - 1) == Scanner(AddContacts(b, lines), Quotes(line), ContactOf(line))
    requires if body[i - 1] == '\n' then more == lines + [line] && rest == "" else more == lines && rest == line + [body[i - 1]]
    ensures Eaten(b, body, i) == Scanner(AddContacts(b, more), Quotes(rest), ContactOf(rest))
  {
    EatChar(b, lines, line, body[i - 1]);
  }

  lemma LinesMore(text: string, i: nat, before: seq<string>, begun: string) returns (lines: seq<string>, line: string)
    requires 0 < i <= |text| && before == Lines(text[..i - 1]) && begun == Partial(text[..i - 1])
    ensures if text[i - 1] == '\n' then lines == before + [begun] && line == "" else lines == before && line == begun + [text[i - 1]]
    ensures lines == Lines(text[..i]) && line == Partial(text[..i])
  {
    LinesSnoc(text, i - 1);
    lines, line := Lines(text[..i]), Partial(text[..i]);
  }

  /** Character by character is line by line. */
  lemma {:induction false} EatenIsLines(b: Buddies, body: string, i: nat) returns (lines: seq<string>, line: string)
    requires i <= |body|
    ensures lines == Lines(body[..i]) && line == Partial(body[..i])
    ensures Eaten(b, body, i) == Scanner(AddContacts(b, lines), Quotes(line), ContactOf(line))
  {
    lines, line := [], "";
    NothingRead();
    if i > 0 {
      var before, begun := EatenIsLines(b, body, i - 1);
      lines, line := LinesMore(body, i, before, begun);
      EatenStep(b, body, i, before, begun, lines, line);
    }
  }

  method ScanContacts(file: File, known: set<string>) returns (b: Buddies)
    requires file.pos == 0
    modifies file
    ensures b == AddContacts(Buddies(known, [], 0, 0), Lines(Body(file.data)))
  {
    ghost var start := Buddies(known, [], 0, 0);
    ghost var body := Body(file.data);
    b := Buddies(known, [], 0, 0);
    var id, first, last, nick := "", "", "", "";
    var state := 0;
    var c := file.SkipHeader();
    ghost var i := 0;
    while c.Some?
      invariant i <= |body| && file.Following(body, i, c)
      invariant Scanner(b, state, Contact(id, first, last, nick)) == Eaten(start, body, i)
      decreases |body| - i
    {
      if c.value == '"' {
        state := state + 1;
      } else if c.value == '\n' {
        state := 0;
        if CStr(id) in b.known {
          b := b.(b_old := b.b_old + 1);
        } else {
          if nick == "" || nick == id {
            if first != "" && last != "" {
              nick := first + " " + last;
            }
          } else if first != "" {
            nick := first;
          } else if last != "" {
            nick := last;
          }
          b := Buddies(b.known + {CStr(id)}, b.added + [Buddy(CStr(id), CStr(nick))], b.b_new + 1, b.b_old);
        }
        id, first, last, nick := "", "", "", "";
      } else {
        if state == ID {
          id := id + [c.value];
        } else if state == FIRST_NAME {
          first := first + [c.value];
        } else if state == LAST_NAME {
          last := last + [c.value];
        } else if state == ALIAS {
          nick := nick + [c.value];
        }
      }
      c := file.Read();
      i := i + 1;
    }
    var lines, line := EatenIsLines(start, body, |body|);
    assert body[..|body|] == body;
  }

  /** The ids that lines name. */
  function Ids(lines: seq<string>): (ids: set<string>)
  {
    set line | line in lines :: CStr(ContactOf(line).id)
  }

  lemma IdsSnoc(lines: seq<string>, line: string)
    ensures Ids(lines + [line]) == Ids(lines) + {CStr(ContactOf(line).id)}
  {
  }

  lemma OneMore(s: set<string>, known: set<string>, id: string)
    ensures |s + {id} - known| == |s - known| + (if id in known + s then 0 else 1)
  {
    if id in known + s {
      assert s + {id} - known == s - known;
    } else {
      assert s + {id} - known == (s - known) + {id};
    }
  }

  /** The counters and the buddy list after some lines of which the given ids are met. */
  ghost predicate Counted(b: Buddies, r: Buddies, n: nat, ids: set<string>)
  {
    && (r.b_new - b.b_new) + (r.b_old - b.b_old) == n
    && r.known == b.known + ids
    && r.b_new - b.b_new == |ids - b.known| == |r.added| - |b.added|
  }

  lemma CountOne(b: Buddies, r: Buddies, n: nat, ids: set<string>, c: Contact)
    requires Counted(b, r, n, ids)
    ensures Counted(b, AddContact(r, c), n + 1, ids + {CStr(c.id)})
  {
    OneMore(ids, b.known, CStr(c.id));
    assert b.known + (ids + {CStr(c.id)}) == (b.known + ids) + {CStr(c.id)};
  }

  /** Every line is counted once, as new the first time its id is met and it was not known before. */
  lemma {:induction false} ContactsCounted(b: Buddies, lines: seq<string>)
    ensures Counted(b, AddContacts(b, lines), |lines|, Ids(lines))
  {
    if lines == [] {
      assert Ids(lines) == {};
    } else {
      var init, last := lines[..|lines| - 1], lines[|lines| - 1];
      ContactsCounted(b, init);
      assert lines == init + [last];
      IdsSnoc(init, last);
      CountOne(b, AddContacts(b, init), |init|, Ids(init), ContactOf(last));
    }
  }

  // ----- quoted tables -----

  predicate Clean(cell: string)
  {
    '"' !in cell && '\n' !in cell
  }

  predicate CleanRow(cells: seq<string>)
  {
    forall i :: 0 <= i < |cells| ==> Clean(cells[i])
  }

  function Quoted(cell: string): string
  {
    "\"" + cell + "\""
  }

  function PrintRow(cells: seq<string>): string
  {
    if cells == [] then ""
    else PrintRow(cells[..|cells| - 1]) + (if |cells| == 1 then "" else ",") + Quoted(cells[|cells| - 1])
  }

  function Print(rows: seq<seq<string>>): string
  {
    if rows == [] then "" else Print(rows[..|rows| - 1]) + PrintRow(rows[|rows| - 1]) + "\n"
  }

  function Cell(cells: seq<string>, k: nat): string
  {
    if k < |cells| then cells[k] else ""
  }

  lemma {:induction false} QuotesConcat(a: string, b: string)
    ensures Quotes(a + b) == Quotes(a) + Quotes(b)
  {
    if b == [] {
      assert a + b == a;
    } else {
      QuotesConcat(a, b[..|b| - 1]);
      assert (a + b)[..|a + b| - 1] == a + b[..|b| - 1];
    }
  }

  lemma {:induction false} FieldConcat(a: string, b: string, n: nat)
    ensures Field(a + b, n) == Field(a, n) + (if n >= Quotes(a) then Field(b, n - Quotes(a)) else "")
  {
    if b == [] {
      assert a + b == a;
    } else {
      var init := b[..|b| - 1];
      FieldConcat(a, init, n);
      QuotesConcat(a, init);
      assert (a + b)[..|a + b| - 1] == a + init;
    }
  }

  lemma {:induction false} FieldPlain(cell: string, n: nat)
    requires '"' !in cell
    ensures Quotes(cell) == 0 && Field(cell, n) == if n == 0 then cell else ""
  {
    if cell != [] {
      FieldPlain(cell[..|cell| - 1], n);
      assert cell == cell[..|cell| - 1] + [cell[|cell| - 1]];
    }
  }

  lemma FieldQuoted(cell: string, n: nat)
    requires '"' !in cell
    ensures Quotes(Quoted(cell)) == 2 && Field(Quoted(cell), n) == if n == 1 then cell else ""
  {
    var q := "\"";
    assert q[..0] == "" && q[0] == '"';
    assert Quotes(q) == 1 && Field(q, n) == "";
    FieldPlain(cell, if n == 0 then 0 else n - 1);
    QuotesConcat(q, cell);
    FieldConcat(q, cell, n);
    QuotesConcat(q + cell, q);
    FieldConcat(q + cell, q, n);
    assert n >= 2 ==> Field(q, n - 2) + Field(q, n - 1) == "" by {
      assert n >= 2 ==> Field(q, n - 2) == "" && Field(q, n - 1) == "";
    }
  }

  /** Characters without a quote belong to the field that is open. */
  lemma FieldBehind(row: string, comma: string, n: nat)
    requires '"' !in comma && n != Quotes(row)
    ensures Quotes(row + comma) == Quotes(row) && Field(row + comma, n) == Field(row, n)
  {
    QuotesConcat(row, comma);
    FieldConcat(row, comma, n);
    FieldPlain(comma, if n >= Quotes(row) then n - Quotes(row) else 0);
  }

  lemma FieldAppended(row: string, comma: string, last: string, m: nat, k: nat)
    requires Quotes(row) == 2 * m && '"' !in comma && '"' !in last
    ensures Quotes(row + comma + Quoted(last)) == 2 * m + 2
    ensures Field(row + comma + Quoted(last), 2 * k + 1) == Field(row, 2 * k + 1) + (if k == m then last else "")
  {
    var n := 2 * k + 1;
    FieldBehind(row, comma, n);
    QuotesConcat(row + comma, Quoted(last));
    FieldConcat(row + comma, Quoted(last), n);
    FieldQuoted(last, if n >= 2 * m then n - 2 * m else 0);
    assert n >= 2 * m ==> (n - 2 * m == 1 <==> k == m);
  }

  /** The k-th cell of a printed row is what the scanner collects in state 2k + 1. */
  lemma {:induction false} FieldOfRow(cells: seq<string>, k: nat)
    requires CleanRow(cells)
    ensures Quotes(PrintRow(cells)) == 2 * |cells|
    ensures Field(PrintRow(cells), 2 * k + 1) == Cell(cells, k)
  {
    if cells != [] {
      var init, last := cells[..|cells| - 1], cells[|cells| - 1];
      FieldOfRow(init, k);
      FieldAppended(PrintRow(init), if |cells| == 1 then "" else ",", last, |init|, k);
    }
  }

  lemma {:induction false} PrintedRowClean(cells: seq<string>)
    requires CleanRow(cells)
    ensures '\n' !in PrintRow(cells)
  {
    if cells != [] {
      PrintedRowClean(cells[..|cells| - 1]);
    }
  }

  lemma PartialSnoc(text: string, c: char)
    requires c != '\n'
    ensures Partial(text + [c]) == Partial(text) + [c] && Lines(text + [c]) == Lines(text)
  {
    assert (text + [c])[..|text|] == text;
  }

  lemma Grown(text: string, init: string, last: char)
    ensures text + (init + [last]) == (text + init) + [last]
  {
  }

  lemma {:induction false} PartialAppended(text: string, line: string)
    requires '\n' !in line
    ensures Partial(text + line) == Partial(text) + line && Lines(text + line) == Lines(text)
  {
    if line == [] {
      assert text + line == text;
    } else {
      var init, last := line[..|line| - 1], line[|line| - 1];
      assert line == init + [last];
      PartialAppended(text, init);
      PartialSnoc(text + init, last);
      Grown(text, init, last);
      Grown(Partial(text), init, last);
    }
  }

  lemma LineAppended(text: string, line: string)
    requires '\n' !in line && Partial(text) == ""
    ensures Lines(text + line + "\n") == Lines(text) + [line] && Partial(text + line + "\n") == ""
  {
    PartialAppended(text, line);
    var t := text + line;
    assert Partial(t) == line;
    assert (t + "\n")[..|t|] == t;
  }

  function Printed(rows: seq<seq<string>>): (lines: seq<string>)
    ensures |lines| == |rows| && forall i :: 0 <= i < |rows| ==> lines[i] == PrintRow(rows[i])
  {
    if rows == [] then [] else Printed(rows[..|rows| - 1]) + [PrintRow(rows[|rows| - 1])]
  }

  /** The lines of a printed table are its printed rows. */
  lemma {:induction false} LinesOfTable(rows: seq<seq<string>>)
    requires forall i :: 0 <= i < |rows| ==> CleanRow(rows[i])
    ensures Lines(Print(rows)) == Printed(rows) && Partial(Print(rows)) == ""
  {
    if rows != [] {
      var init, row := rows[..|rows| - 1], PrintRow(rows[|rows| - 1]);
      LinesOfTable(init);
      PrintedRowClean(rows[|rows| - 1]);
      LineAppended(Print(init), row);
    }
  }

  lemma {:induction false} AfterHeader(header: string, rest: string)
    requires '\n' !in header
    ensures AfterNewline(header + "\n" + rest) == rest
  {
    if header == [] {
      assert (header + "\n" + rest)[1..] == rest;
    } else {
      AfterHeader(header[1..], rest);
      assert (header + "\n" + rest)[1..] == header[1..] + "\n" + rest;
    }
  }

  lemma {:induction false} AfterNewlineShorter(s: string)
    ensures |AfterNewline(s)| <= |s| && (s != [] ==> |AfterNewline(s)| < |s|)
  {
    if s != [] {
      AfterNewlineShorter(s[1..]);
    }
  }

  /** Because the first character is not looked at, an empty header costs the first row. */
  lemma HeaderSkipped(header: string, rest: string)
    requires '\n' !in header
    ensures Body(header + "\n" + rest) == rest <==> header != "" || rest == ""
  {
    var file := header + "\n" + rest;
    if header == "" {
      assert file[1..] == rest;
      AfterNewlineShorter(rest);
    } else {
      assert file[1..] == header[1..] + "\n" + rest;
      AfterHeader(header[1..], rest);
    }
  }

  /** The contact a row stands for. */
  function RowContact(cells: seq<string>): Contact
  {
    Contact(Cell(cells, 0), Cell(cells, 5), Cell(cells, 6), Cell(cells, 7))
  }

  function AddRows(b: Buddies, rows: seq<seq<string>>): Buddies
  {
    if rows == [] then b else AddContact(AddRows(b, rows[..|rows| - 1]), RowContact(rows[|rows| - 1]))
  }

  lemma {:induction false} RowsAdded(b: Buddies, rows: seq<seq<string>>)
    requires forall i :: 0 <= i < |rows| ==> CleanRow(rows[i])
    ensures AddContacts(b, Printed(rows)) == AddRows(b, rows)
  {
    if rows != [] {
      var init, row := rows[..|rows| - 1], rows[|rows| - 1];
      RowsAdded(b, init);
      AddContactsSnoc(b, Printed(init), PrintRow(row));
      FieldOfRow(row, 0);
      FieldOfRow(row, 5);
      FieldOfRow(row, 6);
      FieldOfRow(row, 7);
    }
  }

  /** Importing a printed table of contacts adds the contacts of its rows, in order. */
  lemma ContactsRecovered(b: Buddies, header: string, rows: seq<seq<string>>)
    requires '\n' !in header && header != ""
    requires forall i :: 0 <= i < |rows| ==> CleanRow(rows[i])
    ensures AddContacts(b, Lines(Body(header + "\n" + Print(rows)))) == AddRows(b, rows)
    ensures var r := AddRows(b, rows); (r.b_new - b.b_new) + (r.b_old - b.b_old) == |rows|
  {
    HeaderSkipped(header, Print(rows));
    LinesOfTable(rows);
    RowsAdded(b, rows);
    ContactsCounted(b, Printed(rows));
  }

  /** Row i is the first to name id x. */
  predicate FirstWith(rows: seq<seq<string>>, x: string, i: nat)
    requires i < |rows|
  {
    CStr(Cell(rows[i], 0)) == x && forall j :: 0 <= j < i ==> CStr(Cell(rows[j], 0)) != x
  }

  lemma FirstWithSnoc(rows: seq<seq<string>>, x: string, i: nat)
    requires i + 1 < |rows|
    ensures FirstWith(rows, x, i) <==> FirstWith(rows[..|rows| - 1], x, i)
  {
    var init := rows[..|rows| - 1];
    assert forall j :: 0 <= j <= i ==> init[j] == rows[j];
  }

  /** The ids known after some rows. */
  lemma {:induction false} KnownAfter(b: Buddies, rows: seq<seq<string>>, x: string)
    ensures x in AddRows(b, rows).known <==> x in b.known || exists i :: 0 <= i < |rows| && CStr(Cell(rows[i], 0)) == x
  {
    if rows != [] {
      var init := rows[..|rows| - 1];
      KnownAfter(b, init, x);
      if i :| 0 <= i < |rows| && CStr(Cell(rows[i], 0)) == x {
        assert i < |init| ==> init[i] == rows[i];
      }
    }
  }

  lemma RowAdds(b: Buddies, rows: seq<seq<string>>, buddy: Buddy)
    requires rows != []
    ensures var init, last := rows[..|rows| - 1], rows[|rows| - 1];
      buddy in AddRows(b, rows).added
      <==> buddy in AddRows(b, init).added
           || (CStr(Cell(last, 0)) !in AddRows(b, init).known && buddy == Buddy(CStr(Cell(last, 0)), CStr(AliasOf(RowContact(last)))))
  {
  }

  /** A buddy is added for each id not known before, under the alias of the first row that names it, and no other. */
  lemma {:induction false} FirstRowAdds(b: Buddies, rows: seq<seq<string>>, buddy: Buddy)
    ensures buddy in AddRows(b, rows).added
            <==> buddy in b.added
                 || (buddy.id !in b.known
                     && exists i :: 0 <= i < |rows| && FirstWith(rows, buddy.id, i) && buddy.alias == CStr(AliasOf(RowContact(rows[i]))))
  {
    if rows != [] {
      var init, n := rows[..|rows| - 1], |rows| - 1;
      FirstRowAdds(b, init, buddy);
      RowAdds(b, rows, buddy);
      KnownAfter(b, init, buddy.id);
      forall i | 0 <= i < n
        ensures FirstWith(rows, buddy.id, i) <==> FirstWith(init, buddy.id, i)
        ensures rows[i] == init[i]
      {
        FirstWithSnoc(rows, buddy.id, i);
      }
    }
  }

  /** A missing alias, or one that is just the id, gives way to both names if both are there. */
  lemma AliasMissing(c: Contact)
    requires c.nick == "" || c.nick == c.id
    ensures c.first == "" || c.last == "" ==> AliasOf(c) == c.nick
    ensures c.first != "" && c.last != "" ==>
              |AliasOf(c)| == |c.first| + 1 + |c.last| && AliasOf(c)[..|c.first|] == c.first
              && AliasOf(c)[|c.first|] == ' ' && AliasOf(c)[|c.first| + 1..] == c.last
  {
  }

  /** An imported alias is shown as it is exactly when it is a real one and no name differs from it. */
  lemma AliasShown(c: Contact)
    requires c.nick != "" && c.nick != c.id
    ensures AliasOf(c) == c.nick <==> (if c.first != "" then c.first == c.nick else c.last == "" || c.last == c.nick)
  {
  }

  /** What displaces it is the first name, or the last name where there is no first one. */
  lemma AliasDisplaced(c: Contact)
    requires c.nick != "" && c.nick != c.id && AliasOf(c) != c.nick
    ensures AliasOf(c) == if c.first != "" then c.first else c.last
  {
  }

  /** Of eight cells the first is the id; the last three are first name, last name and alias. */
  lemma ContactCells(c: seq<string>)
    requires |c| == 8
    ensures RowContact(c).id == c[0] && RowContact(c).first == c[5] && RowContact(c).last == c[6] && RowContact(c).nick == c[7]
  {
  }
}
