/** The group importer's scanner: like that of contacts, with a list of members in one cell, and able to throw. */
module GroupScan {
  import opened Bytes
  import opened Bits
  import opened Wrappers
  import opened Characters
  import opened CsvScan

  const OWNER := 3
  const NAME := 5
  const MEMBERS := 9

  // ----- ids and lists of them -----

  function AllUpper(s: string): (r: string)
    ensures |r| == |s|
  {
    if s == [] then [] else [Upper(s[0])] + AllUpper(s[1..])
  }

  /** client_id::fromString of the C string: throws unless there are eight characters. */
  function IdOf(s: string): Option<string>
  {
    if |CStr(s)| != 8 then None else Some(AllUpper(CStr(s)))
  }

  /** The parts of a list that a semicolon ends, and what follows the last one. */
  function Closed(cell: string): seq<string>
  {
    if cell == [] then []
    else if cell[|cell| - 1] == ';' then Closed(cell[..|cell| - 1]) + [Open(cell[..|cell| - 1])]
    else Closed(cell[..|cell| - 1])
  }

  function Open(cell: string): string
  {
    if cell == [] || cell[|cell| - 1] == ';' then []
    else Open(cell[..|cell| - 1]) + [cell[|cell| - 1]]
  }

  function IdsOf(parts: seq<string>): Option<seq<string>>
  {
    if parts == [] then Some([])
    else
      match (IdsOf(parts[..|parts| - 1]), IdOf(parts[|parts| - 1]))
      case (Some(ids), Some(id)) => Some(ids + [id])
      case _ => None
  }

  lemma IdsOfSnoc(parts: seq<string>, part: string)
    ensures IdsOf(parts + [part])
         == if IdsOf(parts).Some? && IdOf(part).Some? then Some(IdsOf(parts).value + [IdOf(part).value]) else None
  {
    assert (parts + [part])[..|parts|] == parts;
  }

  lemma PartsSnoc(cell: string, c: char)
    ensures Closed(cell + [c]) == if c == ';' then Closed(cell) + [Open(cell)] else Closed(cell)
    ensures Open(cell + [c]) == if c == ';' then [] else Open(cell) + [c]
  {
    assert (cell + [c])[..|cell|] == cell;
  }

  // ----- groups -----

  /** An owner and a group id make a key. */
  datatype Key = Key(owner: string, gid: seq<Byte>)
  datatype Group = Group(key: Key, name: string, members: seq<string>)
  /** The importer's own copy of the group store, and its counters. */
  datatype Groups = Groups(store: map<Key, Group>, g_new: nat, g_old: nat)

  const HEX: string := "0123456789abcdef"
  const NO_HEX := 64

  /** hex_table, which has an entry for '+' as well. */
  function HexDigit(c: char): nat
  {
    if '0' <= c <= '9' then c as int - '0' as int
    else if 'A' <= c <= 'F' then c as int - 'A' as int + 10
    else if 'a' <= c <= 'f' then c as int - 'a' as int + 10
    else if c == '+' then 62
    else NO_HEX
  }

  /** None where hex_decode throws. */
  function HexDecode(s: string): Option<seq<Byte>>
  {
    if s == "" then Some([])
    else if |s| == 1 || HexDigit(s[0]) == NO_HEX || HexDigit(s[1]) == NO_HEX then None
    else
      match HexDecode(s[2..])
      case None => None
      case Some(rest) => Some([Or(HexDigit(s[0]) * 16, HexDigit(s[1])) % 256] + rest)
  }

  function HexEncode(b: seq<Byte>): string
  {
    if b == [] then "" else [HEX[b[0] / 16], HEX[b[0] % 16]] + HexEncode(b[1..])
  }

  lemma HexOne(d: nat)
    requires d < 16
    ensures HexDigit(HEX[d]) == d
  {
  }

  lemma OrNibbles(hi: nat, lo: nat)
    requires hi < 16 && lo < 16
    ensures Or(hi * 16, lo) == hi * 16 + lo
  {
    PowersOfTwo();
    OrDisjoint(hi, lo, 4);
  }

  lemma HexPair(x: Byte)
    ensures HexDigit(HEX[x / 16]) == x / 16 && HexDigit(HEX[x % 16]) == x % 16 && Or(x / 16 * 16, x % 16) % 256 == x
  {
    var hi: nat, lo: nat := x / 16, x % 16;
    HexOne(hi);
    HexOne(lo);
    OrNibbles(hi, lo);
  }

  lemma {:induction false} HexRoundTrip(b: seq<Byte>)
    ensures HexDecode(HexEncode(b)) == Some(b)
  {
    if b != [] {
      HexPair(b[0]);
      HexRoundTrip(b[1..]);
      assert HexEncode(b)[2..] == HexEncode(b[1..]) && b == [b[0]] + b[1..];
    }
  }

  /** strncpy of the C string into sixteen characters. */
  function Sixteen(id: string): (s: string)
    ensures |s| == 16
  {
    var c := CStr(id);
    if |c| >= 16 then c[..16] else c + seq(16 - |c|, i => '\0')
  }

  /** set_name: a group without a name gets one. */
  function NameOf(name: string, key: Key): string
  {
    if name != "" then name else HexEncode(key.gid) + " owned by " + key.owner
  }

  function MakeGroup(id: string, owner: string, name: string, members: Option<seq<string>>): Option<Group>
  {
    if members.None? || IdOf(owner).None? || HexDecode(Sixteen(id)).None? then None
    else
      var key := Key(IdOf(owner).value, HexDecode(Sixteen(id)).value);
      Some(Group(key, NameOf(name, key), members.value))
  }

  /** The group a complete line stands for. */
  function GroupOf(line: string): Option<Group>
  {
    var cell := Field(line, MEMBERS);
    MakeGroup(Field(line, ID), Field(line, OWNER), Field(line, NAME), IdsOf(Closed(cell) + [Open(cell)]))
  }

  function AddGroup(g: Groups, x: Group): Groups
  {
    if x.key in g.store then Groups(g.store[x.key := x], g.g_new, g.g_old + 1)
    else Groups(g.store[x.key := x], g.g_new + 1, g.g_old)
  }

  /** After the given text: the groups so far, as an error once something has been thrown. */
  function Imported(g: Groups, text: string): Result<Groups, Groups>
  {
    if text == [] then Ok(g)
    else
      var init, c := text[..|text| - 1], text[|text| - 1];
      match Imported(g, init)
      case Err(e) => Err(e)
      case Ok(now) =>
        if c == '\n' then
          match GroupOf(Partial(init))
          case None => Err(now)
          case Some(x) => Ok(AddGroup(now, x))
        else if IdsOf(Closed(Field(Partial(text), MEMBERS))).None? then Err(now)
        else Ok(now)
  }

  // ----- the scanner -----

  datatype Row = Row(id: string, owner: string, name: string, member: string, members: seq<string>)
  datatype Reader = Reader(g: Groups, state: nat, row: Row)

  const NO_ROW := Row("", "", "", "", [])

  /** None when the character makes the scanner throw. */
  function Eat(x: Reader, c: char): Option<Reader>
  {
    if c == '"' then Some(x.(state := x.state + 1))
    else if c == '\n' then
      var ids := if IdOf(x.row.member).None? then None else Some(x.row.members + [IdOf(x.row.member).value]);
      match MakeGroup(x.row.id, x.row.owner, x.row.name, ids)
      case None => None
      case Some(group) => Some(Reader(AddGroup(x.g, group), 0, NO_ROW))
    else if x.state == ID then Some(x.(row := x.row.(id := x.row.id + [c])))
    else if x.state == OWNER then Some(x.(row := x.row.(owner := x.row.owner + [c])))
    else if x.state == NAME then Some(x.(row := x.row.(name := x.row.name + [c])))
    else if x.state == MEMBERS then
      if c == ';' then
        if IdOf(x.row.member).None? then None
        else Some(x.(row := x.row.(member := "", members := x.row.members + [IdOf(x.row.member).value])))
      else Some(x.(row := x.row.(member := x.row.member + [c])))
    else Some(x)
  }

  /** The scanner's variables agree with the text read so far. */
  ghost predicate Agrees(g: Groups, text: string, x: Reader)
  {
    var line := Partial(text);
    && Imported(g, text) == Ok(x.g)
    && x.state == Quotes(line)
    && x.row.id == Field(line, ID) && x.row.owner == Field(line, OWNER) && x.row.name == Field(line, NAME)
    && x.row.member == Open(Field(line, MEMBERS)) && IdsOf(Closed(Field(line, MEMBERS))) == Some(x.row.members)
  }

  lemma EatLineAgrees(g: Groups, text: string, x: Reader)
    requires Agrees(g, text, x)
    ensures match Eat(x, '\n')
            case Some(y) => Agrees(g, text + ['\n'], y)
            case None => Imported(g, text + ['\n']) == Err(x.g)
  {
    var cell := Field(Partial(text), MEMBERS);
    assert (text + ['\n'])[..|text|] == text;
    IdsOfSnoc(Closed(cell), Open(cell));
  }

  lemma EatCharAgrees(g: Groups, text: string, c: char, x: Reader)
    requires Agrees(g, text, x) && c != '\n'
    ensures match Eat(x, c)
            case Some(y) => Agrees(g, text + [c], y)
            case None => Imported(g, text + [c]) == Err(x.g)
  {
    var line, cell := Partial(text), Field(Partial(text), MEMBERS);
    assert (text + [c])[..|text|] == text;
    FieldSnoc(line, c, ID);
    FieldSnoc(line, c, OWNER);
    FieldSnoc(line, c, NAME);
    FieldSnoc(line, c, MEMBERS);
    PartsSnoc(cell, c);
    IdsOfSnoc(Closed(cell), Open(cell));
  }

  lemma EatAgrees(g: Groups, text: string, c: char, x: Reader)
    requires Agrees(g, text, x)
    ensures match Eat(x, c)
            case Some(y) => Agrees(g, text + [c], y)
            case None => Imported(g, text + [c]) == Err(x.g)
  {
    if c == '\n' {
      EatLineAgrees(g, text, x);
    } else {
      EatCharAgrees(g, text, c, x);
    }
  }

  /** A throw ends the scan whatever follows. */
  lemma {:induction false} ThrownStays(g: Groups, text: string, i: nat)
    requires i <= |text| && Imported(g, text[..i]).Err?
    ensures Imported(g, text) == Imported(g, text[..i])
    decreases |text| - i
  {
    if i < |text| {
      assert text[..i + 1][..i] == text[..i];
      ThrownStays(g, text, i + 1);
    } else {
      assert text[..i] == text;
    }
  }

  function Eaten(g: Groups, body: string, i: nat): Option<Reader>
    requires i <= |body|
  {
    if i == 0 then Some(Reader(g, 0, NO_ROW))
    else match Eaten(g, body, i - 1) case None => None case Some(x) => Eat(x, body[i - 1])
  }

  lemma EatenNext(g: Groups, body: string, i: nat, x: Reader)
    requires i < |body| && Eaten(g, body, i) == Some(x)
    ensures Eaten(g, body, i + 1) == Eat(x, body[i])
  {
  }

  lemma {:induction false} EatenAgrees(g: Groups, body: string, i: nat)
    requires i <= |body|
    ensures Eaten(g, body, i).Some? ==> Agrees(g, body[..i], Eaten(g, body, i).value)
  {
    if i > 0 && Eaten(g, body, i).Some? {
      EatenAgrees(g, body, i - 1);
      EatAgrees(g, body[..i - 1], body[i - 1], Eaten(g, body, i - 1).value);
      assert body[..i] == body[..i - 1] + [body[i - 1]];
    }
  }

  lemma ThrownAt(g: Groups, body: string, i: nat, x: Reader)
    requires i < |body| && Agrees(g, body[..i], x) && Eat(x, body[i]) == None
    ensures Imported(g, body) == Err(x.g)
  {
    EatAgrees(g, body[..i], body[i], x);
    assert body[..i + 1] == body[..i] + [body[i]];
    ThrownStays(g, body, i + 1);
  }

  lemma Thrown(g: Groups, body: string, i: nat)
    requires i < |body| && Eaten(g, body, i).Some?
    ensures Eaten(g, body, i + 1).None? ==> Imported(g, body) == Err(Eaten(g, body, i).value.g)
  {
    EatenAgrees(g, body, i);
    EatenNext(g, body, i, Eaten(g, body, i).value);
    if Eaten(g, body, i + 1).None? {
      ThrownAt(g, body, i, Eaten(g, body, i).value);
    }
  }

  lemma NotThrown(g: Groups, body: string)
    requires Eaten(g, body, |body|).Some?
    ensures Imported(g, body) == Ok(Eaten(g, body, |body|).value.g)
  {
    EatenAgrees(g, body, |body|);
    assert body[..|body|] == body;
  }

  /** At the end of a line: the last member, the owner and the group id, each of which may throw. */
  method FinishRow(id: string, owner: string, name: string, member: string, members: seq<string>) returns (r: Option<Group>)
    ensures r == MakeGroup(id, owner, name, if IdOf(member).None? then None else Some(members + [IdOf(member).value]))
  {
    var last := IdOf(member);
    if last.None? {
      return None;
    }
    var cid := IdOf(owner);
    if cid.None? {
      return None;
    }
    var gid := HexDecode(Sixteen(id));
    if gid.None? {
      return None;
    }
    var key := Key(cid.value, gid.value);
    return Some(Group(key, NameOf(name, key), members + [last.value]));
  }

  method ScanGroups(file: File, store: map<Key, Group>) returns (r: Result<Groups, Groups>)
    requires file.pos == 0
    modifies file
    ensures r == Imported(Groups(store, 0, 0), Body(file.data))
  {
    ghost var start := Groups(store, 0, 0);
    ghost var body := Body(file.data);
    var g := Groups(store, 0, 0);
    var id, owner, name, member := "", "", "", "";
    var members: seq<string> := [];
    var state := 0;
    var c := file.SkipHeader();
    ghost var i := 0;
    while c.Some?
      invariant i <= |body| && file.Following(body, i, c)
      invariant Eaten(start, body, i) == Some(Reader(g, state, Row(id, owner, name, member, members)))
      decreases |body| - i
    {
      Thrown(start, body, i);
      EatenNext(start, body, i, Reader(g, state, Row(id, owner, name, member, members)));
      if c.value == '"' {
        state := state + 1;
      } else if c.value == '\n' {
        state := 0;
        var group := FinishRow(id, owner, name, member, members);
        if group.None? {
          return Err(g);
        }
        g := AddGroup(g, group.value);
        id, owner, name, member, members := "", "", "", "", [];
      } else if state == ID {
        id := id + [c.value];
      } else if state == OWNER {
        owner := owner + [c.value];
      } else if state == NAME {
        name := name + [c.value];
      } else if state == MEMBERS {
        if c.value == ';' {
          var part := IdOf(member);
          if part.None? {
            return Err(g);
          }
          members := members + [part.value];
          member := "";
        } else {
          member := member + [c.value];
        }
      }
      c := file.Read();
      i := i + 1;
    }
    NotThrown(start, body);
    return Ok(g);
  }

  // ----- quoted tables -----

  function JoinParts(parts: seq<string>): string
  {
    if parts == [] then ""
    else if |parts| == 1 then parts[0]
    else JoinParts(parts[..|parts| - 1]) + ";" + parts[|parts| - 1]
  }

  lemma {:induction false} PartsPlain(cell: string, part: string)
    requires ';' !in part
    ensures Closed(cell + part) == Closed(cell) && Open(cell + part) == Open(cell) + part
  {
    if part == [] {
      assert cell + part == cell;
    } else {
      PartsPlain(cell, part[..|part| - 1]);
      assert cell + part == cell + part[..|part| - 1] + [part[|part| - 1]];
      PartsSnoc(cell + part[..|part| - 1], part[|part| - 1]);
    }
  }

  lemma PartAppended(cell: string, last: string)
    requires ';' !in last
    ensures Closed(cell + ";" + last) == Closed(cell) + [Open(cell)] && Open(cell + ";" + last) == last
  {
    PartsSnoc(cell, ';');
    PartsPlain(cell + ";", last);
    assert Open(cell + ";") == "" && "" + last == last;
  }

  /** Splitting at semicolons undoes joining for every list that is not empty. */
  lemma {:induction false} SplitParts(parts: seq<string>)
    requires parts != [] && forall i :: 0 <= i < |parts| ==> ';' !in parts[i]
    ensures Closed(JoinParts(parts)) + [Open(JoinParts(parts))] == parts
  {
    var init, last := parts[..|parts| - 1], parts[|parts| - 1];
    if |parts| == 1 {
      PartsPlain("", last);
      assert "" + last == last;
    } else {
      SplitParts(init);
      PartAppended(JoinParts(init), last);
      assert parts == init + [last];
    }
  }

  /** The group a row stands for: id, owner, name, creation time, members. */
  function RowGroup(cells: seq<string>): Option<Group>
  {
    var cell := Cell(cells, 4);
    MakeGroup(Cell(cells, 0), Cell(cells, 1), Cell(cells, 2), IdsOf(Closed(cell) + [Open(cell)]))
  }

  /** A row with the given members has exactly them, each in upper case, if all ids are well-formed. */
  lemma RowMembers(cells: seq<string>, members: seq<string>)
    requires |cells| > 4 && cells[4] == JoinParts(members)
    requires members != [] && forall i :: 0 <= i < |members| ==> ';' !in members[i]
    ensures RowGroup(cells) == MakeGroup(cells[0], cells[1], cells[2], IdsOf(members))
  {
    SplitParts(members);
  }

  function AddGroupRows(g: Groups, rows: seq<seq<string>>): Result<Groups, Groups>
  {
    if rows == [] then Ok(g)
    else
      match AddGroupRows(g, rows[..|rows| - 1])
      case Err(e) => Err(e)
      case Ok(now) =>
        match RowGroup(rows[|rows| - 1])
        case None => Err(now)
        case Some(x) => Ok(AddGroup(now, x))
  }

  lemma AfterThrow(g: Groups, text: string, rest: string)
    requires Imported(g, text).Err?
    ensures Imported(g, text + rest) == Imported(g, text)
  {
    assert (text + rest)[..|text|] == text;
    ThrownStays(g, text + rest, |text|);
  }

  /** A malformed id stays in the list. */
  lemma MalformedStays(line: string, c: char)
    requires IdsOf(Closed(Field(line, MEMBERS))).None?
    ensures IdsOf(Closed(Field(line + [c], MEMBERS))).None?
  {
    var cell := Field(line, MEMBERS);
    FieldSnoc(line, c, MEMBERS);
    PartsSnoc(cell, c);
    IdsOfSnoc(Closed(cell), Open(cell));
  }

  lemma CharImported(g: Groups, text: string, c: char, now: Groups)
    requires Imported(g, text) == Ok(now) && c != '\n'
    ensures Partial(text + [c]) == Partial(text) + [c]
    ensures Imported(g, text + [c])
         == if IdsOf(Closed(Field(Partial(text + [c]), MEMBERS))).None? then Err(now) else Ok(now)
  {
    assert (text + [c])[..|text|] == text;
  }

  lemma {:induction false} LineImported(g: Groups, text: string, line: string, now: Groups)
    requires Imported(g, text) == Ok(now) && Partial(text) == "" && '\n' !in line
    ensures Imported(g, text + line) == if IdsOf(Closed(Field(line, MEMBERS))).None? then Err(now) else Ok(now)
    ensures Partial(text + line) == line
  {
    PartialAppended(text, line);
    assert Partial(text + line) == line;
    if line == [] {
      assert text + line == text;
    } else {
      var init, c := line[..|line| - 1], line[|line| - 1];
      LineImported(g, text, init, now);
      assert text + line == text + init + [c] && line == init + [c];
      if IdsOf(Closed(Field(init, MEMBERS))).None? {
        AfterThrow(g, text + init, [c]);
        MalformedStays(init, c);
      } else {
        CharImported(g, text + init, c, now);
      }
    }
  }

  lemma RowImported(g: Groups, text: string, line: string, now: Groups)
    requires Imported(g, text) == Ok(now) && Partial(text) == "" && '\n' !in line
    ensures Imported(g, text + line + "\n")
         == match GroupOf(line) case None => Err(now) case Some(x) => Ok(AddGroup(now, x))
  {
    LineImported(g, text, line, now);
    var t := text + line;
    assert (t + "\n")[..|t|] == t;
    IdsOfSnoc(Closed(Field(line, MEMBERS)), Open(Field(line, MEMBERS)));
  }

  lemma RowFields(cells: seq<string>)
    requires CleanRow(cells)
    ensures Field(PrintRow(cells), ID) == Cell(cells, 0) && Field(PrintRow(cells), OWNER) == Cell(cells, 1)
    ensures Field(PrintRow(cells), NAME) == Cell(cells, 2) && Field(PrintRow(cells), MEMBERS) == Cell(cells, 4)
  {
    FieldOfRow(cells, 0);
    FieldOfRow(cells, 1);
    FieldOfRow(cells, 2);
    FieldOfRow(cells, 4);
  }

  lemma PrintedGroup(cells: seq<string>)
    requires CleanRow(cells)
    ensures GroupOf(PrintRow(cells)) == RowGroup(cells)
  {
    RowFields(cells);
  }

  lemma {:induction false} RowsImported(g: Groups, rows: seq<seq<string>>)
    requires forall i :: 0 <= i < |rows| ==> CleanRow(rows[i])
    ensures Imported(g, Print(rows)) == AddGroupRows(g, rows)
  {
    if rows != [] {
      var init, row := rows[..|rows| - 1], rows[|rows| - 1];
      var text, line := Print(init), PrintRow(row);
      RowsImported(g, init);
      LinesOfTable(init);
      PrintedRowClean(row);
      match Imported(g, text)
      case Ok(now) =>
        RowImported(g, text, line, now);
        PrintedGroup(row);
      case Err(_) =>
        AfterThrow(g, text, line + "\n");
        assert text + line + "\n" == text + (line + "\n");
    }
  }

  lemma {:induction false} GroupsCounted(g: Groups, rows: seq<seq<string>>)
    ensures AddGroupRows(g, rows).Ok? <==> forall i :: 0 <= i < |rows| ==> RowGroup(rows[i]).Some?
    ensures AddGroupRows(g, rows).Ok? ==>
              var r := AddGroupRows(g, rows).value;
              && (r.g_new - g.g_new) + (r.g_old - g.g_old) == |rows|
              && r.g_new - g.g_new == |r.store| - |g.store|
              && g.store.Keys <= r.store.Keys
  {
    if rows != [] {
      var init, row := rows[..|rows| - 1], rows[|rows| - 1];
      GroupsCounted(g, init);
      assert rows == init + [row];
      if AddGroupRows(g, rows).Ok? {
        var now, x := AddGroupRows(g, init).value, RowGroup(row).value;
        StoreSize(now.store, x.key, x);
      }
    }
  }

  lemma StoreSize<K, V>(m: map<K, V>, k: K, v: V)
    ensures |m[k := v]| == |m| + (if k in m then 0 else 1)
  {
    if k in m {
      assert m[k := v].Keys == m.Keys;
    } else {
      assert m[k := v].Keys == m.Keys + {k};
    }
    assert |m[k := v]| == |m[k := v].Keys| && |m| == |m.Keys|;
  }

  /**
   * Importing a printed table of groups stores the groups of its rows, in order, up to the
   * first one with a malformed id; none is lost exactly when there is no such row.
   */
  lemma GroupsRecovered(g: Groups, header: string, rows: seq<seq<string>>)
    requires '\n' !in header && header != ""
    requires forall i :: 0 <= i < |rows| ==> CleanRow(rows[i])
    ensures Imported(g, Body(header + "\n" + Print(rows))) == AddGroupRows(g, rows)
  {
    HeaderSkipped(header, Print(rows));
    RowsImported(g, rows);
  }

  // ----- groups character by character -----

  /** The digit of a number below sixteen. */
  function Nibble(d: nat): char
    requires d < 16
  {
    if d < 10 then ('0' as int + d) as char else ('a' as int + (d - 10)) as char
  }

  /** Two digits for each octet, the high one first. */
  lemma {:induction false} HexAt(b: seq<Byte>, k: nat)
    requires k < |b|
    ensures |HexEncode(b)| == 2 * |b| && HexEncode(b)[2 * k] == Nibble(b[k] / 16) && HexEncode(b)[2 * k + 1] == Nibble(b[k] % 16)
  {
    HexLength(b);
    if k > 0 {
      HexAt(b[1..], k - 1);
      assert HexEncode(b)[2..] == HexEncode(b[1..]);
      assert HexEncode(b)[2 * k] == HexEncode(b)[2..][2 * (k - 1)];
      assert HexEncode(b)[2 * k + 1] == HexEncode(b)[2..][2 * (k - 1) + 1];
    } else {
      NibbleIs(b[0] / 16);
      NibbleIs(b[0] % 16);
    }
  }

  lemma {:induction false} HexLength(b: seq<Byte>)
    ensures |HexEncode(b)| == 2 * |b|
  {
    if b != [] {
      HexLength(b[1..]);
    }
  }

  lemma NibbleIs(d: nat)
    requires d < 16
    ensures HEX[d] == Nibble(d)
  {
  }

  /** A character the decoder takes: a digit, or a plus sign. */
  predicate HexTaken(c: char)
  {
    '0' <= c <= '9' || 'a' <= c <= 'f' || 'A' <= c <= 'F' || c == '+'
  }

  /** Decoding throws exactly on an odd number of characters or one it does not take. */
  lemma {:induction false} HexDecodesIff(s: string)
    ensures HexDecode(s).Some? <==> |s| % 2 == 0 && forall i :: 0 <= i < |s| ==> HexTaken(s[i])
    decreases |s|
  {
    if |s| >= 2 {
      var rest := s[2..];
      HexDecodesIff(rest);
      assert forall i :: 0 <= i < |rest| ==> rest[i] == s[i + 2];
      assert (forall i :: 0 <= i < |s| ==> HexTaken(s[i]))
          <==> HexTaken(s[0]) && HexTaken(s[1]) && forall i :: 0 <= i < |rest| ==> HexTaken(rest[i]) by {
        forall i | 2 <= i < |s|
          ensures s[i] == rest[i - 2]
        {
        }
      }
    }
  }

  /** The digits below sixteen are the usual ones, in either case. */
  lemma HexDigitIs(c: char, d: nat)
    requires d < 16
    ensures HexDigit(c) == d <==> c == Nibble(d) || c == Capital(Nibble(d))
  {
  }

  /** An id cell of fewer than sixteen characters is refused; of a longer one the first sixteen count. */
  lemma IdCell(id: string)
    requires '\0' !in id
    ensures |id| < 16 ==> HexDecode(Sixteen(id)) == None
    ensures |id| >= 16 ==> HexDecode(Sixteen(id)) == HexDecode(id[..16])
  {
    CStrIs(id, id);
    if |id| < 16 {
      HexDecodesIff(Sixteen(id));
      assert Sixteen(id)[15] == '\0';
    }
  }

  /** A letter in upper case. */
  function Capital(c: char): char
  {
    if 'a' <= c <= 'z' then (c as int - 32) as char else c
  }

  /** r is s in upper case, character by character. */
  predicate InCapitals(s: string, r: string)
  {
    |r| == |s| && forall i :: 0 <= i < |s| ==> r[i] == Capital(s[i])
  }

  lemma {:induction false} AllUpperIs(s: string)
    ensures InCapitals(s, AllUpper(s))
  {
    if s != [] {
      AllUpperIs(s[1..]);
      var r, rest := AllUpper(s), AllUpper(s[1..]);
      forall i | 0 < i < |s|
        ensures r[i] == Capital(s[i])
      {
        assert r[i] == rest[i - 1] && s[i] == s[1..][i - 1];
      }
    }
  }

  /** Eight characters, none of them a NUL. */
  predicate GoodId(s: string)
  {
    |s| == 8 && '\0' !in s
  }

  lemma IdRead(s: string)
    requires GoodId(s)
    ensures IdOf(s).Some? && InCapitals(s, IdOf(s).value)
  {
    CStrIs(s, s);
    AllUpperIs(s);
  }

  /** Any other number of characters before the first NUL is refused. */
  lemma IdRefused(s: string, r: string)
    requires r <= s && '\0' !in r && (|r| < |s| ==> s[|r|] == '\0')
    ensures IdOf(s) == None <==> |r| != 8
  {
    CStrIs(s, r);
  }

  /** Each of ids is one of parts in upper case, in the same order. */
  predicate IdsRead(parts: seq<string>, ids: seq<string>)
  {
    |ids| == |parts| && forall i :: 0 <= i < |parts| ==> InCapitals(parts[i], ids[i])
  }

  lemma {:induction false} IdsAreRead(parts: seq<string>)
    requires forall i :: 0 <= i < |parts| ==> GoodId(parts[i])
    ensures IdsOf(parts).Some? && IdsRead(parts, IdsOf(parts).value)
  {
    if parts != [] {
      IdsAreRead(parts[..|parts| - 1]);
      IdRead(parts[|parts| - 1]);
    }
  }

  /** The name a group without one gets. */
  predicate DefaultName(gid: seq<Byte>, owner: string, name: string)
  {
    && |name| == 2 * |gid| + 10 + |owner| && name[2 * |gid|..] == " owned by " + owner
    && forall k :: 0 <= k < |gid| ==> name[2 * k] == Nibble(gid[k] / 16) && name[2 * k + 1] == Nibble(gid[k] % 16)
  }

  lemma NameIs(gid: seq<Byte>, owner: string)
    ensures DefaultName(gid, owner, NameOf("", Key(owner, gid)))
  {
    HexLength(gid);
    var name := NameOf("", Key(owner, gid));
    assert name == HexEncode(gid) + (" owned by " + owner);
    forall k | 0 <= k < |gid|
      ensures name[2 * k] == Nibble(gid[k] / 16) && name[2 * k + 1] == Nibble(gid[k] % 16)
    {
      HexAt(gid, k);
    }
  }

  lemma {:induction false} HexHasNoNul(b: seq<Byte>)
    ensures '\0' !in HexEncode(b)
  {
    if b != [] {
      HexHasNoNul(b[1..]);
      NibbleIs(b[0] / 16);
      NibbleIs(b[0] % 16);
    }
  }

  lemma GidRead(gid: seq<Byte>)
    requires |gid| == 8
    ensures HexDecode(Sixteen(HexEncode(gid))) == Some(gid)
  {
    HexLength(gid);
    HexHasNoNul(gid);
    CStrIs(HexEncode(gid), HexEncode(gid));
    assert HexEncode(gid)[..16] == HexEncode(gid);
    HexRoundTrip(gid);
  }

  /**
   * A well-formed row, character by character: the group has the id of the first cell, the
   * owner and the members in upper case, and its name, or one made of its id and owner.
   */
  lemma RowRead(cells: seq<string>, gid: seq<Byte>, members: seq<string>)
    requires |cells| > 4 && |gid| == 8 && cells[0] == HexEncode(gid) && GoodId(cells[1]) && cells[4] == JoinParts(members)
    requires members != [] && forall i :: 0 <= i < |members| ==> GoodId(members[i]) && ';' !in members[i]
    ensures var x := RowGroup(cells);
      && x.Some? && x.value.key.gid == gid && InCapitals(cells[1], x.value.key.owner) && IdsRead(members, x.value.members)
      && if cells[2] != "" then x.value.name == cells[2] else DefaultName(gid, x.value.key.owner, x.value.name)
  {
    RowMembers(cells, members);
    GidRead(gid);
    IdRead(cells[1]);
    IdsAreRead(members);
    NameIs(gid, IdOf(cells[1]).value);
  }

  lemma RowStores(g: Groups, rows: seq<seq<string>>, key: Key)
    requires rows != [] && AddGroupRows(g, rows).Ok?
    ensures var init, x := AddGroupRows(g, rows[..|rows| - 1]), RowGroup(rows[|rows| - 1]);
      && init.Ok? && x.Some? && (key in AddGroupRows(g, rows).value.store <==> key in init.value.store || key == x.value.key)
      && (key in AddGroupRows(g, rows).value.store ==>
            AddGroupRows(g, rows).value.store[key] == if key == x.value.key then x.value else init.value.store[key])
  {
  }

  /** Row i is the last one of the group with this key. */
  predicate LastOf(rows: seq<seq<string>>, key: Key, i: nat, x: Group)
    requires i < |rows|
  {
    && RowGroup(rows[i]) == Some(x) && x.key == key
    && forall j :: i < j < |rows| ==> RowGroup(rows[j]).Some? && RowGroup(rows[j]).value.key != key
  }

  lemma LastOfInit(rows: seq<seq<string>>, key: Key, i: nat, x: Group)
    requires i + 1 < |rows| && LastOf(rows, key, i, x)
    ensures LastOf(rows[..|rows| - 1], key, i, x) && RowGroup(rows[|rows| - 1]).value.key != key
  {
    var init := rows[..|rows| - 1];
    assert init[i] == rows[i] && forall j :: i < j < |init| ==> init[j] == rows[j];
  }

  /** After an import each group is stored as its last row has it. */
  lemma {:induction false} LastRowStored(g: Groups, rows: seq<seq<string>>, key: Key, i: nat, x: Group)
    requires AddGroupRows(g, rows).Ok? && i < |rows| && LastOf(rows, key, i, x)
    ensures key in AddGroupRows(g, rows).value.store && AddGroupRows(g, rows).value.store[key] == x
    decreases |rows|
  {
    RowStores(g, rows, key);
    if i + 1 < |rows| {
      LastOfInit(rows, key, i, x);
      LastRowStored(g, rows[..|rows| - 1], key, i, x);
    }
  }

  /** A group that no row names is as it was. */
  lemma {:induction false} UnnamedStays(g: Groups, rows: seq<seq<string>>, key: Key)
    requires AddGroupRows(g, rows).Ok?
    requires forall i :: 0 <= i < |rows| ==> RowGroup(rows[i]).Some? && RowGroup(rows[i]).value.key != key
    ensures var store := AddGroupRows(g, rows).value.store;
      (key in store <==> key in g.store) && (key in store ==> store[key] == g.store[key])
    decreases |rows|
  {
    if rows != [] {
      var init := rows[..|rows| - 1];
      RowStores(g, rows, key);
      assert forall i :: 0 <= i < |init| ==> init[i] == rows[i];
      UnnamedStays(g, init, key);
    }
  }

  /** What is left when an import throws: the groups of the rows before the first malformed one. */
  lemma {:induction false} ThrownBehind(g: Groups, rows: seq<seq<string>>) returns (k: nat)
    requires AddGroupRows(g, rows).Err?
    ensures k < |rows| && RowGroup(rows[k]) == None && AddGroupRows(g, rows[..k]) == Ok(AddGroupRows(g, rows).error)
    decreases |rows|
  {
    var init := rows[..|rows| - 1];
    if AddGroupRows(g, init).Err? {
      k := ThrownBehind(g, init);
      assert init[..k] == rows[..k];
    } else {
      k := |rows| - 1;
    }
  }
}
