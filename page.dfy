/**
 * The pure helpers of the admin page app/page.tsx: spreadsheet header
 * normalisation, class-name joining, the mapping of spreadsheet rows to
 * import rows, the search filter and the CSV export.
 */
module Page {
  import opened Wrappers
  import opened Text
  import opened Store

  /* ---------- header normalisation ---------- */

  /** The header as it is matched: trimmed and lowercased. */
  function HeaderText(h: string): string {
    Lower(Trim(h))
  }

  /** `normalizeHeader(h)`: one of the import-row keys, or the trimmed lowercase header. */
  function NormalizeHeader(h: string): (r: string)
    // the tests run in order and the first match wins
    ensures r == "fullName" <==> Contains(HeaderText(h), "nome")
    ensures r == "email" <==>
      (!Contains(HeaderText(h), "nome")
       && (Contains(HeaderText(h), "e-mail") || Contains(HeaderText(h), "email")))
    ensures r == "whatsapp" <==>
      (!Contains(HeaderText(h), "nome") && !Contains(HeaderText(h), "e-mail") && !Contains(HeaderText(h), "email")
       && Contains(HeaderText(h), "whatsapp"))
    // an English `category` header falls through unchanged and still lands on the key
    ensures r == "category" <==>
      (!Contains(HeaderText(h), "nome") && !Contains(HeaderText(h), "e-mail") && !Contains(HeaderText(h), "email")
       && !Contains(HeaderText(h), "whatsapp")
       && (Contains(HeaderText(h), "categoria") || HeaderText(h) == "category"))
    ensures r !in {"fullName", "email", "whatsapp", "category"} ==> r == HeaderText(h)
  {
    var s := HeaderText(h);
    assert s != "fullName" by {
      assert |s| == 8 ==> s[4] == LowerChar(Trim(h)[4]);
    }
    if Contains(s, "nome") then "fullName"
    else if Contains(s, "e-mail") || Contains(s, "email") then "email"
    else if Contains(s, "whatsapp") then "whatsapp"
    else if Contains(s, "categoria") then "category"
    else s
  }

  /** Lowercasing keeps the ends of a string free of spaces. */
  lemma LowerKeepsSpaces(s: string)
    ensures forall i :: 0 <= i < |s| ==> (IsSpace(Lower(s)[i]) <==> IsSpace(s[i]))
  {
  }

  /** A header that maps to no import key normalises to itself: normalising it again changes nothing. */
  lemma NormalizeHeaderIdempotent(h: string)
    ensures var r := NormalizeHeader(h);
            r !in {"fullName", "email", "whatsapp", "category"} ==> NormalizeHeader(r) == r
  {
    var r := NormalizeHeader(h);
    var t := Trim(h);
    LowerKeepsSpaces(t);
    LowerIdempotent(t);
    assert Trim(Lower(t)) == Lower(t) by {
      var l := Lower(t);
      assert l == [] || (!IsSpace(l[0]) && !IsSpace(l[|l| - 1]));
      assert TrimStart(l) == l;
    }
  }

  /* ---------- clsx ---------- */

  /** The arguments `filter(Boolean)` keeps: the non-empty strings, in order. */
  function TruthyArgs(c: seq<Option<string>>): (r: seq<string>)
    ensures forall s :: s in r <==> Some(s) in c && s != ""
    ensures |r| <= |c|
  {
    if c == [] then []
    else
      assert c == [c[0]] + c[1..];
      (if Present(c[0]) then [c[0].value] else []) + TruthyArgs(c[1..])
  }

  /** The filter keeps the truthy arguments of each part, in their order and with their repeats. */
  lemma {:induction false} TruthyArgsAppend(a: seq<Option<string>>, b: seq<Option<string>>)
    ensures TruthyArgs(a + b) == TruthyArgs(a) + TruthyArgs(b)
    decreases |a|
  {
    if a != [] {
      var head := if Present(a[0]) then [a[0].value] else [];
      assert (a + b)[0] == a[0];
      assert (a + b)[1..] == a[1..] + b;
      assert TruthyArgs(a + b) == head + TruthyArgs(a[1..] + b);
      assert TruthyArgs(a) == head + TruthyArgs(a[1..]);
      TruthyArgsAppend(a[1..], b);
      assert head + (TruthyArgs(a[1..]) + TruthyArgs(b)) == (head + TruthyArgs(a[1..])) + TruthyArgs(b);
    } else {
      assert a + b == b;
    }
  }

  /** A single argument is kept exactly when it is a non-empty string. */
  lemma TruthyArgsOne(x: Option<string>)
    ensures TruthyArgs([x]) == if Present(x) then [x.value] else []
  {
    assert [x][1..] == [];
  }

  /** `clsx(...c)`; `false`, `undefined` and `null` arguments are `None`. */
  function Clsx(c: seq<Option<string>>): (r: string)
    ensures r == "" <==> TruthyArgs(c) == []
  {
    var parts := TruthyArgs(c);
    assert parts != [] ==> parts[0] in parts;
    Join(parts, " ")
  }

  /** The class string splits on spaces back into the truthy arguments, when none holds a space. */
  lemma ClsxSplits(c: seq<Option<string>>)
    requires TruthyArgs(c) != []
    requires forall s :: Some(s) in c ==> ' ' !in s
    ensures Split(Clsx(c), ' ') == TruthyArgs(c)
  {
    var parts := TruthyArgs(c);
    forall k | 0 <= k < |parts| ensures ' ' !in parts[k] {
      assert parts[k] in parts;
    }
    SplitJoin(parts, ' ');
  }

  /* ---------- spreadsheet rows ---------- */

  /** No space at either end. */
  predicate Trimmed(s: string) {
    s == [] || (!IsSpace(s[0]) && !IsSpace(s[|s| - 1]))
  }

  /** A spreadsheet cell: `None` for `undefined` or `null`, otherwise its string form. */
  type Cell = Option<string>

  /** `typeof cell === "string" ? cell.trim() : String(cell ?? "").trim()` for the cell in column `i`. */
  function CellText(cells: seq<Cell>, i: nat): (r: string)
    ensures Trimmed(r)
  {
    if i < |cells| && cells[i].Some? then Trim(cells[i].value) else ""
  }

  /** The record after `obj[keys[i]] = val(i)` for every column `i`, left to right. */
  function Assign<V>(keys: seq<string>, val: nat -> V): map<string, V>
    decreases |keys|
  {
    if keys == [] then map[]
    else
      var n := |keys| - 1;
      Assign(keys[..n], val)[keys[n] := val(n)]
  }

  lemma {:induction false} AssignKeys<V>(keys: seq<string>, val: nat -> V)
    ensures forall k :: k in Assign(keys, val) <==> k in keys
    decreases |keys|
  {
    if keys != [] {
      var n := |keys| - 1;
      AssignKeys(keys[..n], val);
      assert keys == keys[..n] + [keys[n]];
    }
  }

  /** Each stored value is the value of some column. */
  lemma {:induction false} AssignValue<V>(keys: seq<string>, val: nat -> V, k: string)
    requires k in Assign(keys, val)
    ensures exists i :: 0 <= i < |keys| && Assign(keys, val)[k] == val(i)
    decreases |keys|
  {
    var n := |keys| - 1;
    if k == keys[n] {
      assert Assign(keys, val)[k] == val(n);
    } else {
      AssignValue(keys[..n], val, k);
      var i :| 0 <= i < n && Assign(keys[..n], val)[k] == val(i);
      assert Assign(keys, val)[k] == val(i);
    }
  }

  lemma {:induction false} AssignRightmostWins<V>(keys: seq<string>, val: nat -> V, i: nat)
    requires i < |keys|
    requires forall j :: i < j < |keys| ==> keys[j] != keys[i]
    ensures keys[i] in Assign(keys, val) && Assign(keys, val)[keys[i]] == val(i)
    decreases |keys|
  {
    var n := |keys| - 1;
    if i < n {
      var prefix := keys[..n];
      assert forall j :: 0 <= j < n ==> prefix[j] == keys[j];
      AssignRightmostWins(prefix, val, i);
    }
  }

  /** The record `obj` after `map.forEach` has stored column `i` under `keys[i]`, left to right. */
  function RowObject(keys: seq<string>, cells: seq<Cell>): map<string, string> {
    Assign(keys, i => CellText(cells, i))
  }

  /** The row record has exactly the header keys. */
  lemma RowObjectKeys(keys: seq<string>, cells: seq<Cell>)
    ensures forall k :: k in RowObject(keys, cells) <==> k in keys
  {
    AssignKeys(keys, i => CellText(cells, i));
  }

  /** Every value in the row record is a trimmed cell. */
  lemma RowObjectTrimmed(keys: seq<string>, cells: seq<Cell>, k: string)
    requires k in RowObject(keys, cells)
    ensures Trimmed(RowObject(keys, cells)[k])
  {
    AssignValue(keys, i => CellText(cells, i), k);
  }

  /** A key repeated in the header holds the cell of its rightmost column. */
  lemma RowObjectRightmostWins(keys: seq<string>, cells: seq<Cell>, i: nat)
    requires i < |keys|
    requires forall j :: i < j < |keys| ==> keys[j] != keys[i]
    ensures keys[i] in RowObject(keys, cells) && RowObject(keys, cells)[keys[i]] == CellText(cells, i)
  {
    AssignRightmostWins(keys, i => CellText(cells, i), i);
  }

  /** The `map.forEach` filling `obj` for one row. */
  method FillRow(keys: seq<string>, cells: seq<Cell>) returns (obj: map<string, string>)
    ensures obj == RowObject(keys, cells)
  {
    obj := map[];
    var i := 0;
    while i < |keys|
      invariant 0 <= i <= |keys|
      invariant obj == RowObject(keys[..i], cells)
    {
      assert keys[..i + 1][..i] == keys[..i];
      obj := obj[keys[i] := CellText(cells, i)];
      i := i + 1;
    }
    assert keys[..i] == keys;
  }

  /** An import row as the page previews and posts it. */
  datatype ImportRow = ImportRow(fullName: string, email: string, whatsapp: string, category: string)

  /** `obj[key] || ""`. */
  function Field(obj: map<string, string>, key: string): string {
    if key in obj then obj[key] else ""
  }

  function ToImportRow(obj: map<string, string>): ImportRow {
    ImportRow(Field(obj, "fullName"), Field(obj, "email"), Field(obj, "whatsapp"), Field(obj, "category"))
  }

  lemma FieldTrimmed(keys: seq<string>, cells: seq<Cell>, key: string)
    ensures Trimmed(Field(RowObject(keys, cells), key))
  {
    if key in RowObject(keys, cells) {
      RowObjectTrimmed(keys, cells, key);
    }
  }

  /** The header cells `String(h ?? "")`, normalised. */
  function Keys(head: seq<Cell>): (keys: seq<string>)
    ensures |keys| == |head|
    ensures forall i :: 0 <= i < |head| ==> keys[i] == NormalizeHeader(head[i].GetOr(""))
  {
    seq(|head|, i requires 0 <= i < |head| => NormalizeHeader(head[i].GetOr("")))
  }

  /** A row survives the last filter when its name and email are both non-empty. */
  predicate Complete(r: ImportRow) {
    r.fullName != "" && r.email != ""
  }

  /** What one spreadsheet row contributes: nothing when it is empty or incomplete. */
  function RowResult(keys: seq<string>, cells: seq<Cell>): (r: Option<ImportRow>)
    // a row is kept exactly when it has cells and its name and email cells trim to non-empty text
    ensures r.Some? <==>
      cells != [] && Field(RowObject(keys, cells), "fullName") != "" && Field(RowObject(keys, cells), "email") != ""
    // the kept row carries the record's four fields, `""` for a missing one
    ensures r.Some? ==>
      r.value.fullName == Field(RowObject(keys, cells), "fullName") && r.value.email == Field(RowObject(keys, cells), "email")
      && r.value.whatsapp == Field(RowObject(keys, cells), "whatsapp") && r.value.category == Field(RowObject(keys, cells), "category")
    ensures r.Some? ==> Complete(r.value)
    ensures r.Some? ==>
      Trimmed(r.value.fullName) && Trimmed(r.value.email) && Trimmed(r.value.whatsapp) && Trimmed(r.value.category)
  {
    if cells == [] then None
    else
      var obj := RowObject(keys, cells);
      FieldTrimmed(keys, cells, "fullName");
      FieldTrimmed(keys, cells, "email");
      FieldTrimmed(keys, cells, "whatsapp");
      FieldTrimmed(keys, cells, "category");
      var row := ToImportRow(obj);
      if Complete(row) then Some(row) else None
  }

  /** The rows of a workbook: non-empty rows, mapped through the header, keeping the complete ones, in order. */
  function ParseRows(keys: seq<string>, rows: seq<seq<Cell>>): (parsed: seq<ImportRow>)
    ensures |parsed| <= |rows|
    ensures forall r :: r in parsed <==> exists k :: 0 <= k < |rows| && RowResult(keys, rows[k]) == Some(r)
    decreases |rows|
  {
    if rows == [] then []
    else
      var rest := ParseRows(keys, rows[1..]);
      assert forall k :: 1 <= k < |rows| ==> rows[1..][k - 1] == rows[k];
      match RowResult(keys, rows[0])
      case Some(row) => [row] + rest
      case None => rest
  }

  /** The parsed rows of a table are those of its parts, in order: the filter and map keep order and repeats. */
  lemma {:induction false} ParseRowsAppend(keys: seq<string>, a: seq<seq<Cell>>, b: seq<seq<Cell>>)
    ensures ParseRows(keys, a + b) == ParseRows(keys, a) + ParseRows(keys, b)
    decreases |a|
  {
    if a != [] {
      var head := match RowResult(keys, a[0]) case Some(r) => [r] case None => [];
      assert (a + b)[0] == a[0];
      assert (a + b)[1..] == a[1..] + b;
      assert ParseRows(keys, a + b) == head + ParseRows(keys, a[1..] + b);
      assert ParseRows(keys, a) == head + ParseRows(keys, a[1..]);
      ParseRowsAppend(keys, a[1..], b);
      assert head + (ParseRows(keys, a[1..]) + ParseRows(keys, b)) == (head + ParseRows(keys, a[1..])) + ParseRows(keys, b);
    } else {
      assert a + b == b;
    }
  }

  /** One spreadsheet row gives its own result, or nothing. */
  lemma ParseRowsOne(keys: seq<string>, row: seq<Cell>)
    ensures ParseRows(keys, [row]) == match RowResult(keys, row) case Some(r) => [r] case None => []
  {
    assert [row][1..] == [];
  }

  /** Every imported row is complete and its fields are trimmed. */
  lemma ParsedRowsComplete(keys: seq<string>, rows: seq<seq<Cell>>)
    ensures forall r :: r in ParseRows(keys, rows) ==>
      Complete(r) && Trimmed(r.fullName) && Trimmed(r.email) && Trimmed(r.whatsapp) && Trimmed(r.category)
  {
  }

  /* ---------- search filter ---------- */

  /** The query as it is matched: trimmed and lowercased. */
  function SearchQuery(filter: string): string {
    Lower(Trim(filter))
  }

  /** Name, email, WhatsApp or category contains `q`, ignoring case; absent fields are `""`. */
  predicate Matches(g: Guest, q: string) {
    Contains(Lower(g.fullName), q) || Contains(Lower(g.email), q)
    || Contains(Lower(g.whatsapp.GetOr("")), q) || Contains(Lower(g.category.GetOr("")), q)
  }

  /** `a` is `b` with some elements left out, the rest in the same order. */
  predicate IsSublist<T(==)>(a: seq<T>, b: seq<T>)
    decreases |b|
  {
    a == [] || (b != [] && ((a[0] == b[0] && IsSublist(a[1..], b[1..])) || IsSublist(a, b[1..])))
  }

  /** `guests.filter(g => Matches(g, q))`. */
  function KeepMatching(guests: seq<Guest>, q: string): (r: seq<Guest>)
    ensures IsSublist(r, guests)
    ensures forall g :: g in r <==> g in guests && Matches(g, q)
    // every matching guest is kept as often as it occurs, every other one never
    ensures forall g :: multiset(r)[g] == if Matches(g, q) then multiset(guests)[g] else 0
    decreases |guests|
  {
    if guests == [] then []
    else
      var rest := KeepMatching(guests[1..], q);
      assert guests == [guests[0]] + guests[1..];
      assert multiset(guests) == multiset{guests[0]} + multiset(guests[1..]);
      if Matches(guests[0], q) then
        assert ([guests[0]] + rest)[1..] == rest;
        [guests[0]] + rest
      else rest
  }

  /** The `filtered` memo of the guest list. */
  function Filtered(guests: seq<Guest>, filter: string): (r: seq<Guest>)
    // a blank query shows every guest, in order
    ensures SearchQuery(filter) == "" ==> r == guests
    // otherwise exactly the matching guests, in their original order
    ensures SearchQuery(filter) != "" ==>
      IsSublist(r, guests) && forall g :: g in r <==> g in guests && Matches(g, SearchQuery(filter))
    ensures SearchQuery(filter) != "" ==>
      forall g :: multiset(r)[g] == if Matches(g, SearchQuery(filter)) then multiset(guests)[g] else 0
  {
    var q := SearchQuery(filter);
    if q == "" then guests else KeepMatching(guests, q)
  }

  /** Filtering an already filtered list with the same query changes nothing. */
  lemma {:induction false} KeepMatchingIdempotent(guests: seq<Guest>, q: string)
    ensures KeepMatching(KeepMatching(guests, q), q) == KeepMatching(guests, q)
    decreases |guests|
  {
    if guests != [] {
      KeepMatchingIdempotent(guests[1..], q);
      var rest := KeepMatching(guests[1..], q);
      if Matches(guests[0], q) {
        assert ([guests[0]] + rest)[1..] == rest;
      }
    }
  }

  lemma FilteredIdempotent(guests: seq<Guest>, filter: string)
    ensures Filtered(Filtered(guests, filter), filter) == Filtered(guests, filter)
  {
    if SearchQuery(filter) != "" {
      KeepMatchingIdempotent(guests, SearchQuery(filter));
    }
  }

  /* ---------- CSV export ---------- */

  const CsvHeaders: seq<string> := ["Nome", "Email", "WhatsApp", "Categoria", "Estado", "CheckInAt"]

  /** `String(x).replace(/"/g, '""')`: every quote doubled. */
  function Escape(x: string): (r: string)
    ensures |r| >= |x|
  {
    if x == [] then []
    else (if x[0] == '"' then "\"\"" else [x[0]]) + Escape(x[1..])
  }

  /** A field as the export writes it: quoted, with inner quotes doubled (section 2 of RFC 4180). */
  function Quote(x: string): string {
    "\"" + Escape(x) + "\""
  }

  /** One record: its quoted fields joined by commas. */
  function Record(fields: seq<string>): string {
    Join(seq(|fields|, i requires 0 <= i < |fields| => Quote(fields[i])), ",")
  }

  /** The six fields exported for a guest; `checkInAt` goes through the ISO formatter `iso` when truthy. */
  function GuestFields(g: Guest, iso: int -> string): (r: seq<string>)
    ensures |r| == |CsvHeaders|
  {
    [g.fullName, g.email, g.whatsapp.GetOr(""), g.category.GetOr(""), StatusName(g.status),
     if g.checkInAt.Some? && g.checkInAt.value != 0 then iso(g.checkInAt.value) else ""]
  }

  /** The table `[headers, ...rows]` of the export. */
  function CsvTable(guests: seq<Guest>, iso: int -> string): (t: seq<seq<string>>)
    ensures |t| == |guests| + 1 && t[0] == CsvHeaders
    ensures forall i :: 0 <= i < |guests| ==> t[i + 1] == GuestFields(guests[i], iso)
    ensures forall i :: 0 <= i < |t| ==> |t[i]| == |CsvHeaders|
  {
    [CsvHeaders] + seq(|guests|, i requires 0 <= i < |guests| => GuestFields(guests[i], iso))
  }

  /** The text of `exportCsv`: the records joined by newlines. */
  function Csv(guests: seq<Guest>, iso: int -> string): string {
    var t := CsvTable(guests, iso);
    Join(seq(|t|, i requires 0 <= i < |t| => Record(t[i])), "\n")
  }

  /** Reads a quoted field after its opening quote: the field and the text after its closing quote. */
  function ReadQuoted(s: string): (r: Option<(string, string)>)
    ensures r.Some? ==> |r.value.1| < |s|
    decreases |s|
  {
    if s == [] then None
    else if s[0] == '"' && |s| >= 2 && s[1] == '"' then
      match ReadQuoted(s[2..])
      case None => None
      case Some((f, rest)) => Some(("\"" + f, rest))
    else if s[0] == '"' then Some(("", s[1..]))
    else
      match ReadQuoted(s[1..])
      case None => None
      case Some((f, rest)) => Some(([s[0]] + f, rest))
  }

  /** Reads one quoted field. */
  function ReadField(s: string): (r: Option<(string, string)>)
    ensures r.Some? ==> |r.value.1| < |s|
  {
    if s != [] && s[0] == '"' then ReadQuoted(s[1..]) else None
  }

  /** Reads the comma-separated quoted fields of one record. */
  function ReadRecord(s: string): (r: Option<(seq<string>, string)>)
    ensures r.Some? ==> |r.value.1| < |s|
    decreases |s|
  {
    match ReadField(s)
    case None => None
    case Some((f, rest)) =>
      if rest != [] && rest[0] == ',' then
        match ReadRecord(rest[1..])
        case None => None
        case Some((fs, rest2)) => Some(([f] + fs, rest2))
      else Some(([f], rest))
  }

  /** Reads newline-separated records up to the end of the text. */
  function ReadCsv(s: string): (r: Option<seq<seq<string>>>)
    decreases |s|
  {
    match ReadRecord(s)
    case None => None
    case Some((fields, rest)) =>
      if rest == [] then Some([fields])
      else if rest[0] == '\n' then
        match ReadCsv(rest[1..])
        case None => None
        case Some(records) => Some([fields] + records)
      else None
  }

  lemma ReadQuotedClose(rest: string)
    requires rest == [] || rest[0] != '"'
    ensures ReadQuoted("\"" + rest) == Some(("", rest))
  {
    assert ("\"" + rest)[1..] == rest;
  }

  lemma ReadQuotedPair(tail: string, f: string, rest: string)
    requires ReadQuoted(tail) == Some((f, rest))
    ensures ReadQuoted("\"\"" + tail) == Some(("\"" + f, rest))
  {
    assert ("\"\"" + tail)[2..] == tail;
  }

  lemma ReadQuotedPlain(c: char, tail: string, f: string, rest: string)
    requires c != '"' && ReadQuoted(tail) == Some((f, rest))
    ensures ReadQuoted([c] + tail) == Some(([c] + f, rest))
  {
    assert ([c] + tail)[1..] == tail;
  }

  lemma Assoc4(a: string, b: string, c: string, d: string)
    ensures a + b + c + d == a + (b + c + d)
  {
  }

  /** One escaped character in front of a body that reads back. */
  lemma ReadQuotedStep(x: string, rest: string)
    requires x != []
    requires ReadQuoted(Escape(x[1..]) + "\"" + rest) == Some((x[1..], rest))
    ensures ReadQuoted(Escape(x) + "\"" + rest) == Some((x, rest))
  {
    var tail := Escape(x[1..]) + "\"" + rest;
    var head := if x[0] == '"' then "\"\"" else [x[0]];
    assert Escape(x) == head + Escape(x[1..]);
    Assoc4(head, Escape(x[1..]), "\"", rest);
    if x[0] == '"' {
      ReadQuotedPair(tail, x[1..], rest);
      assert x == "\"" + x[1..];
    } else {
      ReadQuotedPlain(x[0], tail, x[1..], rest);
      assert x == [x[0]] + x[1..];
    }
  }

  /** A doubled-quote body is read back up to its closing quote. */
  lemma {:induction false} ReadQuotedEscape(x: string, rest: string)
    requires rest == [] || rest[0] != '"'
    ensures ReadQuoted(Escape(x) + "\"" + rest) == Some((x, rest))
    decreases |x|
  {
    if x == [] {
      assert Escape(x) + "\"" + rest == "\"" + rest;
      ReadQuotedClose(rest);
    } else {
      ReadQuotedEscape(x[1..], rest);
      ReadQuotedStep(x, rest);
    }
  }

  /** Every exported field reads back as the string it came from. */
  lemma QuoteRoundTrip(x: string, rest: string)
    requires rest == [] || rest[0] != '"'
    ensures ReadField(Quote(x) + rest) == Some((x, rest))
  {
    ReadQuotedEscape(x, rest);
    assert (Quote(x) + rest)[1..] == Escape(x) + "\"" + rest;
  }

  lemma RecordUnfold(fields: seq<string>, rest: string)
    requires |fields| >= 2
    ensures Record(fields) + rest == Quote(fields[0]) + ("," + (Record(fields[1..]) + rest))
  {
    var quoted := seq(|fields|, i requires 0 <= i < |fields| => Quote(fields[i]));
    var tail := fields[1..];
    assert quoted[1..] == seq(|tail|, i requires 0 <= i < |tail| => Quote(tail[i]));
    assert Record(fields) == Quote(fields[0]) + "," + Record(tail);
  }

  lemma RecordSingle(fields: seq<string>)
    requires |fields| == 1
    ensures Record(fields) == Quote(fields[0]) && fields == [fields[0]]
  {
  }

  /** A field followed by a comma and a record that reads back. */
  lemma ReadRecordComma(s: string, f: string, s2: string, fs: seq<string>, rest: string)
    requires ReadField(s) == Some((f, "," + s2))
    requires ReadRecord(s2) == Some((fs, rest))
    ensures ReadRecord(s) == Some(([f] + fs, rest))
  {
    assert ("," + s2)[1..] == s2;
  }

  /** A record reads back as its fields. */
  lemma {:induction false} ReadRecordRoundTrip(fields: seq<string>, rest: string)
    requires |fields| >= 1
    requires rest == [] || rest[0] == '\n'
    ensures ReadRecord(Record(fields) + rest) == Some((fields, rest))
    decreases |fields|
  {
    if |fields| == 1 {
      RecordSingle(fields);
      QuoteRoundTrip(fields[0], rest);
    } else {
      var tail := fields[1..];
      ReadRecordRoundTrip(tail, rest);
      RecordUnfold(fields, rest);
      var s2 := Record(tail) + rest;
      QuoteRoundTrip(fields[0], "," + s2);
      ReadRecordComma(Record(fields) + rest, fields[0], s2, tail, rest);
      assert fields == [fields[0]] + tail;
    }
  }

  /** Records joined by newlines read back as the table. */
  lemma {:induction false} ReadCsvRoundTrip(t: seq<seq<string>>)
    requires |t| >= 1
    requires forall i :: 0 <= i < |t| ==> |t[i]| >= 1
    ensures ReadCsv(Join(seq(|t|, i requires 0 <= i < |t| => Record(t[i])), "\n")) == Some(t)
    decreases |t|
  {
    var records := seq(|t|, i requires 0 <= i < |t| => Record(t[i]));
    if |t| == 1 {
      assert Join(records, "\n") == Record(t[0]);
      ReadRecordRoundTrip(t[0], "");
      assert Record(t[0]) + "" == Record(t[0]);
      assert t == [t[0]];
    } else {
      var tail := t[1..];
      ReadCsvRoundTrip(tail);
      var rest := seq(|tail|, i requires 0 <= i < |tail| => Record(tail[i]));
      assert records[1..] == rest;
      var after := "\n" + Join(rest, "\n");
      assert Join(records, "\n") == Record(t[0]) + after;
      ReadRecordRoundTrip(t[0], after);
      assert after[1..] == Join(rest, "\n");
      assert t == [t[0]] + tail;
    }
  }

  /** The exported text (quoted fields, LF-separated records) reads back as the header and one six-field record per guest. */
  lemma CsvRoundTrip(guests: seq<Guest>, iso: int -> string)
    ensures ReadCsv(Csv(guests, iso)) == Some(CsvTable(guests, iso))
  {
    ReadCsvRoundTrip(CsvTable(guests, iso));
  }
}
