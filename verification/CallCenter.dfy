/** `|`-delimited callcenter listings, keyed by header name, and their typed rows. */
module CallCenter {
  import opened Text
  import Decimal
  import HeaderBlock
  import opened Statuses

  type Row = map<string, string>

  // ---- Lines ----

  function LineLength(s: string): (n: nat)
    ensures n <= |s|
  {
    if s == [] || IsLineBreak(s[0]) then 0 else 1 + LineLength(s[1..])
  }

  /** Lines as `str.splitlines` cuts them; a carriage return and line feed together break once. */
  function SplitLines(s: string): seq<string>
    decreases |s|
  {
    if s == [] then []
    else
      var n := LineLength(s);
      if n == |s| then [s]
      else
        var skip := if n + 1 < |s| && s[n] == '\r' && s[n + 1] == '\n' then 2 else 1;
        [s[..n]] + SplitLines(s[n + skip..])
  }

  predicate StartsWith(s: string, prefix: string) {
    |prefix| <= |s| && s[..|prefix|] == prefix
  }

  predicate IsRefusal(s: string) {
    StartsWith(Lower(s), "-err") || StartsWith(Lower(s), "-usage")
  }

  predicate IsOk(s: string) {
    StartsWith(Lower(s), "+ok")
  }

  /** Lines that carry data: stripped, neither blank nor a `+OK` status. */
  function Keep(lines: seq<string>): seq<string> {
    if lines == [] then []
    else
      var line := Strip(lines[0]);
      (if line != [] && !IsOk(line) then [line] else []) + Keep(lines[1..])
  }

  function StripAll(cells: seq<string>): seq<string> {
    seq(|cells|, i requires 0 <= i < |cells| => Strip(cells[i]))
  }

  /** Cells paired with names from the left; unnamed columns drop out, a repeated name
      keeps its last cell. */
  function RowMap(header: seq<string>, values: seq<string>): Row
    requires |header| <= |values|
  {
    if header == [] then map[]
    else
      var n := |header| - 1;
      var m := RowMap(header[..n], values);
      if header[n] == [] then m else m[header[n] := Strip(values[n])]
  }

  /** The rows long enough for the header. */
  function RowsOf(header: seq<string>, lines: seq<string>): seq<Row> {
    if lines == [] then []
    else
      var n := |lines| - 1;
      var values := Split(lines[n], '|');
      RowsOf(header, lines[..n]) + if |values| < |header| then [] else [RowMap(header, values)]
  }

  datatype Table = Refused(message: string) | Rows(rows: seq<Row>)

  function Take200(s: string): string {
    if |s| <= 200 then s else s[..200]
  }

  function FirstLine(s: string): string {
    if SplitLines(s) == [] then [] else SplitLines(s)[0]
  }

  function ParsedTable(text: string): Table {
    var stripped := Strip(text);
    if stripped == [] then Rows([])
    else if IsRefusal(stripped) then Refused(Take200(FirstLine(stripped)))
    else
      var lines := Keep(SplitLines(stripped));
      if lines == [] then Rows([])
      else Rows(RowsOf(StripAll(Split(lines[0], '|')), lines[1..]))
  }

  method ParseCallcenterTable(text: string) returns (r: Table)
    ensures r == ParsedTable(text)
  {
    hide RowMap, SplitLines, Split, Keep, IsRefusal, Strip;
    var stripped := Strip(text);
    if stripped == [] {
      return Rows([]);
    }
    if IsRefusal(stripped) {
      return Refused(Take200(FirstLine(stripped)));
    }
    var lines := Keep(SplitLines(stripped));
    if lines == [] {
      return Rows([]);
    }
    var header := StripAll(Split(lines[0], '|'));
    var rows: seq<Row> := [];
    var data := lines[1..];
    for i := 0 to |data|
      invariant rows == RowsOf(header, data[..i])
    {
      assert data[..i + 1][..i] == data[..i];
      var values := Split(data[i], '|');
      if |values| < |header| {
        continue;
      }
      rows := rows + [RowMap(header, values)];
    }
    assert data[..|data|] == data;
    return Rows(rows);
  }

  // ---- Refusals, lines, status lines ----

  /** The text starts with one of the two refusal marks, in any case. */
  ghost predicate Refuses(s: string) {
    exists mark, rest :: s == mark + rest && (Lower(mark) == "-err" || Lower(mark) == "-usage")
  }

  lemma {:induction false} StartsWithMark(s: string, prefix: string)
    ensures StartsWith(Lower(s), prefix) <==> exists mark, rest :: s == mark + rest && Lower(mark) == prefix
  {
    if StartsWith(Lower(s), prefix) {
      var mark := s[..|prefix|];
      assert s == mark + s[|prefix|..] && Lower(mark) == Lower(s)[..|prefix|];
    }
    forall mark, rest | s == mark + rest && Lower(mark) == prefix ensures StartsWith(Lower(s), prefix) {
      assert Lower(s)[..|prefix|] == Lower(mark);
    }
  }

  lemma {:induction false} RefusalMarks(s: string)
    ensures IsRefusal(s) <==> Refuses(s)
  {
    StartsWithMark(s, "-err");
    StartsWithMark(s, "-usage");
    hide Lower, StartsWith;
  }

  /** A listing is refused exactly if its stripped text starts with a refusal mark. */
  lemma {:induction false} RefusedIff(text: string)
    ensures ParsedTable(text).Refused? <==> Refuses(Strip(text))
  {
    hide Strip, SplitLines, Keep, RowsOf, Refuses, IsRefusal;
    RefusalMarks(Strip(text));
    if Strip(text) == [] {
      NothingRefuses();
    }
  }

  lemma {:induction false} NothingRefuses()
    ensures !Refuses([])
  {
  }

  /** Its message is the first line, at most 200 characters of it. */
  lemma {:induction false} RefusalMessage(text: string, first: string, rest: string)
    requires Refuses(Strip(text)) && Strip(text) == first + rest
    requires Unbroken(first) && first != [] && (rest == [] || IsLineBreak(rest[0]))
    ensures ParsedTable(text) == Refused(if |first| <= 200 then first else first[..200])
  {
    hide Strip, Keep, RowsOf, IsRefusal, Refuses;
    RefusalMarks(Strip(text));
    LineOfUnbroken(first, rest);
    assert (first + rest)[..|first|] == first;
    assert SplitLines(first + rest)[0] == first;
  }

  /** Every line break ends a line, a carriage return with its line feed only one. */
  lemma {:induction false} LinesByBreaks(line: string, c: char, rest: string)
    requires Unbroken(line) && IsLineBreak(c)
    ensures !(c == '\r' && rest != [] && rest[0] == '\n') ==>
              SplitLines(line + [c] + rest) == [line] + SplitLines(rest)
    ensures SplitLines(line + "\r\n" + rest) == [line] + SplitLines(rest)
  {
    var one, two := line + [c] + rest, line + "\r\n" + rest;
    assert one == line + ([c] + rest) && two == line + ("\r\n" + rest);
    LineOfUnbroken(line, [c] + rest);
    LineOfUnbroken(line, "\r\n" + rest);
    assert one[..|line|] == line && one[|line| + 1..] == rest;
    assert two[..|line|] == line && two[|line| + 2..] == rest;
  }

  /** A line is dropped exactly if it is blank or a status line, in any case; else stripped. */
  lemma {:induction false} LineKeptIff(line: string)
    ensures Keep([line])
            == if Strip(line) == [] || exists mark, rest :: Strip(line) == mark + rest && Lower(mark) == "+ok"
               then [] else [Strip(line)]
  {
    StartsWithMark(Strip(line), "+ok");
    hide Lower, StartsWith, Strip;
    assert [line][1..] == [];
  }

  // ---- Printing a table ----

  /** A cell may have blanks around its text. */
  predicate CellOk(c: string) {
    '|' !in c && forall i | 0 <= i < |c| :: !IsLineBreak(c[i])
  }

  /** A printable line of cells: some text, not taken for a status. */
  predicate LineOk(cells: seq<string>) {
    cells != [] && (forall i | 0 <= i < |cells| :: CellOk(cells[i]))
    && Join(cells, '|') != [] && Trimmed(Join(cells, '|')) && !IsOk(Join(cells, '|'))
  }

  function Lines(rows: seq<seq<string>>): seq<string> {
    seq(|rows|, i requires 0 <= i < |rows| => Join(rows[i], '|'))
  }

  /** The header line, the rows, and the closing status line. */
  function Print(header: seq<string>, rows: seq<seq<string>>): string {
    Join([Join(header, '|')] + Lines(rows) + ["+OK"], '\n')
  }

  predicate Unbroken(s: string) {
    forall i | 0 <= i < |s| :: !IsLineBreak(s[i])
  }

  lemma {:induction false} LineOfUnbroken(s: string, rest: string)
    requires Unbroken(s) && (rest == [] || IsLineBreak(rest[0]))
    ensures LineLength(s + rest) == |s|
  {
    if s == [] {
      assert s + rest == rest;
    } else {
      assert (s + rest)[1..] == s[1..] + rest;
      LineOfUnbroken(s[1..], rest);
    }
  }

  lemma {:induction false} SplitLinesCons(line: string, rest: string)
    requires Unbroken(line)
    ensures SplitLines(line + ['\n'] + rest) == [line] + SplitLines(rest)
  {
    var text := line + ['\n'] + rest;
    assert text == line + (['\n'] + rest);
    LineOfUnbroken(line, ['\n'] + rest);
    assert text[..|line|] == line && text[|line| + 1..] == rest;
  }

  /** Lines joined by line feeds split into themselves. */
  lemma {:induction false} SplitLinesJoin(lines: seq<string>)
    requires lines != [] && forall i | 0 <= i < |lines| :: Unbroken(lines[i])
    requires lines[|lines| - 1] != []
    ensures SplitLines(Join(lines, '\n')) == lines
  {
    if |lines| == 1 {
      LineOfUnbroken(lines[0], []);
      assert lines[0] + [] == lines[0];
    } else {
      hide SplitLines, Unbroken;
      SplitLinesJoin(lines[1..]);
      SplitLinesCons(lines[0], Join(lines[1..], '\n'));
    }
  }

  lemma {:induction false} JoinedCells(cells: seq<string>)
    requires cells != [] && forall i | 0 <= i < |cells| :: CellOk(cells[i])
    ensures Unbroken(Join(cells, '|')) && Split(Join(cells, '|'), '|') == cells
  {
    SplitJoin(cells, '|');
    JoinedCellsUnbroken(cells);
  }

  lemma {:induction false} JoinedCellsUnbroken(cells: seq<string>)
    requires cells != [] && forall i | 0 <= i < |cells| :: CellOk(cells[i])
    ensures Unbroken(Join(cells, '|'))
  {
    if |cells| > 1 {
      JoinedCellsUnbroken(cells[1..]);
    }
  }

  lemma {:induction false} KeepConcat(a: seq<string>, b: seq<string>)
    ensures Keep(a + b) == Keep(a) + Keep(b)
  {
    if a == [] {
      assert a + b == b;
    } else {
      assert (a + b)[1..] == a[1..] + b;
      KeepConcat(a[1..], b);
    }
  }

  lemma {:induction false} KeepAll(lines: seq<string>)
    requires forall i | 0 <= i < |lines| :: Trimmed(lines[i]) && lines[i] != [] && !IsOk(lines[i])
    ensures Keep(lines) == lines
  {
    hide IsOk;
    if lines != [] {
      StripTrimmed(lines[0]);
      KeepAll(lines[1..]);
    }
  }

  lemma {:induction false} KeepDropsOk()
    ensures Keep(["+OK"]) == []
  {
    StripTrimmed("+OK");
    assert Lower("+OK") == "+ok";
  }

  function RowMaps(header: seq<string>, rows: seq<seq<string>>): seq<Row> {
    if rows == [] then []
    else
      var n := |rows| - 1;
      RowMaps(header, rows[..n]) + if |rows[n]| < |header| then [] else [RowMap(header, rows[n])]
  }

  lemma {:induction false} RowsOfLines(header: seq<string>, rows: seq<seq<string>>)
    requires forall i | 0 <= i < |rows| :: LineOk(rows[i])
    ensures RowsOf(header, Lines(rows)) == RowMaps(header, rows)
  {
    hide RowMap, Split;
    if rows != [] {
      var n := |rows| - 1;
      RowsOfLines(header, rows[..n]);
      assert Lines(rows)[..n] == Lines(rows[..n]);
      JoinedCells(rows[n]);
    }
  }

  predicate PrintableTable(header: seq<string>, rows: seq<seq<string>>) {
    LineOk(header) && !IsRefusal(Join(header, '|')) && forall i | 0 <= i < |rows| :: LineOk(rows[i])
  }

  function AllLines(header: seq<string>, rows: seq<seq<string>>): seq<string> {
    [Join(header, '|')] + Lines(rows) + ["+OK"]
  }

  lemma {:induction false} PrintedLinesSplit(header: seq<string>, rows: seq<seq<string>>)
    requires PrintableTable(header, rows)
    ensures SplitLines(Print(header, rows)) == AllLines(header, rows)
  {
    hide IsOk, CellOk, IsRefusal, SplitLines, Join;
    var lines := AllLines(header, rows);
    forall i | 0 <= i < |lines| ensures Unbroken(lines[i]) {
      if i == 0 {
        JoinedCells(header);
      } else if i < |lines| - 1 {
        JoinedCells(rows[i - 1]);
      }
    }
    SplitLinesJoin(lines);
  }

  lemma {:induction false} PrintedTextIsWhole(header: seq<string>, rows: seq<seq<string>>)
    requires PrintableTable(header, rows)
    ensures var text := Print(header, rows);
            Strip(text) == text && text != [] && !IsRefusal(text)
  {
    hide IsOk, CellOk, IsRefusal, SplitLines, Strip, Lines;
    var lines := AllLines(header, rows);
    var text := Print(header, rows);
    var rest := ['\n'] + Join(lines[1..], '\n');
    assert text == lines[0] + rest;
    JoinedCells(header);
    LastLine(lines);
    StripTrimmed(text);
    RefusalIsInFirstLine(lines[0], rest);
  }

  lemma {:induction false} LastLine(lines: seq<string>)
    requires lines != [] && lines[|lines| - 1] == "+OK"
    ensures Join(lines, '\n') != [] && Join(lines, '\n')[|Join(lines, '\n')| - 1] == 'K'
  {
    if |lines| > 1 {
      LastLine(lines[1..]);
    }
  }

  /** No status prefix holds a line feed, so the first line alone decides. */
  lemma {:induction false} RefusalIsInFirstLine(first: string, rest: string)
    requires !IsRefusal(first) && rest != [] && rest[0] == '\n'
    ensures !IsRefusal(first + rest)
  {
    PrefixInFirstLine(first, rest, "-err");
    PrefixInFirstLine(first, rest, "-usage");
  }

  lemma {:induction false} PrefixInFirstLine(first: string, rest: string, prefix: string)
    requires rest != [] && rest[0] == '\n'
    ensures StartsWith(Lower(first + rest), prefix) ==> StartsWith(Lower(first), prefix) || '\n' in prefix
  {
    var l := Lower(first + rest);
    if StartsWith(l, prefix) {
      if |prefix| > |first| {
        assert prefix[|first|] == l[|first|] == '\n';
      } else {
        assert Lower(first)[..|prefix|] == l[..|prefix|];
      }
    }
  }

  /** Printing then parsing: every row at least as long as the header comes back as its
      row map under the stripped names, in order; shorter rows change nothing. */
  lemma {:induction false} TableRoundTrip(header: seq<string>, rows: seq<seq<string>>)
    requires PrintableTable(header, rows)
    ensures ParsedTable(Print(header, rows)) == Rows(RowMaps(StripAll(header), rows))
  {
    hide Print, Join, Split, SplitLines, IsRefusal, RowMap, IsOk, CellOk;
    PrintedLinesSplit(header, rows);
    PrintedTextIsWhole(header, rows);
    var lines := [Join(header, '|')] + Lines(rows);
    forall i | 0 <= i < |lines| ensures Trimmed(lines[i]) && lines[i] != [] && !IsOk(lines[i]) {
      if i == 0 { JoinedCells(header); } else { JoinedCells(rows[i - 1]); }
    }
    KeepAll(lines);
    KeepDropsOk();
    KeepConcat(lines, ["+OK"]);
    JoinedCells(header);
    assert lines + [] == lines && lines[1..] == Lines(rows);
    RowsOfLines(StripAll(header), rows);
  }

  lemma {:induction false} ShortRowHasNoMap(
    header: seq<string>, before: seq<seq<string>>, short: seq<string>, after: seq<seq<string>>)
    requires |short| < |header|
    ensures RowMaps(header, before + [short] + after) == RowMaps(header, before + after)
  {
    if after == [] {
      assert (before + [short] + after)[..|before|] == before && before + after == before;
    } else {
      var n := |after| - 1;
      ShortRowHasNoMap(header, before, short, after[..n]);
      assert (before + [short] + after)[..|before| + 1 + n] == before + [short] + after[..n];
      assert (before + after)[..|before| + n] == before + after[..n];
    }
  }

  /** A listing with a row shorter than its header parses as without that row. */
  lemma {:induction false} ShortRowIsIgnored(
    header: seq<string>, before: seq<seq<string>>, short: seq<string>, after: seq<seq<string>>)
    requires |short| < |header| && PrintableTable(header, before + [short] + after)
    ensures ParsedTable(Print(header, before + [short] + after)) == ParsedTable(Print(header, before + after))
  {
    hide ParsedTable, Print, LineOk, IsRefusal, RowMaps;
    var all, rest := before + [short] + after, before + after;
    forall i | 0 <= i < |rest| ensures LineOk(rest[i]) {
      assert rest[i] == if i < |before| then all[i] else all[i + 1];
    }
    TableRoundTrip(header, all);
    TableRoundTrip(header, rest);
    ShortRowHasNoMap(StripAll(header), before, short, after);
  }

  // ---- Column order ----

  /** No two columns share a name; unnamed columns may repeat. */
  predicate Distinct(names: seq<string>) {
    forall i, j | 0 <= i < j < |names| :: names[i] != names[j] || names[i] == []
  }

  /** A named column's value is found under its name, the last one's if names repeat ... */
  lemma {:induction false} RowValue(header: seq<string>, values: seq<string>, i: nat)
    requires |header| <= |values| && i < |header| && header[i] != []
    requires forall j | i < j < |header| :: header[j] != header[i]
    ensures header[i] in RowMap(header, values) && RowMap(header, values)[header[i]] == Strip(values[i])
  {
    hide Strip;
    var n := |header| - 1;
    if i < n {
      RowValue(header[..n], values, i);
    }
  }

  /** ... and nothing else is. */
  lemma {:induction false} RowKey(header: seq<string>, values: seq<string>, k: string) returns (i: nat)
    requires |header| <= |values| && k in RowMap(header, values)
    ensures k != [] && i < |header| && header[i] == k
  {
    hide Strip;
    var n := |header| - 1;
    if header[n] != [] && header[n] == k {
      i := n;
    } else {
      i := RowKey(header[..n], values, k);
    }
  }

  /** `p` rearranges positions and `q` puts them back. */
  predicate Rearranges(p: seq<nat>, q: seq<nat>, n: nat) {
    |p| == n && |q| == n
    && (forall i | 0 <= i < n :: p[i] < n && q[i] < n)
    && forall i | 0 <= i < n :: p[q[i]] == i && q[p[i]] == i
  }

  function Rearranged(cells: seq<string>, p: seq<nat>): seq<string>
    requires forall i | 0 <= i < |p| :: p[i] < |cells|
  {
    seq(|p|, i requires 0 <= i < |p| => cells[p[i]])
  }

  /** The same move for a row: its named columns change places, cells beyond the header
      stay where they are, and so does a row too short to be read. */
  function MovedRow(cells: seq<string>, p: seq<nat>): seq<string>
    requires forall i | 0 <= i < |p| :: p[i] < |p|
  {
    if |cells| < |p| then cells else Rearranged(cells, p) + cells[|p|..]
  }

  /** A row means the same whatever the order of its columns. */
  lemma {:induction false} ColumnOrderIsInvisible(header: seq<string>, values: seq<string>, p: seq<nat>, q: seq<nat>)
    requires |header| <= |values| && Distinct(header) && Rearranges(p, q, |header|)
    ensures |header| <= |MovedRow(values, p)|
    ensures RowMap(Rearranged(header, p), MovedRow(values, p)) == RowMap(header, values)
  {
    hide Strip, RowMap;
    var h', v' := Rearranged(header, p), MovedRow(values, p);
    assert Distinct(h') by {
      forall i, j | 0 <= i < j < |h'| ensures h'[i] != h'[j] || h'[i] == [] {
        assert p[i] != p[j];
      }
    }
    var m, m' := RowMap(header, values), RowMap(h', v');
    forall k | k in m ensures k in m' && m'[k] == m[k] {
      var i := RowKey(header, values, k);
      RowValue(header, values, i);
      RowValue(h', v', q[i]);
    }
    forall k | k in m' ensures k in m {
      var i := RowKey(h', v', k);
      RowValue(header, values, p[i]);
    }
  }

  function MovedRows(rows: seq<seq<string>>, p: seq<nat>): seq<seq<string>>
    requires forall i | 0 <= i < |p| :: p[i] < |p|
  {
    seq(|rows|, i requires 0 <= i < |rows| => MovedRow(rows[i], p))
  }

  lemma {:induction false} RowMapsIgnoreOrder(header: seq<string>, rows: seq<seq<string>>, p: seq<nat>, q: seq<nat>)
    requires Distinct(header) && Rearranges(p, q, |header|)
    ensures RowMaps(Rearranged(header, p), MovedRows(rows, p)) == RowMaps(header, rows)
  {
    hide RowMap;
    if rows != [] {
      var n := |rows| - 1;
      RowMapsIgnoreOrder(header, rows[..n], p, q);
      assert MovedRows(rows, p)[..n] == MovedRows(rows[..n], p);
      if |header| <= |rows[n]| {
        ColumnOrderIsInvisible(header, rows[n], p, q);
      }
    }
  }

  /** Column-order independence of the parsed table, and so of every typed list built from
      it: any simultaneous rearrangement of header and cells parses the same, with rows of
      any length. */
  lemma {:induction false} TableIgnoresColumnOrder(
    header: seq<string>, rows: seq<seq<string>>, p: seq<nat>, q: seq<nat>)
    requires Distinct(StripAll(header)) && Rearranges(p, q, |header|)
    requires PrintableTable(header, rows) && PrintableTable(Rearranged(header, p), MovedRows(rows, p))
    ensures ParsedTable(Print(Rearranged(header, p), MovedRows(rows, p))) == ParsedTable(Print(header, rows))
  {
    hide ParsedTable, Print, PrintableTable;
    TableRoundTrip(header, rows);
    TableRoundTrip(Rearranged(header, p), MovedRows(rows, p));
    RowMapsIgnoreOrder(StripAll(header), rows, p, q);
    assert StripAll(Rearranged(header, p)) == Rearranged(StripAll(header), p);
  }

  // ---- Typed rows ----

  /** Digits, with single underscores allowed between them. */
  predicate IsNumeral(s: string) {
    s != [] && IsDigit(s[0]) && IsDigit(s[|s| - 1])
    && forall i | 0 <= i < |s| :: IsDigit(s[i]) || (s[i] == '_' && i + 1 < |s| && IsDigit(s[i + 1]))
  }

  function DropUnderscores(s: string): string {
    if s == [] then [] else (if s[0] == '_' then [] else [s[0]]) + DropUnderscores(s[1..])
  }

  lemma {:induction false} DroppedIsDigits(s: string)
    requires forall i | 0 <= i < |s| :: IsDigit(s[i]) || s[i] == '_'
    ensures Decimal.OnlyDigits(DropUnderscores(s))
  {
    if s != [] {
      DroppedIsDigits(s[1..]);
    }
  }

  /** The integer a stripped text spells, or the default. */
  function IntOrDefault(value: string, default: int): int {
    var s := Strip(value);
    var signed := s != [] && s[0] in {'+', '-'};
    var digits := if signed then s[1..] else s;
    if !IsNumeral(digits) then default
    else
      DroppedIsDigits(digits);
      var n: int := Decimal.Value(DropUnderscores(digits));
      if signed && s[0] == '-' then -n else n
  }

  function PrintInt(n: int): string {
    if n < 0 then "-" + Decimal.Digits(-n) else Decimal.Digits(n)
  }

  lemma {:induction false} NothingDropped(s: string)
    requires Decimal.OnlyDigits(s)
    ensures DropUnderscores(s) == s
  {
    if s != [] {
      NothingDropped(s[1..]);
    }
  }

  lemma {:induction false} DigitsAreNumeral(d: string)
    requires Decimal.AllDigits(d)
    ensures IsNumeral(d) && DropUnderscores(d) == d && Trimmed(d) && d[0] !in {'+', '-'}
  {
    NothingDropped(d);
  }

  /** Every printed integer reads back. */
  lemma {:induction false} IntRoundTrip(n: int, default: int)
    ensures IntOrDefault(PrintInt(n), default) == n
  {
    hide Decimal.Digits, Decimal.Value, Strip, DropUnderscores, IsNumeral;
    var a: nat := if n < 0 then -n else n;
    var d := Decimal.Digits(a);
    Decimal.ValueOfDigits(a);
    DigitsAreNumeral(d);
    var s := PrintInt(n);
    assert n < 0 ==> s[1..] == d && s[|s| - 1] == d[|d| - 1];
    StripTrimmed(s);
  }

  function Flat(groups: seq<string>): string {
    if groups == [] then [] else groups[0] + Flat(groups[1..])
  }

  predicate DigitGroups(groups: seq<string>) {
    groups != [] && forall i | 0 <= i < |groups| :: Decimal.AllDigits(groups[i])
  }

  lemma {:induction false} DropConcat(a: string, b: string)
    ensures DropUnderscores(a + b) == DropUnderscores(a) + DropUnderscores(b)
  {
    if a == [] {
      assert a + b == b;
    } else {
      var head := if a[0] == '_' then [] else [a[0]];
      assert (a + b)[1..] == a[1..] + b && (a + b)[0] == a[0];
      DropConcat(a[1..], b);
      assert DropUnderscores(a + b) == head + DropUnderscores(a[1..] + b);
    }
  }

  lemma {:induction false} NumeralConcat(digits: string, rest: string)
    requires Decimal.AllDigits(digits) && IsNumeral(rest)
    ensures IsNumeral(digits + ['_'] + rest)
  {
    var all := digits + ['_'] + rest;
    assert all[|all| - 1] == rest[|rest| - 1] && all[|digits| + 1] == rest[0];
    forall i | 0 <= i < |all|
      ensures IsDigit(all[i]) || (all[i] == '_' && i + 1 < |all| && IsDigit(all[i + 1]))
    {
      if i > |digits| {
        assert all[i] == rest[i - |digits| - 1];
        assert i + 1 < |all| ==> all[i + 1] == rest[i - |digits|];
      }
    }
  }

  lemma {:induction false} DropGroups(digits: string, rest: string)
    requires Decimal.AllDigits(digits)
    ensures DropUnderscores(digits + ['_'] + rest) == digits + DropUnderscores(rest)
  {
    DropConcat(digits + ['_'], rest);
    DropConcat(digits, ['_']);
    NothingDropped(digits);
    assert ['_'][1..] == [];
    assert DropUnderscores(['_']) == [] + DropUnderscores([]);
    assert digits + [] == digits;
  }

  lemma {:induction false} FlatIsDigits(groups: seq<string>)
    requires forall i | 0 <= i < |groups| :: Decimal.AllDigits(groups[i])
    ensures Decimal.OnlyDigits(Flat(groups))
  {
    if groups != [] {
      FlatIsDigits(groups[1..]);
    }
  }

  lemma {:induction false} GroupsAreNumeral(groups: seq<string>)
    requires DigitGroups(groups)
    ensures IsNumeral(Join(groups, '_')) && DropUnderscores(Join(groups, '_')) == Flat(groups)
    ensures Decimal.OnlyDigits(Flat(groups))
  {
    FlatIsDigits(groups);
    DigitsAreNumeral(groups[0]);
    hide IsNumeral, DropUnderscores, Decimal.AllDigits, Decimal.OnlyDigits;
    if |groups| == 1 {
      assert Flat(groups) == groups[0] + [] == groups[0];
    } else {
      var rest := Join(groups[1..], '_');
      GroupsAreNumeral(groups[1..]);
      NumeralConcat(groups[0], rest);
      DropGroups(groups[0], rest);
    }
  }

  lemma {:induction false} DigitsUpTo(s: string, n: nat)
    requires IsNumeral(s) && n <= |s| && (IndexOf(s, '_') < 0 || n == IndexOf(s, '_'))
    ensures Decimal.OnlyDigits(s[..n])
  {
    forall k | 0 <= k < n ensures IsDigit(s[k]) {
      if s[k] == '_' {
        IndexOfIsFirst(s, '_', k);
      }
    }
  }

  lemma {:induction false} NumeralTail(s: string, i: nat)
    requires IsNumeral(s) && i < |s| && s[i] == '_'
    ensures 0 < i && IsNumeral(s[i + 1..])
  {
    var tail := s[i + 1..];
    assert tail[|tail| - 1] == s[|s| - 1];
    assert forall k | 0 <= k < |tail| :: tail[k] == s[i + 1 + k];
  }

  lemma {:induction false} NumeralIsGroups(s: string) returns (groups: seq<string>)
    requires IsNumeral(s)
    ensures DigitGroups(groups) && s == Join(groups, '_')
    decreases |s|
  {
    var i := IndexOf(s, '_');
    if i < 0 {
      DigitsUpTo(s, |s|);
      assert s[..|s|] == s;
      groups := [s];
    } else {
      DigitsUpTo(s, i);
      NumeralTail(s, i);
      hide IsNumeral, IndexOf;
      var rest := NumeralIsGroups(s[i + 1..]);
      groups := [s[..i]] + rest;
      assert groups[1..] == rest && s == s[..i] + ['_'] + s[i + 1..];
    }
  }

  predicate IsSign(sign: string) {
    sign == "" || sign == "+" || sign == "-"
  }

  /** A number reads: an optional sign and groups of digits joined by underscores, with any
      blanks around it. */
  lemma {:induction false} NumbersRead(before: string, sign: string, groups: seq<string>, after: string, default: int)
    requires HeaderBlock.Blank(before) && HeaderBlock.Blank(after) && IsSign(sign) && DigitGroups(groups)
    ensures Decimal.OnlyDigits(Flat(groups))
    ensures IntOrDefault(before + sign + Join(groups, '_') + after, default)
            == var n: int := Decimal.Value(Flat(groups));
               if sign == "-" then -n else n
  {
    GroupsAreNumeral(groups);
    var digits := Join(groups, '_');
    hide Join, Flat, DropUnderscores, Decimal.Value;
    PaddedNumber(before, sign, digits, after);
    hide Strip;
    assert sign != "" ==> (sign + digits)[1..] == digits;
    assert sign == "" ==> sign + digits == digits;
  }

  lemma {:induction false} PaddedNumber(before: string, sign: string, digits: string, after: string)
    requires HeaderBlock.Blank(before) && HeaderBlock.Blank(after) && IsSign(sign) && IsNumeral(digits)
    ensures Strip(before + sign + digits + after) == sign + digits
  {
    var text := sign + digits;
    assert text != [] && Trimmed(text) by {
      assert text[|text| - 1] == digits[|digits| - 1];
    }
    HeaderBlock.StripPadded(before, text, after);
    assert before + text + after == before + sign + digits + after;
  }

  /** Anything else gives the default. */
  lemma {:induction false} OthersDefault(value: string, default: int)
    requires !exists sign, groups :: IsSign(sign) && DigitGroups(groups) && Strip(value) == sign + Join(groups, '_')
    ensures IntOrDefault(value, default) == default
  {
    var s := Strip(value);
    var signed := s != [] && s[0] in {'+', '-'};
    var digits := if signed then s[1..] else s;
    if IsNumeral(digits) {
      var groups := NumeralIsGroups(digits);
      var sign := if signed then s[..1] else "";
      assert s == sign + Join(groups, '_');
      assert IsSign(sign);
    }
  }

  datatype Agent = Agent(
    name: string, status: AgentStatus, state: AgentState, contact: string, kind: string, uuid: string, raw: Row)

  datatype Tier = Tier(queue: string, agent: string, state: TierState, level: int, position: int, raw: Row)

  function Get(row: Row, name: string): string {
    if name in row then row[name] else ""
  }

  function AgentOf(row: Row): Agent {
    Agent(Get(row, "name"), StatusFromText(Get(row, "status")), StateFromText(Get(row, "state")),
          Get(row, "contact"), Get(row, "type"), Get(row, "uuid"), row)
  }

  function TierOf(row: Row): Tier {
    Tier(Get(row, "queue"), Get(row, "agent"), TierFromText(Get(row, "state")),
         IntOrDefault(Get(row, "level"), 1), IntOrDefault(Get(row, "position"), 1), row)
  }

  function AgentsOf(rows: seq<Row>): seq<Agent> {
    if rows == [] then []
    else
      var n := |rows| - 1;
      AgentsOf(rows[..n]) + if Get(rows[n], "name") == [] then [] else [AgentOf(rows[n])]
  }

  function TiersOf(rows: seq<Row>): seq<Tier> {
    if rows == [] then []
    else
      var n := |rows| - 1;
      TiersOf(rows[..n])
      + if Get(rows[n], "queue") == [] || Get(rows[n], "agent") == [] then [] else [TierOf(rows[n])]
  }

  predicate ColumnIs(header: seq<string>, i: nat, name: string) {
    i < |header| && header[i] == name
  }

  /** Each typed field is read from the column of its name, wherever that column stands. */
  lemma {:induction false} AgentByColumn(header: seq<string>, values: seq<string>, i: nat)
    requires |header| <= |values| && Distinct(header) && i < |header|
    ensures var a, cell := AgentOf(RowMap(header, values)), Strip(values[i]);
            && (ColumnIs(header, i, "name") ==> a.name == cell)
            && (ColumnIs(header, i, "status") ==> a.status == StatusFromText(cell))
            && (ColumnIs(header, i, "state") ==> a.state == StateFromText(cell))
            && (ColumnIs(header, i, "contact") ==> a.contact == cell)
            && (ColumnIs(header, i, "type") ==> a.kind == cell)
            && (ColumnIs(header, i, "uuid") ==> a.uuid == cell)
  {
    hide RowMap, Strip, StatusFromText, StateFromText;
    if header[i] != [] {
      RowValue(header, values, i);
    }
  }

  lemma {:induction false} TierByColumn(header: seq<string>, values: seq<string>, i: nat)
    requires |header| <= |values| && Distinct(header) && i < |header|
    ensures var t, cell := TierOf(RowMap(header, values)), Strip(values[i]);
            && (ColumnIs(header, i, "queue") ==> t.queue == cell)
            && (ColumnIs(header, i, "agent") ==> t.agent == cell)
            && (ColumnIs(header, i, "state") ==> t.state == TierFromText(cell))
            && (ColumnIs(header, i, "level") ==> t.level == IntOrDefault(cell, 1))
            && (ColumnIs(header, i, "position") ==> t.position == IntOrDefault(cell, 1))
  {
    hide RowMap, Strip, TierFromText, IntOrDefault;
    if header[i] != [] {
      RowValue(header, values, i);
    }
  }

  /** Columns a listing lacks leave a field empty, unknown, or at one. */
  lemma {:induction false} MissingColumns(row: Row)
    ensures var a, t := AgentOf(row), TierOf(row);
            && ("name" !in row ==> a.name == "") && ("status" !in row ==> a.status == StatusUnknown)
            && ("state" !in row ==> a.state == StateUnknown && t.state == TierUnknown)
            && ("contact" !in row ==> a.contact == "") && ("type" !in row ==> a.kind == "")
            && ("uuid" !in row ==> a.uuid == "") && ("queue" !in row ==> t.queue == "")
            && ("agent" !in row ==> t.agent == "") && ("level" !in row ==> t.level == 1)
            && ("position" !in row ==> t.position == 1) && a.raw == row && t.raw == row
  {
    assert Strip("") == "" && Lower("") == "";
  }

  /** Rows are typed one by one, in order; those without a name, or without a queue or an
      agent, drop out. */
  lemma {:induction false} RowsTypedOneByOne(a: seq<Row>, b: seq<Row>, row: Row)
    ensures AgentsOf(a + b) == AgentsOf(a) + AgentsOf(b) && TiersOf(a + b) == TiersOf(a) + TiersOf(b)
    ensures AgentsOf([row]) == if "name" in row && row["name"] != "" then [AgentOf(row)] else []
    ensures TiersOf([row])
            == if "queue" in row && row["queue"] != "" && "agent" in row && row["agent"] != ""
               then [TierOf(row)] else []
  {
    hide AgentOf, TierOf;
    assert [row][..0] == [];
    AgentsConcat(a, b);
    TiersConcat(a, b);
  }

  lemma {:induction false} AgentsConcat(a: seq<Row>, b: seq<Row>)
    ensures AgentsOf(a + b) == AgentsOf(a) + AgentsOf(b)
  {
    hide AgentOf, Get;
    if b == [] {
      assert a + b == a;
    } else {
      var n := |b| - 1;
      AgentsConcat(a, b[..n]);
      assert (a + b)[..|a + b| - 1] == a + b[..n];
    }
  }

  lemma {:induction false} TiersConcat(a: seq<Row>, b: seq<Row>)
    ensures TiersOf(a + b) == TiersOf(a) + TiersOf(b)
  {
    hide TierOf, Get;
    if b == [] {
      assert a + b == a;
    } else {
      var n := |b| - 1;
      TiersConcat(a, b[..n]);
      assert (a + b)[..|a + b| - 1] == a + b[..n];
    }
  }

  /** None for a refused listing: an empty list always means no agents. */
  function AgentsIn(text: string): Option<seq<Agent>> {
    match ParsedTable(text)
    case Refused(_) => None
    case Rows(rows) => Some(AgentsOf(rows))
  }

  function TiersIn(text: string): Option<seq<Tier>> {
    match ParsedTable(text)
    case Refused(_) => None
    case Rows(rows) => Some(TiersOf(rows))
  }

  /** The typed agents and tiers of a listing do not depend on its column order. */
  lemma {:induction false} TypedListsIgnoreColumnOrder(
    header: seq<string>, rows: seq<seq<string>>, p: seq<nat>, q: seq<nat>)
    requires Distinct(StripAll(header)) && Rearranges(p, q, |header|)
    requires PrintableTable(header, rows) && PrintableTable(Rearranged(header, p), MovedRows(rows, p))
    ensures var text, moved := Print(header, rows), Print(Rearranged(header, p), MovedRows(rows, p));
            AgentsIn(moved) == AgentsIn(text) && TiersIn(moved) == TiersIn(text)
  {
    hide ParsedTable, Print, PrintableTable;
    TableIgnoresColumnOrder(header, rows, p, q);
  }

  method ParseAgentList(text: string) returns (r: Option<seq<Agent>>)
    ensures r == AgentsIn(text)
  {
    hide ParsedTable, AgentOf;
    var table := ParseCallcenterTable(text);
    if table.Refused? {
      return None;
    }
    var agents: seq<Agent> := [];
    var rows := table.rows;
    for i := 0 to |rows|
      invariant agents == AgentsOf(rows[..i])
    {
      assert rows[..i + 1][..i] == rows[..i];
      var name := Get(rows[i], "name");
      if name == "" {
        continue;
      }
      agents := agents + [AgentOf(rows[i])];
    }
    assert rows[..|rows|] == rows;
    return Some(agents);
  }

  method ParseTierList(text: string) returns (r: Option<seq<Tier>>)
    ensures r == TiersIn(text)
  {
    hide ParsedTable, TierOf;
    var table := ParseCallcenterTable(text);
    if table.Refused? {
      return None;
    }
    var tiers: seq<Tier> := [];
    var rows := table.rows;
    for i := 0 to |rows|
      invariant tiers == TiersOf(rows[..i])
    {
      assert rows[..i + 1][..i] == rows[..i];
      if Get(rows[i], "queue") == "" || Get(rows[i], "agent") == "" {
        continue;
      }
      tiers := tiers + [TierOf(rows[i])];
    }
    assert rows[..|rows|] == rows;
    return Some(tiers);
  }
}
