/** The board's list pipeline and CSV export (client/src/hooks/useDraftBoard.ts). */
module UseDraftBoard {
  import opened Wrappers
  import opened DraftBoardTypes
  import Text
  import Seqs
  import Schema
  import Storage

  // ---------------------------------------------------------------- filter and sort

  function ByName(a: Player, b: Player): bool { Text.LexLe(a.name, b.name) }
  function ByPosition(a: Player, b: Player): bool { Text.LexLe(a.position, b.position) }
  function BySchool(a: Player, b: Player): bool { Text.LexLe(a.school, b.school) }
  /** `(a, b) => b.grade - a.grade`: higher grades first. */
  function ByGradeDescending(a: Player, b: Player): bool { b.grade <= a.grade }
  function ByTier(a: Player, b: Player): bool { a.tier <= b.tier }

  /** The comparator each sort field selects. */
  function Comparator(field: SortField): (Player, Player) -> bool
  {
    match field
      case Rank => ByOrder
      case Name => ByName
      case Position => ByPosition
      case School => BySchool
      case Grade => ByGradeDescending
      case Tier => ByTier
  }

  /** Text comparisons on a player field are total preorders. */
  lemma TextFieldOrder(f: Player -> string, le: (Player, Player) -> bool)
    requires forall a, b :: le(a, b) == Text.LexLe(f(a), f(b))
    ensures Seqs.TotalPreorder(le)
  {
    forall a, b ensures le(a, b) || le(b, a) {
      Text.LexLeTotal(f(a), f(b));
    }
    forall a, b, c | le(a, b) && le(b, c) ensures le(a, c) {
      Text.LexLeTransitive(f(a), f(b), f(c));
    }
  }

  /** Every comparator the board uses orders consistently. */
  lemma ComparatorIsTotalPreorder(field: SortField)
    ensures Seqs.TotalPreorder(Comparator(field))
  {
    match field
      case Rank =>
      case Name => TextFieldOrder((p: Player) => p.name, ByName);
      case Position => TextFieldOrder((p: Player) => p.position, ByPosition);
      case School => TextFieldOrder((p: Player) => p.school, BySchool);
      case Grade =>
      case Tier =>
  }

  /** Whether a player passes the board's three filters: position ("all" keeps
      everyone), tier ("all" keeps everyone, otherwise the tier must equal the
      parsed text, and text that does not parse keeps no one) and search. */
  predicate PassesFilters(filter: FilterOptions, p: Player)
  {
    && (filter.position == "all" || p.position == filter.position)
    && (filter.tier == "all" || Text.ParseInt(filter.tier) == Some(p.tier))
    && MatchesSearch(p, filter.search)
  }

  /** `PassesFilters` as a function value. */
  function Listed(filter: FilterOptions): Player -> bool
  {
    (p: Player) => PassesFilters(filter, p)
  }

  /** The position step ("all" keeps everyone). */
  function PositionStep(filter: FilterOptions): Player -> bool
  {
    (p: Player) => filter.position == "all" || p.position == filter.position
  }

  /** The tier step ("all" keeps everyone). */
  function TierStep(filter: FilterOptions): Player -> bool
  {
    (p: Player) => filter.tier == "all" || Text.ParseInt(filter.tier) == Some(p.tier)
  }

  /** The search step (an empty search keeps everyone). */
  function SearchStep(filter: FilterOptions): Player -> bool
  {
    (p: Player) => MatchesSearch(p, filter.search)
  }

  /** Whether the sort is reversed after it is made. */
  predicate Reversed(sort: SortOption)
  {
    sort.direction == Desc && sort.field != Grade
  }

  /** The players the board lists: the players passing the filters, in the
      order of the chosen field; descending reverses it, except for grade,
      whose comparator already puts the highest grade first. The sort is
      stable, so players the field ranks level keep the order the data has
      them in, or the reverse of it when the list is reversed. */
  method FilteredAndSorted(data: Option<seq<Player>>, filter: FilterOptions, sort: SortOption) returns (result: seq<Player>)
    ensures data.None? ==> result == []
    ensures data.Some? ==> forall p :: multiset(result)[p] == if PassesFilters(filter, p) then multiset(data.value)[p] else 0
    ensures !Reversed(sort) ==> Seqs.SortedBy(result, Comparator(sort.field))
    ensures Reversed(sort) ==>
      forall i, j :: 0 <= i < j < |result| ==> Comparator(sort.field)(result[j], result[i])
    ensures data.Some? && !Reversed(sort) ==> forall a ::
      Seqs.Filter(result, Seqs.Tied(Comparator(sort.field), a)) == Seqs.Filter(Seqs.Filter(data.value, Listed(filter)), Seqs.Tied(Comparator(sort.field), a))
    ensures data.Some? && Reversed(sort) ==> forall a ::
      Seqs.Filter(result, Seqs.Tied(Comparator(sort.field), a)) == Seqs.Reverse(Seqs.Filter(Seqs.Filter(data.value, Listed(filter)), Seqs.Tied(Comparator(sort.field), a)))
  {
    if data.None? {
      return [];
    }
    result := ApplyFilters(data.value, filter);
    result := ApplySort(result, sort);
  }

  /** The filter steps: each one that is switched on keeps only the players
      passing it. Together they are one filter by `PassesFilters`, which
      keeps the players in the order they came. */
  method ApplyFilters(players: seq<Player>, filter: FilterOptions) returns (result: seq<Player>)
    ensures result == Seqs.Filter(players, Listed(filter))
    ensures forall p :: multiset(result)[p] == if PassesFilters(filter, p) then multiset(players)[p] else 0
  {
    result := players;
    if filter.position != "all" {
      result := Seqs.Filter(result, PositionStep(filter));
    } else {
      Seqs.FilterKeepsAll(players, PositionStep(filter));
    }
    ghost var byPosition := result;
    if filter.tier != "all" {
      result := Seqs.Filter(result, TierStep(filter));
    } else {
      Seqs.FilterKeepsAll(result, TierStep(filter));
    }
    ghost var byTier := result;
    if filter.search != "" {
      result := Seqs.Filter(result, SearchStep(filter));
    } else {
      Seqs.FilterKeepsAll(result, SearchStep(filter));
    }
    assert result == Seqs.Filter(Seqs.Filter(Seqs.Filter(players, PositionStep(filter)), TierStep(filter)), SearchStep(filter));
    ThreeStepsAreOneFilter(players, filter);
    ListedCounts(players, filter);
  }

  /** How often the one filter keeps each player. */
  lemma ListedCounts(players: seq<Player>, filter: FilterOptions)
    ensures forall p :: multiset(Seqs.Filter(players, Listed(filter)))[p] == if PassesFilters(filter, p) then multiset(players)[p] else 0
  {
    forall p ensures multiset(Seqs.Filter(players, Listed(filter)))[p] == if PassesFilters(filter, p) then multiset(players)[p] else 0 {
      assert Listed(filter)(p) == PassesFilters(filter, p);
    }
  }

  /** The three steps in a row are the one filter by `PassesFilters`. */
  lemma ThreeStepsAreOneFilter(players: seq<Player>, filter: FilterOptions)
    ensures Seqs.Filter(Seqs.Filter(Seqs.Filter(players, PositionStep(filter)), TierStep(filter)), SearchStep(filter))
         == Seqs.Filter(players, Listed(filter))
  {
    var both := (p: Player) => PositionStep(filter)(p) && TierStep(filter)(p);
    Seqs.FilterTwice(players, PositionStep(filter), TierStep(filter), both);
    Seqs.FilterTwice(players, both, SearchStep(filter), Listed(filter));
  }

  /** The sort step, and the reversal for a descending order on any field but
      grade. Players the field ranks level keep their input order, reversed
      along with everything else when the list is reversed. */
  method ApplySort(players: seq<Player>, sort: SortOption) returns (result: seq<Player>)
    ensures multiset(result) == multiset(players)
    ensures !Reversed(sort) ==> Seqs.SortedBy(result, Comparator(sort.field))
    ensures Reversed(sort) ==>
      forall i, j :: 0 <= i < j < |result| ==> Comparator(sort.field)(result[j], result[i])
    ensures !Reversed(sort) ==> forall a ::
      Seqs.Filter(result, Seqs.Tied(Comparator(sort.field), a)) == Seqs.Filter(players, Seqs.Tied(Comparator(sort.field), a))
    ensures Reversed(sort) ==> forall a ::
      Seqs.Filter(result, Seqs.Tied(Comparator(sort.field), a)) == Seqs.Reverse(Seqs.Filter(players, Seqs.Tied(Comparator(sort.field), a)))
  {
    var le := Comparator(sort.field);
    ComparatorIsTotalPreorder(sort.field);
    result := Seqs.Sort(players, le);
    Seqs.SortSorted(players, le);
    forall a ensures Seqs.Filter(result, Seqs.Tied(le, a)) == Seqs.Filter(players, Seqs.Tied(le, a)) {
      Seqs.SortKeepsTies(players, le, a);
    }
    if Reversed(sort) {
      ghost var ascending := result;
      Seqs.ReverseMultiset(result);
      Seqs.ReverseSorted(result, le);
      result := Seqs.Reverse(result);
      forall a ensures Seqs.Filter(result, Seqs.Tied(le, a)) == Seqs.Reverse(Seqs.Filter(players, Seqs.Tied(le, a))) {
        Seqs.FilterReverse(ascending, Seqs.Tied(le, a));
      }
    }
  }

  // ---------------------------------------------------------------- CSV export

  const Headers: seq<string> := ["Rank", "Name", "Position", "School", "Grade", "Tier", "Notes"]

  /** `headers.join(',')`: the header line is not quoted. */
  function CsvHeader(): string
  {
    Text.Join(Headers, ",")
  }

  /** `s.replace(/"/g, '""')`. */
  function Escape(s: string): (r: string)
    ensures |r| >= |s|
  {
    if |s| == 0 then "" else (if s[0] == '"' then "\"\"" else [s[0]]) + Escape(s[1..])
  }

  /** Text without a double quote is left as it is. */
  lemma {:induction false} EscapeQuoteFree(s: string)
    requires '"' !in s
    ensures Escape(s) == s
  {
    if |s| > 0 {
      EscapeQuoteFree(s[1..]);
      assert s == [s[0]] + s[1..];
    }
  }

  /** `` cell => `"${cell}"` ``, applied to every cell of a row. */
  function QuoteAll(cells: seq<string>): (r: seq<string>)
    ensures |r| == |cells|
    ensures forall i :: 0 <= i < |cells| ==> r[i] == "\"" + cells[i] + "\""
  {
    seq(|cells|, i requires 0 <= i < |cells| => "\"" + cells[i] + "\"")
  }

  /** A row's cells as the export writes them: only the notes are escaped. */
  function SourceCells(p: Player): seq<string>
    requires p.notes.Some?
  {
    [Text.IntToString(p.order), p.name, p.position, p.school,
     Text.IntToString(p.grade), Text.IntToString(p.tier), Escape(p.notes.value)]
  }

  /** One line of the export: every cell quoted, cells separated by commas. */
  function SourceLine(p: Player): string
    requires p.notes.Some?
  {
    Text.Join(QuoteAll(SourceCells(p)), ",")
  }

  /** What `exportToCsv` ends in: no data and nothing happens, a player
      without notes makes `player.notes.replace` throw a TypeError before any
      file is made, or the file is downloaded with this text. */
  datatype ExportOutcome = NoData | Throws | Download(csv: string)

  /** `exportToCsv`: the header line, then one line per player in rank order,
      lines separated by a newline. Nothing happens without data, and the
      export fails exactly when some player has no notes, whoever it is and
      wherever it ranks. */
  function ExportToCsv(data: Option<seq<Player>>): (r: ExportOutcome)
    ensures r.NoData? <==> data.None?
    ensures data.Some? ==> (r.Throws? <==> exists p :: p in data.value && p.notes.None?)
  {
    match data
      case None => NoData
      case Some(players) =>
        var sorted := Seqs.Sort(players, ByOrder);
        NotesMissingInPermutation(players, sorted);
        if AllHaveNotes(sorted) then
          Download(Text.Join([CsvHeader()] + SourceLines(sorted), "\n"))
        else Throws
  }

  /** Every player has notes. */
  predicate AllHaveNotes(ps: seq<Player>)
  {
    forall i | 0 <= i < |ps| :: ps[i].notes.Some?
  }

  function SourceLines(ps: seq<Player>): (r: seq<string>)
    requires AllHaveNotes(ps)
    ensures |r| == |ps| && forall i :: 0 <= i < |ps| ==> r[i] == SourceLine(ps[i])
  {
    seq(|ps|, i requires 0 <= i < |ps| => SourceLine(ps[i]))
  }

  lemma NotesMissingInPermutation(a: seq<Player>, b: seq<Player>)
    requires multiset(a) == multiset(b)
    ensures !AllHaveNotes(b) <==> exists p :: p in a && p.notes.None?
  {
    if p :| p in a && p.notes.None? {
      assert p in multiset(b);
    }
    if i :| 0 <= i < |b| && b[i].notes.None? {
      assert b[i] in multiset(a);
    }
  }

  /** `Join([h] + ls, sep)` is `h` followed by `sep + l` for each line `l`. */
  function Prefixed(ls: seq<string>, sep: string): string
  {
    if |ls| == 0 then "" else sep + ls[0] + Prefixed(ls[1..], sep)
  }

  lemma {:induction false} JoinAfterHead(h: string, ls: seq<string>, sep: string)
    ensures Text.Join([h] + ls, sep) == h + Prefixed(ls, sep)
    decreases |ls|
  {
    if |ls| > 0 {
      JoinAfterHead(ls[0], ls[1..], sep);
      assert ([h] + ls)[1..] == [ls[0]] + ls[1..];
    }
  }

  // The reading side: a parser for the quoted cells of RFC 4180 (section 2,
  // rules 5 to 7), used to state what the export lets a reader recover.

  /** Reads the rest of a quoted cell, `s` starting after its opening quote:
      the cell's text with each doubled quote read as one, and what follows
      the closing quote. */
  function ReadQuoted(s: string): (r: Option<(string, string)>)
    ensures r.Some? ==> |r.value.1| < |s|
  {
    if |s| == 0 then None
    else if s[0] == '"' then
      if |s| > 1 && s[1] == '"' then
        match ReadQuoted(s[2..])
          case None => None
          case Some((c, rest)) => Some(("\"" + c, rest))
      else Some(("", s[1..]))
    else
      match ReadQuoted(s[1..])
        case None => None
        case Some((c, rest)) => Some(([s[0]] + c, rest))
  }

  /** Reads comma-separated quoted cells up to the first character that is not a comma after a cell. */
  function ParseFields(s: string): (r: Option<(seq<string>, string)>)
    ensures r.Some? ==> |r.value.1| < |s|
    decreases |s|
  {
    if |s| == 0 || s[0] != '"' then None
    else
      match ReadQuoted(s[1..])
        case None => None
        case Some((cell, rest)) =>
          if |rest| > 0 && rest[0] == ',' then
            match ParseFields(rest[1..])
              case None => None
              case Some((cells, rest')) => Some(([cell] + cells, rest'))
          else Some(([cell], rest))
  }

  /** Reads the lines that follow the header, each introduced by a newline. */
  function ParseRows(s: string): Option<seq<seq<string>>>
    decreases |s|
  {
    if |s| == 0 then Some([])
    else if s[0] != '\n' then None
    else
      match ParseFields(s[1..])
        case None => None
        case Some((row, rest)) =>
          match ParseRows(rest)
            case None => None
            case Some(rows) => Some([row] + rows)
  }

  /** The cells of an exported file: the header, then the cells of each line. */
  function ParseCsv(s: string): Option<seq<seq<string>>>
  {
    var h := CsvHeader();
    if |h| <= |s| && s[..|h|] == h then ParseRows(s[|h|..]) else None
  }

  /** A decoded line: everything of a player the file records (not the id). */
  datatype CsvRow = CsvRow(rank: int, name: string, position: string, school: string, grade: int, tier: int, notes: string)

  /** A player's row; absent notes are read as "", as the notes panel shows them. */
  function RowOf(p: Player): CsvRow
  {
    CsvRow(p.order, p.name, p.position, p.school, p.grade, p.tier, p.notes.GetOr(""))
  }

  /** Turns seven cell texts back into a row. */
  function DecodeRow(cells: seq<string>): Option<CsvRow>
  {
    if |cells| != 7 then None
    else
      match (Text.ParseInt(cells[0]), Text.ParseInt(cells[4]), Text.ParseInt(cells[5]))
        case (Some(rank), Some(grade), Some(tier)) => Some(CsvRow(rank, cells[1], cells[2], cells[3], grade, tier, cells[6]))
        case _ => None
  }

  /** A quoted, escaped cell reads back as its text. */
  lemma {:induction false} ReadEscaped(c: string, rest: string)
    requires rest == [] || rest[0] != '"'
    ensures ReadQuoted(Escape(c) + "\"" + rest) == Some((c, rest))
  {
    if |c| > 0 {
      ReadEscaped(c[1..], rest);
      var s := Escape(c) + "\"" + rest;
      if c[0] == '"' {
        assert s[2..] == Escape(c[1..]) + "\"" + rest;
        assert "\"" + c[1..] == c;
      } else {
        assert s[1..] == Escape(c[1..]) + "\"" + rest;
        assert [c[0]] + c[1..] == c;
      }
    }
  }

  /** A line of cells, every cell escaped and quoted. */
  function EscapedLine(cells: seq<string>): string
  {
    Text.Join(QuoteAll(EscapeAll(cells)), ",")
  }

  function EscapeAll(cells: seq<string>): (r: seq<string>)
    ensures |r| == |cells| && forall i :: 0 <= i < |cells| ==> r[i] == Escape(cells[i])
  {
    seq(|cells|, i requires 0 <= i < |cells| => Escape(cells[i]))
  }

  function EscapedLines(rows: seq<seq<string>>): (r: seq<string>)
    ensures |r| == |rows| && forall k :: 0 <= k < |rows| ==> r[k] == EscapedLine(rows[k])
  {
    seq(|rows|, k requires 0 <= k < |rows| => EscapedLine(rows[k]))
  }

  /** A line of escaped, quoted cells reads back as its cells, whatever follows it
      as long as that starts with neither a comma nor a quote. */
  lemma {:induction false} ParseEscapedLine(cells: seq<string>, rest: string)
    requires |cells| > 0
    requires rest == [] || (rest[0] != ',' && rest[0] != '"')
    ensures ParseFields(EscapedLine(cells) + rest) == Some((cells, rest))
  {
    var q := QuoteAll(EscapeAll(cells));
    var s := EscapedLine(cells) + rest;
    if |cells| == 1 {
      assert EscapedLine(cells) == q[0];
      assert s == "\"" + (Escape(cells[0]) + "\"" + rest);
      ReadEscaped(cells[0], rest);
      assert s[1..] == Escape(cells[0]) + "\"" + rest;
      assert [cells[0]] == cells;
    } else {
      var tail := EscapedLine(cells[1..]) + rest;
      assert q[1..] == QuoteAll(EscapeAll(cells[1..]));
      assert s == "\"" + (Escape(cells[0]) + "\"" + ("," + tail));
      ReadEscaped(cells[0], "," + tail);
      assert s[1..] == Escape(cells[0]) + "\"" + ("," + tail);
      ParseEscapedLine(cells[1..], rest);
      assert ("," + tail)[1..] == tail;
      assert [cells[0]] + cells[1..] == cells;
    }
  }

  /** One step of `ParseRows`: a newline, a line of cells, then the remaining lines. */
  lemma ParseRowsStep(s: string, row: seq<string>, rest: string, rows: seq<seq<string>>)
    requires |s| > 0 && s[0] == '\n'
    requires ParseFields(s[1..]) == Some((row, rest)) && ParseRows(rest) == Some(rows)
    ensures ParseRows(s) == Some([row] + rows)
  {
  }

  lemma PrefixedStartsWithSeparator(ls: seq<string>, sep: char)
    ensures Prefixed(ls, [sep]) == [] || Prefixed(ls, [sep])[0] == sep
  {
  }

  /** Lines of escaped cells, each after a newline, read back as their rows. */
  lemma {:induction false} ParseEscapedRows(rows: seq<seq<string>>)
    requires forall k :: 0 <= k < |rows| ==> |rows[k]| > 0
    ensures ParseRows(Prefixed(EscapedLines(rows), "\n")) == Some(rows)
  {
    if |rows| > 0 {
      var ls := EscapedLines(rows);
      assert ls[1..] == EscapedLines(rows[1..]);
      var after := Prefixed(ls[1..], "\n");
      ParseEscapedRows(rows[1..]);
      PrefixedStartsWithSeparator(ls[1..], '\n');
      ParseEscapedRow(rows[0], after, rows[1..]);
      assert [rows[0]] + rows[1..] == rows;
    }
  }

  /** A newline and an escaped line put before lines that read back as `rows` read back as one more row. */
  lemma ParseEscapedRow(row: seq<string>, after: string, rows: seq<seq<string>>)
    requires |row| > 0
    requires after == [] || after[0] == '\n'
    requires ParseRows(after) == Some(rows)
    ensures ParseRows("\n" + EscapedLine(row) + after) == Some([row] + rows)
  {
    var s := "\n" + EscapedLine(row) + after;
    ParseEscapedLine(row, after);
    assert s[1..] == EscapedLine(row) + after;
    ParseRowsStep(s, row, after, rows);
  }

  /** The seven cells of a player before quoting; absent notes make an empty cell. */
  function PlainCells(p: Player): seq<string>
  {
    [Text.IntToString(p.order), p.name, p.position, p.school,
     Text.IntToString(p.grade), Text.IntToString(p.tier), p.notes.GetOr("")]
  }

  /** The cells of a player read back as the player's row. */
  lemma DecodePlainCells(p: Player)
    ensures DecodeRow(PlainCells(p)) == Some(RowOf(p))
  {
    Text.ParseIntToString(p.order);
    Text.ParseIntToString(p.grade);
    Text.ParseIntToString(p.tier);
  }

  /** The export with every cell escaped, as section 2 of RFC 4180 demands of
      quoted fields, and absent notes written as an empty cell. */
  function ExportToCsvEscaped(data: Option<seq<Player>>): ExportOutcome
  {
    match data
      case None => NoData
      case Some(players) =>
        var sorted := Seqs.Sort(players, ByOrder);
        Download(Text.Join([CsvHeader()] + EscapedLines(CellRows(sorted)), "\n"))
  }

  /** The cells of each player. */
  function CellRows(ps: seq<Player>): (r: seq<seq<string>>)
    ensures |r| == |ps| && forall i :: 0 <= i < |ps| ==> r[i] == PlainCells(ps[i])
  {
    seq(|ps|, i requires 0 <= i < |ps| => PlainCells(ps[i]))
  }

  /** The escaped export reads back, line by line, as the rows of the players in rank order. */
  lemma EscapedCsvRoundTrip(players: seq<Player>)
    ensures var sorted := Seqs.Sort(players, ByOrder);
      && ExportToCsvEscaped(Some(players)).Download?
      && ParseCsv(ExportToCsvEscaped(Some(players)).csv) == Some(CellRows(sorted))
      && forall i :: 0 <= i < |sorted| ==> DecodeRow(PlainCells(sorted[i])) == Some(RowOf(sorted[i]))
  {
    var sorted := Seqs.Sort(players, ByOrder);
    var rows := CellRows(sorted);
    var ls := EscapedLines(rows);
    JoinAfterHead(CsvHeader(), ls, "\n");
    ParseEscapedRows(rows);
    var s := ExportToCsvEscaped(Some(players)).csv;
    assert s == CsvHeader() + Prefixed(ls, "\n");
    assert s[..|CsvHeader()|] == CsvHeader();
    assert s[|CsvHeader()|..] == Prefixed(ls, "\n");
    forall i | 0 <= i < |sorted| ensures DecodeRow(PlainCells(sorted[i])) == Some(RowOf(sorted[i])) {
      DecodePlainCells(sorted[i]);
    }
  }

  /** A number's text holds no double quote. */
  lemma NumberQuoteFree(n: int)
    ensures '"' !in Text.IntToString(n)
  {
  }

  /** Quote-free names, positions and schools. */
  predicate QuoteFree(p: Player)
  {
    '"' !in p.name && '"' !in p.position && '"' !in p.school
  }

  /** When every player has notes and no name, position or school holds a
      double quote, the export as written is the escaped export. */
  lemma ExportAgreesWithoutQuotes(players: seq<Player>)
    requires forall p :: p in players ==> QuoteFree(p) && p.notes.Some?
    ensures ExportToCsv(Some(players)) == ExportToCsvEscaped(Some(players))
  {
    var sorted := Seqs.Sort(players, ByOrder);
    forall i | 0 <= i < |sorted| ensures sorted[i].notes.Some? && SourceLine(sorted[i]) == EscapedLine(PlainCells(sorted[i])) {
      assert sorted[i] in multiset(players);
      LineAgreesWithoutQuotes(sorted[i]);
    }
    assert SourceLines(sorted) == EscapedLines(CellRows(sorted));
  }

  /** A line whose name, position and school hold no double quote is the escaped line of its cells. */
  lemma LineAgreesWithoutQuotes(p: Player)
    requires QuoteFree(p) && p.notes.Some?
    ensures SourceLine(p) == EscapedLine(PlainCells(p))
  {
    NumberQuoteFree(p.order);
    NumberQuoteFree(p.grade);
    NumberQuoteFree(p.tier);
    EscapeQuoteFree(Text.IntToString(p.order));
    EscapeQuoteFree(p.name);
    EscapeQuoteFree(p.position);
    EscapeQuoteFree(p.school);
    EscapeQuoteFree(Text.IntToString(p.grade));
    EscapeQuoteFree(Text.IntToString(p.tier));
    assert SourceCells(p) == EscapeAll(PlainCells(p));
  }

  /** With notes on every player and no quotes in name, position and school,
      the file as written reads back as the players' rows in rank order. */
  lemma CsvRoundTripWithoutQuotes(players: seq<Player>)
    requires forall p :: p in players ==> QuoteFree(p) && p.notes.Some?
    ensures var sorted := Seqs.Sort(players, ByOrder);
      && ExportToCsv(Some(players)).Download?
      && ParseCsv(ExportToCsv(Some(players)).csv) == Some(CellRows(sorted))
  {
    ExportAgreesWithoutQuotes(players);
    EscapedCsvRoundTrip(players);
  }

  /** The first three parts of a join, written out. */
  lemma JoinThree(parts: seq<string>, sep: string)
    requires |parts| > 3
    ensures Text.Join(parts, sep) == parts[0] + sep + (parts[1] + sep + parts[2]) + sep + Text.Join(parts[3..], sep)
  {
    assert parts[1..][0] == parts[1] && parts[1..][1..] == parts[2..];
    assert parts[2..][0] == parts[2] && parts[2..][1..] == parts[3..];
    var j3 := Text.Join(parts[3..], sep);
    assert Text.Join(parts[2..], sep) == parts[2] + sep + j3;
    assert Text.Join(parts[1..], sep) == parts[1] + sep + (parts[2] + sep + j3);
    assert Text.Join(parts, sep) == parts[0] + sep + (parts[1] + sep + (parts[2] + sep + j3));
  }

  /** The file for a single player: the header, a newline and the player's line. */
  lemma ExportSingle(p: Player)
    requires p.notes.Some?
    ensures ExportToCsv(Some([p])) == Download(CsvHeader() + "\n" + SourceLine(p))
  {
    assert Seqs.Sort([p], ByOrder) == [p];
    var ls := SourceLines([p]);
    var two := [CsvHeader(), SourceLine(p)];
    assert [CsvHeader()] + ls == two;
    assert two[1..] == [SourceLine(p)];
    assert Text.Join(two, "\n") == CsvHeader() + "\n" + SourceLine(p);
  }

  /** Moving the text `","` from the end of one cell to the start of the
      next leaves the line as written unchanged. */
  lemma ShiftedCellsCollide(p1: Player, p2: Player, a: string, b: string, c: string)
    requires p1.name == a + "\",\"" + b && p1.position == c
    requires p2.name == a && p2.position == b + "\",\"" + c
    requires p1.order == p2.order && p1.school == p2.school && p1.grade == p2.grade
    requires p1.tier == p2.tier && p1.notes == p2.notes && p1.notes.Some?
    ensures SourceLine(p1) == SourceLine(p2)
  {
    var q1, q2 := QuoteAll(SourceCells(p1)), QuoteAll(SourceCells(p2));
    assert q1[0] == q2[0] && q1[3..] == q2[3..];
    JoinThree(q1, ",");
    JoinThree(q2, ",");
    assert q1[1] + "," + q1[2] == "\"" + a + "\",\"" + b + "\",\"" + c + "\"";
    assert q2[1] + "," + q2[2] == "\"" + a + "\",\"" + b + "\",\"" + c + "\"";
  }

  /** Two different players, one named `a","b` at position `c` and one named `a`
      at position `b","c`, export the same file. */
  lemma UnescapedCellsCollide()
    ensures var p1 := Player(1, "a\",\"b", "c", "S", 80, 1, Some(""), 1);
      var p2 := Player(1, "a", "b\",\"c", "S", 80, 1, Some(""), 1);
      && RowOf(p1) != RowOf(p2)
      && ExportToCsv(Some([p1])) == ExportToCsv(Some([p2]))
  {
    var p1 := Player(1, "a\",\"b", "c", "S", 80, 1, Some(""), 1);
    var p2 := Player(1, "a", "b\",\"c", "S", 80, 1, Some(""), 1);
    assert |p1.name| != |p2.name|;
    ShiftedCellsCollide(p1, p2, "a", "b", "c");
    ExportSingle(p1);
    ExportSingle(p2);
  }

  /** A create request without a notes key passes the schema and is stored
      without notes, and from then on every export of a board holding that
      player throws. */
  lemma CreatedWithoutNotesBreaksExport(b: Schema.PlayerBody, id: int, order: int, others: seq<Player>)
    requires Schema.ParseNewPlayer(b).Success? && b.notes.None?
    ensures var p := Storage.WithId(Schema.ParseNewPlayer(b).value, id, order);
      && p.notes.None?
      && ExportToCsv(Some(others + [p])).Throws?
  {
    var p := Storage.WithId(Schema.ParseNewPlayer(b).value, id, order);
    assert p in others + [p];
  }
}
