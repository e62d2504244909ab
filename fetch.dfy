/** Data reconciliation (`src/data/fetch.ts`): the three contest tables are
    split into cell grids, the registrant and leaderboard tables are parsed by
    header lookup, one beer is built per leaderboard entry, the winners table
    is grouped into the five category buckets, and everything is sorted. */
module Fetch {
  import opened Wrappers
  import opened Text
  import opened Types
  import opened Sorting
  import Cache

  type Row = seq<string>
  type Table = seq<Row>

  // ---------------------------------------------------------------- TSV grid

  /** The grid step of `tsv`: every carriage return removed, the text split
      into lines, empty lines dropped, each line split on tabs. */
  function ParseTsv(text: string): (t: Table)
    ensures forall i :: 0 <= i < |t| ==> |t[i]| >= 1
    ensures forall i, j :: 0 <= i < |t| && 0 <= j < |t[i]| ==> CleanCell(t[i][j])
  {
    var lines := NonEmptyOnly(Split(RemoveChar(text, '\r'), '\n'));
    assert forall k :: 0 <= k < |lines| ==> '\r' !in lines[k] && '\n' !in lines[k];
    MapSeq(lines, (line: string) => Split(line, '\t'))
  }

  /** A cell that a TSV text can carry. */
  predicate CleanCell(c: string) {
    '\t' !in c && '\n' !in c && '\r' !in c
  }

  /** A row that survives rendering and re-parsing: it has cells, is not a
      single empty cell (which would render as an empty line), and every
      cell is clean. */
  predicate RenderableRow(row: Row) {
    |row| >= 1 && row != [""] && forall j :: 0 <= j < |row| ==> CleanCell(row[j])
  }

  /** The TSV text of a grid: cells joined by tabs, rows by newlines. */
  function RenderTsv(t: Table): string
    requires forall i :: 0 <= i < |t| ==> |t[i]| >= 1
  {
    if t == [] then "" else Join(RenderLines(t), '\n')
  }

  function RenderLines(t: Table): (lines: seq<string>)
    requires forall i :: 0 <= i < |t| ==> |t[i]| >= 1
    ensures |lines| == |t| && forall i :: 0 <= i < |t| ==> lines[i] == Join(t[i], '\t')
  {
    if t == [] then [] else [Join(t[0], '\t')] + RenderLines(t[1..])
  }

  /** The grid of the text of a grid is the grid itself. */
  lemma TsvRoundTrip(t: Table)
    requires forall i :: 0 <= i < |t| ==> |t[i]| >= 1 && RenderableRow(t[i])
    ensures ParseTsv(RenderTsv(t)) == t
  {
    if t != [] {
      var lines := RenderLines(t);
      forall k | 0 <= k < |lines|
        ensures '\r' !in lines[k] && '\n' !in lines[k] && lines[k] != []
      {
        JoinAvoids(t[k], '\t', '\r');
        JoinAvoids(t[k], '\t', '\n');
        SplitJoin(t[k], '\t');
        assert Split([], '\t') == [[]];
      }
      JoinAvoids(lines, '\n', '\r');
      RemoveCharAbsent(RenderTsv(t), '\r');
      SplitJoin(lines, '\n');
      NonEmptyOnlyKeeps(lines);
      forall k | 0 <= k < |t| ensures Split(lines[k], '\t') == t[k] {
        SplitJoin(t[k], '\t');
      }
    }
  }

  /** Carriage returns never matter: a text and its `\r`-free form give the
      same grid. */
  lemma ParseTsvIgnoresCr(text: string)
    ensures ParseTsv(text) == ParseTsv(RemoveChar(text, '\r'))
  {
    RemoveCharAbsent(RemoveChar(text, '\r'), '\r');
  }

  /** Lines are parsed independently: the grid of two texts joined by a
      newline is the grid of the first followed by the grid of the second. */
  lemma ParseTsvLines(x: string, y: string)
    ensures ParseTsv(x + "\n" + y) == ParseTsv(x) + ParseTsv(y)
  {
    var rx, ry := RemoveChar(x, '\r'), RemoveChar(y, '\r');
    RemoveCharConcat(x, "\n" + y, '\r');
    RemoveCharConcat("\n", y, '\r');
    assert x + "\n" + y == x + ("\n" + y);
    assert RemoveChar(x + "\n" + y, '\r') == rx + ['\n'] + ry;
    SplitConcat(rx, ry, '\n');
    NonEmptyOnlyConcat(Split(rx, '\n'), Split(ry, '\n'));
    var f := (line: string) => Split(line, '\t');
    var a, b := NonEmptyOnly(Split(rx, '\n')), NonEmptyOnly(Split(ry, '\n'));
    assert MapSeq(a + b, f) == MapSeq(a, f) + MapSeq(b, f);
  }

  /** One line: blank once its carriage returns are gone, it gives no row;
      otherwise it gives the one row of its tab-separated cells. */
  lemma ParseTsvLine(line: string)
    requires '\n' !in line
    ensures var l := RemoveChar(line, '\r');
      ParseTsv(line) == if l == [] then [] else [Split(l, '\t')]
  {
    var l := RemoveChar(line, '\r');
    SplitNoSep(l, '\n');
  }

  /** `row[i]`: `undefined` outside the row, including at index -1. */
  function Cell(row: Row, i: int): (r: Option<string>)
    ensures r.Some? <==> 0 <= i < |row|
    ensures r.Some? ==> r.value == row[i]
  {
    if 0 <= i < |row| then Some(row[i]) else None
  }

  // --------------------------------------------------------------- numbers

  /** `toNum`: the empty cell is `null`, any other text goes through
      `Number`, which is the parameter `number`. */
  function ToNum(s: string, number: string -> real): (r: Option<real>)
    ensures r.None? <==> s == ""
    ensures r.Some? ==> r.value == number(s)
  {
    if s == "" then None else Some(number(s))
  }

  /** `toNum0` applied to a cell: a missing or empty cell reads as 0. */
  function ToNum0(s: Option<string>, number: string -> real): (r: real)
    ensures !Truthy(s) ==> r == 0.0
    ensures Truthy(s) ==> r == number(s.value)
  {
    if Truthy(s) then number(s.value) else 0.0
  }

  // ------------------------------------------------------------ registrants

  datatype Registrant = Registrant(
    timestamp: Option<string>,
    brewer: Option<string>,
    beerName: Option<string>,
    style: Option<string>,
    abv: Option<real>,
    description: Option<string>,
    img: Option<string>,
    entryId: string,
    entryDisplay: Option<string>)

  /** The header positions of the registrant columns (-1 when absent). */
  datatype RegistrantColumns = RegistrantColumns(
    timestamp: int, brewer: int, beerName: int, style: int, abv: int,
    description: int, img: int, entryId: int, entryDisplay: int)

  function RegistrantColumnsOf(header: Row): RegistrantColumns {
    RegistrantColumns(
      IndexOf(header, "Timestamp"), IndexOf(header, "Brewer's Name"),
      IndexOf(header, "Beer Name"), IndexOf(header, "Style"), IndexOf(header, "ABV"),
      IndexOf(header, "Description"), IndexOf(header, "Beer Label"),
      IndexOf(header, "EntryID"), IndexOf(header, "Entry Display"))
  }

  /** A data row is kept when its cell in column `col` is a non-empty string. */
  predicate HasId(row: Row, col: int) {
    Truthy(Cell(row, col))
  }

  /** The row filter of both parsers: `.filter((r) => r[col])`. */
  function KeepIf(col: int): Row -> bool {
    (row: Row) => HasId(row, col)
  }

  function RegistrantFrom(cols: RegistrantColumns, number: string -> real): Row -> Registrant {
    (row: Row) => RegistrantOf(row, cols, number)
  }

  function RegistrantOf(row: Row, cols: RegistrantColumns, number: string -> real): Registrant {
    Registrant(
      Cell(row, cols.timestamp), Cell(row, cols.brewer), Cell(row, cols.beerName),
      Cell(row, cols.style), ToNum(Cell(row, cols.abv).GetOr(""), number),
      Cell(row, cols.description), Cell(row, cols.img),
      Cell(row, cols.entryId).GetOr(""), Cell(row, cols.entryDisplay))
  }

  /** `parseRegistrants`. An empty table has no header, and looking up a
      column in it throws. */
  function ParseRegistrants(table: Table, number: string -> real): (r: Result<seq<Registrant>, string>)
    ensures r.Success? <==> table != []
    ensures r.Success? ==>
      var cols := RegistrantColumnsOf(table[0]);
      && |r.value| <= |table| - 1
      && r.value == MapSeq(Filter(table[1..], KeepIf(cols.entryId)), RegistrantFrom(cols, number))
      && (forall x :: x in table[1..] && HasId(x, cols.entryId) ==> RegistrantOf(x, cols, number) in r.value)
      && (forall g :: g in r.value ==>
            g.entryId != "" &&
            exists x :: x in table[1..] && HasId(x, cols.entryId) && g == RegistrantOf(x, cols, number))
  {
    if table == [] then Failure("TypeError: the registrant table has no header row")
    else
      var cols := RegistrantColumnsOf(table[0]);
      var keep := KeepIf(cols.entryId);
      var kept := Filter(table[1..], keep);
      forall x ensures x in kept <==> x in table[1..] && keep(x) {
        FilterMember(table[1..], keep, x);
      }
      var out := MapSeq(kept, RegistrantFrom(cols, number));
      forall g | g in out
        ensures exists x :: x in table[1..] && HasId(x, cols.entryId) && g == RegistrantOf(x, cols, number)
      {
        var i :| 0 <= i < |out| && out[i] == g;
        assert kept[i] in kept;
      }
      Success(out)
  }

  // ------------------------------------------------------------- leaderboard

  datatype LeaderboardRow = LeaderboardRow(entryId: string, beer: Option<string>, scores: Scores)

  datatype LeaderboardColumns = LeaderboardColumns(
    entryId: int, beer: int, dri: int, fla: int, col: int, lab: int, ovr: int, vot: int, tot: int)

  function LeaderboardColumnsOf(h: Row): LeaderboardColumns {
    LeaderboardColumns(
      IndexOf(h, "EntryID"), IndexOf(h, "Beer"), IndexOf(h, "Avg Drinkability"),
      IndexOf(h, "Avg Flavor"), IndexOf(h, "Avg Color"), IndexOf(h, "Avg Label"),
      IndexOf(h, "Avg Overall"), IndexOf(h, "Votes"), IndexOf(h, "Total"))
  }

  function LeaderboardRowOf(row: Row, cols: LeaderboardColumns, number: string -> real): LeaderboardRow {
    LeaderboardRow(
      Cell(row, cols.entryId).GetOr(""), Cell(row, cols.beer),
      Scores(
        ToNum0(Cell(row, cols.dri), number), ToNum0(Cell(row, cols.fla), number),
        ToNum0(Cell(row, cols.col), number), ToNum0(Cell(row, cols.lab), number),
        ToNum0(Cell(row, cols.ovr), number), ToNum0(Cell(row, cols.vot), number),
        ToNum0(Cell(row, cols.tot), number)))
  }

  function LeaderboardRowFrom(cols: LeaderboardColumns, number: string -> real): Row -> LeaderboardRow {
    (row: Row) => LeaderboardRowOf(row, cols, number)
  }

  /** `parseLeaderboard`, with the same empty-table failure. */
  function ParseLeaderboard(table: Table, number: string -> real): (r: Result<seq<LeaderboardRow>, string>)
    ensures r.Success? <==> table != []
    ensures r.Success? ==>
      var cols := LeaderboardColumnsOf(table[0]);
      && |r.value| <= |table| - 1
      && r.value == MapSeq(Filter(table[1..], KeepIf(cols.entryId)), LeaderboardRowFrom(cols, number))
      && (forall x :: x in table[1..] && HasId(x, cols.entryId) ==> LeaderboardRowOf(x, cols, number) in r.value)
      && (forall g :: g in r.value ==>
            g.entryId != "" &&
            exists x :: x in table[1..] && HasId(x, cols.entryId) && g == LeaderboardRowOf(x, cols, number))
  {
    if table == [] then Failure("TypeError: the leaderboard table has no header row")
    else
      var cols := LeaderboardColumnsOf(table[0]);
      var keep := KeepIf(cols.entryId);
      var kept := Filter(table[1..], keep);
      forall x ensures x in kept <==> x in table[1..] && keep(x) {
        FilterMember(table[1..], keep, x);
      }
      var out := MapSeq(kept, LeaderboardRowFrom(cols, number));
      forall g | g in out
        ensures exists x :: x in table[1..] && HasId(x, cols.entryId) && g == LeaderboardRowOf(x, cols, number)
      {
        var i :| 0 <= i < |out| && out[i] == g;
        assert kept[i] in kept;
      }
      Success(out)
  }

  /** A column found by the registrant lookup holds exactly the wanted
      header text: the lookup is an exact match, not a prefix or a
      case-insensitive one. */
  lemma HeaderLookupExact(header: Row, name: string)
    ensures var i := IndexOf(header, name);
      && (i == -1 <==> name !in header)
      && (0 <= i ==> header[i] == name && forall j :: 0 <= j < i ==> header[j] != name)
  {
    var i := IndexOf(header, name);
    if 0 <= i {
      forall j | 0 <= j < i ensures header[j] != name {
        assert header[j] in header[..i];
      }
    }
  }

  // ------------------------------------------------------------------ merge

  /** A JavaScript `Map` from entry ids: the keys in insertion order, and
      the values. */
  datatype OrderedMap<V> = OrderedMap(keys: seq<string>, values: map<string, V>) {
    ghost predicate Valid() {
      && (forall i, j :: 0 <= i < j < |keys| ==> keys[i] != keys[j])
      && (forall k :: k in values <==> k in keys)
    }

    function Get(k: string): (r: Option<V>)
      ensures r.Some? <==> k in values
      ensures r.Some? ==> r.value == values[k]
    {
      if k in values then Some(values[k]) else None
    }

    /** `Map.set`: a new key goes last, an existing key keeps its place. */
    function Set(k: string, v: V): (m: OrderedMap<V>)
      requires Valid()
      ensures m.Valid()
      ensures m.values == values[k := v]
      ensures k in keys ==> m.keys == keys
      ensures k !in keys ==> m.keys == keys + [k]
    {
      if k in values then OrderedMap(keys, values[k := v]) else OrderedMap(keys + [k], values[k := v])
    }

    /** `Array.from(map.values())`. */
    function Values(): (r: seq<V>)
      requires Valid()
      ensures |r| == |keys| && forall i :: 0 <= i < |keys| ==> r[i] == values[keys[i]]
    {
      seq(|keys|, i requires 0 <= i < |keys| => values[keys[i]])
    }
  }

  function EmptyMap<V>(): (m: OrderedMap<V>)
    ensures m.Valid() && m.keys == [] && m.values == map[]
  {
    OrderedMap([], map[])
  }

  /** `new Map(registrants.map(r => [r.entryId, r]))`: a later registrant
      with the same id replaces an earlier one. */
  function IndexById(regs: seq<Registrant>): map<string, Registrant> {
    if regs == [] then map[]
    else IndexById(regs[..|regs| - 1])[regs[|regs| - 1].entryId := regs[|regs| - 1]]
  }

  function WithEntryId(k: string): Registrant -> bool {
    (g: Registrant) => g.entryId == k
  }

  /** The registrant index holds every registered id, mapped to the last
      registrant that carries it. */
  lemma {:induction false} IndexByIdLast(regs: seq<Registrant>, k: string)
    ensures var i := LastIndexWhere(regs, WithEntryId(k));
      && (k in IndexById(regs) <==> i >= 0)
      && (k in IndexById(regs) ==> IndexById(regs)[k] == regs[i])
  {
    if regs != [] {
      var init := regs[..|regs| - 1];
      IndexByIdLast(init, k);
      if regs[|regs| - 1].entryId != k {
        var i := LastIndexWhere(regs, WithEntryId(k));
        assert i == LastIndexWhere(init, WithEntryId(k));
        if i >= 0 {
          assert regs[i] == init[i];
        }
      }
    }
  }

  /** The beer built from a leaderboard row and the registrant with its id,
      if any. */
  function BeerOf(row: LeaderboardRow, regById: map<string, Registrant>): Beer {
    var meta := if row.entryId in regById then Some(regById[row.entryId]) else None;
    Beer(
      row.entryId,
      if meta.Some? && meta.value.beerName.Some? then meta.value.beerName else row.beer,
      if meta.Some? then meta.value.brewer else None,
      if meta.Some? then meta.value.style else None,
      if meta.Some? then meta.value.abv else None,
      if meta.Some? then meta.value.img else None,
      row.scores)
  }

  /** The merged map after the leaderboard rows `rows` have been visited in
      order. */
  function MergeSpec(rows: seq<LeaderboardRow>, regById: map<string, Registrant>): (m: OrderedMap<Beer>)
    ensures m.Valid()
  {
    if rows == [] then EmptyMap()
    else MergeSpec(rows[..|rows| - 1], regById).Set(rows[|rows| - 1].entryId, BeerOf(rows[|rows| - 1], regById))
  }

  function RowWithId(k: string): LeaderboardRow -> bool {
    (row: LeaderboardRow) => row.entryId == k
  }

  /** The merge keeps one beer per distinct leaderboard id, and the beer of
      an id is built from the last leaderboard row that carries it. Nothing
      else is in the map: a registrant without a leaderboard row is absent. */
  lemma {:induction false} MergeLastRowWins(rows: seq<LeaderboardRow>, regById: map<string, Registrant>, k: string)
    ensures var m := MergeSpec(rows, regById);
      var i := LastIndexWhere(rows, RowWithId(k));
      && (k in m.values <==> i >= 0)
      && (k in m.values ==> m.values[k] == BeerOf(rows[i], regById))
  {
    if rows != [] {
      var init := rows[..|rows| - 1];
      MergeLastRowWins(init, regById, k);
      if rows[|rows| - 1].entryId != k {
        var i := LastIndexWhere(rows, RowWithId(k));
        assert i == LastIndexWhere(init, RowWithId(k));
        if i >= 0 {
          assert rows[i] == init[i];
        }
      }
    }
  }

  /** Where the fields of a merged beer come from: the scores from the last
      leaderboard row with its id; name, brewer, style, ABV and image from
      the last registrant with that id when there is one; the name falls
      back to the leaderboard's Beer cell when the registrant has none. */
  lemma MergedBeerProvenance(rows: seq<LeaderboardRow>, regs: seq<Registrant>, k: string)
    requires k in MergeSpec(rows, IndexById(regs)).values
    ensures var b := MergeSpec(rows, IndexById(regs)).values[k];
      var i := LastIndexWhere(rows, RowWithId(k));
      var j := LastIndexWhere(regs, WithEntryId(k));
      && 0 <= i
      && b.entryId == k
      && b.scores == rows[i].scores
      && (j == -1 ==> b.name == rows[i].beer && b.brewer.None? && b.style.None? && b.abv.None? && b.img.None?)
      && (0 <= j ==>
            && b.name == (if regs[j].beerName.Some? then regs[j].beerName else rows[i].beer)
            && b.brewer == regs[j].brewer && b.style == regs[j].style
            && b.abv == regs[j].abv && b.img == regs[j].img)
  {
    MergeLastRowWins(rows, IndexById(regs), k);
    IndexByIdLast(regs, k);
  }

  /** The merge loop of `loadData`. */
  method MergeBeers(rows: seq<LeaderboardRow>, regById: map<string, Registrant>) returns (beers: OrderedMap<Beer>)
    ensures beers == MergeSpec(rows, regById)
    ensures beers.Valid()
  {
    beers := EmptyMap();
    var i := 0;
    while i < |rows|
      invariant 0 <= i <= |rows|
      invariant beers == MergeSpec(rows[..i], regById)
    {
      var row := rows[i];
      var meta := if row.entryId in regById then Some(regById[row.entryId]) else None;
      var name := if meta.Some? && meta.value.beerName.Some? then meta.value.beerName else row.beer;
      var beer := Beer(
        row.entryId, name,
        if meta.Some? then meta.value.brewer else None,
        if meta.Some? then meta.value.style else None,
        if meta.Some? then meta.value.abv else None,
        if meta.Some? then meta.value.img else None,
        row.scores);
      beers := beers.Set(row.entryId, beer);
      assert rows[..i + 1][..i] == rows[..i];
      i := i + 1;
    }
    assert rows[..i] == rows;
  }

  // ---------------------------------------------------------------- winners

  /** The five category buckets; all of them always exist. */
  datatype Winners = Winners(
    labelBucket: seq<Beer>, color: seq<Beer>, drinkability: seq<Beer>, flavor: seq<Beer>, overall: seq<Beer>)
  {
    function Get(c: Category): seq<Beer> {
      match c
      case Label => labelBucket
      case Color => color
      case Drinkability => drinkability
      case Flavor => flavor
      case Overall => overall
    }

    function With(c: Category, s: seq<Beer>): (w: Winners)
      ensures w.Get(c) == s
      ensures forall d :: d != c ==> w.Get(d) == Get(d)
    {
      match c
      case Label => this.(labelBucket := s)
      case Color => this.(color := s)
      case Drinkability => this.(drinkability := s)
      case Flavor => this.(flavor := s)
      case Overall => this.(overall := s)
    }
  }

  const NoWinners := Winners([], [], [], [], [])

  datatype WinnerColumns = WinnerColumns(cat: int, id: int, place: int)

  function WinnerColumnsOf(wH: Row): WinnerColumns {
    WinnerColumns(IndexOf(wH, "Category"), IndexOf(wH, "EntryID"), IndexOf(wH, "Place"))
  }

  /** A winners row that reaches the push: non-empty category and id cells,
      and an id that names a merged beer. */
  predicate Accepted(row: Row, cols: WinnerColumns, beers: OrderedMap<Beer>) {
    HasId(row, cols.cat) && HasId(row, cols.id) && row[cols.id] in beers.values
  }

  /** One iteration of the winners loop. Pushing into a category other than
      the five throws, because the bucket lookup yields no array. */
  function WinnerStep(w: Winners, row: Row, cols: WinnerColumns, beers: OrderedMap<Beer>): Result<Winners, string> {
    if !Accepted(row, cols, beers) then Success(w)
    else match ParseCategory(row[cols.cat])
      case None => Failure("TypeError: unknown winner category")
      case Some(c) => Success(w.With(c, w.Get(c) + [beers.values[row[cols.id]]]))
  }

  /** The buckets after the winners rows `rows` have been visited in order. */
  function GroupSpec(rows: Table, cols: WinnerColumns, beers: OrderedMap<Beer>): Result<Winners, string> {
    if rows == [] then Success(NoWinners)
    else match GroupSpec(rows[..|rows| - 1], cols, beers)
      case Failure(e) => Failure(e)
      case Success(w) => WinnerStep(w, rows[|rows| - 1], cols, beers)
  }

  /** A row that lands in bucket `c`. */
  predicate InBucket(row: Row, cols: WinnerColumns, beers: OrderedMap<Beer>, c: Category) {
    Accepted(row, cols, beers) && ParseCategory(row[cols.cat]) == Some(c)
  }

  /** A row that makes the grouping throw. */
  predicate Unknown(row: Row, cols: WinnerColumns, beers: OrderedMap<Beer>) {
    Accepted(row, cols, beers) && ParseCategory(row[cols.cat]).None?
  }

  function BeerOfRow(cols: WinnerColumns, beers: OrderedMap<Beer>): Row -> Beer {
    row => if 0 <= cols.id < |row| && row[cols.id] in beers.values then beers.values[row[cols.id]] else NoBeer
  }

  const NoBeer := Beer("", None, None, None, None, None, Scores(0.0, 0.0, 0.0, 0.0, 0.0, 0.0, 0.0))

  /** The grouping fails exactly when some accepted row names a category
      other than the five; otherwise bucket `c` holds, in table order, the
      beers of the accepted rows tagged `c`. */
  lemma GroupSpecBuckets(rows: Table, cols: WinnerColumns, beers: OrderedMap<Beer>)
    ensures GroupSpec(rows, cols, beers).Failure? <==> exists i :: 0 <= i < |rows| && Unknown(rows[i], cols, beers)
    ensures GroupSpec(rows, cols, beers).Success? ==> forall c ::
      GroupSpec(rows, cols, beers).value.Get(c)
        == MapSeq(Filter(rows, (row: Row) => InBucket(row, cols, beers, c)), BeerOfRow(cols, beers))
  {
    GroupSpecFails(rows, cols, beers);
    if GroupSpec(rows, cols, beers).Success? {
      forall c ensures GroupSpec(rows, cols, beers).value.Get(c)
        == MapSeq(Filter(rows, (row: Row) => InBucket(row, cols, beers, c)), BeerOfRow(cols, beers))
      {
        GroupSpecBucket(rows, cols, beers, c);
      }
    }
  }

  lemma {:induction false} GroupSpecFails(rows: Table, cols: WinnerColumns, beers: OrderedMap<Beer>)
    ensures GroupSpec(rows, cols, beers).Failure? <==> exists i :: 0 <= i < |rows| && Unknown(rows[i], cols, beers)
  {
    if rows != [] {
      var init := rows[..|rows| - 1];
      GroupSpecFails(init, cols, beers);
      assert forall i :: 0 <= i < |init| ==> init[i] == rows[i];
    }
  }

  lemma {:induction false} GroupSpecBucket(rows: Table, cols: WinnerColumns, beers: OrderedMap<Beer>, c: Category)
    requires GroupSpec(rows, cols, beers).Success?
    ensures GroupSpec(rows, cols, beers).value.Get(c)
      == MapSeq(Filter(rows, (row: Row) => InBucket(row, cols, beers, c)), BeerOfRow(cols, beers))
  {
    if rows != [] {
      var init := rows[..|rows| - 1];
      var last := rows[|rows| - 1];
      var keep := (row: Row) => InBucket(row, cols, beers, c);
      var f := BeerOfRow(cols, beers);
      assert GroupSpec(init, cols, beers).Success?;
      GroupSpecBucket(init, cols, beers, c);
      assert rows == init + [last];
      FilterSnoc(init, last, keep);
      MapSeqSnoc(Filter(init, keep), last, f);
    }
  }

  lemma MapSeqSnoc<A, B>(s: seq<A>, x: A, f: A -> B)
    ensures MapSeq(s + [x], f) == MapSeq(s, f) + [f(x)]
  {
  }

  lemma {:induction false} FilterSnoc<T>(s: seq<T>, x: T, keep: T -> bool)
    ensures Filter(s + [x], keep) == Filter(s, keep) + (if keep(x) then [x] else [])
  {
    if s == [] {
      FilterCons(x, [], keep);
      assert [] + [x] == [x];
    } else {
      FilterSnoc(s[1..], x, keep);
      assert s + [x] == [s[0]] + (s[1..] + [x]);
      FilterCons(s[0], s[1..] + [x], keep);
      FilterCons(s[0], s[1..], keep);
      assert s == [s[0]] + s[1..];
    }
  }

  /** The winners loop of `loadData`. */
  method GroupWinners(rows: Table, cols: WinnerColumns, beers: OrderedMap<Beer>) returns (r: Result<Winners, string>)
    ensures r == GroupSpec(rows, cols, beers)
  {
    var w := NoWinners;
    var i := 0;
    while i < |rows|
      invariant 0 <= i <= |rows|
      invariant GroupSpec(rows[..i], cols, beers) == Success(w)
    {
      assert rows[..i + 1][..i] == rows[..i];
      var row := rows[i];
      var cat := Cell(row, cols.cat);
      var id := Cell(row, cols.id);
      if !Truthy(cat) || !Truthy(id) {
        i := i + 1;
        continue;
      }
      var beer := beers.Get(id.value);
      if beer.None? {
        i := i + 1;
        continue;
      }
      var c := ParseCategory(cat.value);
      if c.None? {
        GroupSpecPrefixFails(rows, i + 1, cols, beers);
        assert rows[..i + 1][..i] == rows[..i];
        return Failure("TypeError: unknown winner category");
      }
      w := w.With(c.value, w.Get(c.value) + [beer.value]);
      i := i + 1;
    }
    assert rows[..i] == rows;
    r := Success(w);
  }

  /** Once a prefix of the winners rows fails, the whole grouping fails
      with the same error. */
  lemma {:induction false} GroupSpecPrefixFails(rows: Table, n: nat, cols: WinnerColumns, beers: OrderedMap<Beer>)
    requires n <= |rows| && GroupSpec(rows[..n], cols, beers).Failure?
    ensures GroupSpec(rows, cols, beers) == GroupSpec(rows[..n], cols, beers)
    decreases |rows| - n
  {
    if n < |rows| {
      assert rows[..n + 1][..n] == rows[..n];
      GroupSpecPrefixFails(rows, n + 1, cols, beers);
    } else {
      assert rows[..n] == rows;
    }
  }

  // ---------------------------------------------------------------- sorting

  /** `catKey`: the score field a category's bucket is sorted by. */
  function CategoryField(c: Category): ScoreField {
    match c
    case Label => LabelScore
    case Color => ColorScore
    case Drinkability => DrinkabilityScore
    case Flavor => FlavorScore
    case Overall => OverallScore
  }

  /** `(a, b) => b.scores[k] - a.scores[k]`: descending by one field. */
  function ByFieldDesc(f: ScoreField): (Beer, Beer) -> real {
    (a: Beer, b: Beer) => Score(b.scores, f) - Score(a.scores, f)
  }

  lemma ByFieldDescPreorder(f: ScoreField)
    ensures IsTotalPreorder(ByFieldDesc(f))
  {
  }

  /** The beer-list comparator: descending overall score, ties broken by
      descending total (`||` moves on when the first difference is 0). */
  function OverallThenTotal(): (Beer, Beer) -> real {
    (a: Beer, b: Beer) =>
      var d := b.scores.overall - a.scores.overall;
      if d != 0.0 then d else b.scores.total - a.scores.total
  }

  lemma OverallThenTotalPreorder()
    ensures IsTotalPreorder(OverallThenTotal())
  {
  }

  /** A sorted bucket is a permutation of the accepted rows' beers, in
      descending order of the category's field, and beers with equal scores
      keep their winners-table order (there is no further tie-break). */
  lemma SortedBucket(bucket: seq<Beer>, c: Category, p: Beer)
    ensures var s := SortBy(bucket, ByFieldDesc(CategoryField(c)));
      && multiset(s) == multiset(bucket)
      && (forall i, j :: 0 <= i < j < |s| ==>
            Score(s[i].scores, CategoryField(c)) >= Score(s[j].scores, CategoryField(c)))
      && Filter(s, TiedWith(ByFieldDesc(CategoryField(c)), p))
         == Filter(bucket, TiedWith(ByFieldDesc(CategoryField(c)), p))
  {
    var cmp := ByFieldDesc(CategoryField(c));
    ByFieldDescPreorder(CategoryField(c));
    SortByPerm(bucket, cmp);
    SortBySorted(bucket, cmp);
    SortByStable(bucket, cmp, p);
    var s := SortBy(bucket, cmp);
    forall i, j | 0 <= i < j < |s|
      ensures Score(s[i].scores, CategoryField(c)) >= Score(s[j].scores, CategoryField(c))
    {
      assert cmp(s[i], s[j]) <= 0.0;
    }
  }

  /** The sorted beer list holds every merged beer, ordered by descending
      overall score and, among equal overall scores, by descending total. */
  lemma SortedBeerList(values: seq<Beer>)
    ensures var s := SortBy(values, OverallThenTotal());
      && multiset(s) == multiset(values)
      && forall i, j :: 0 <= i < j < |s| ==>
           s[i].scores.overall > s[j].scores.overall
           || (s[i].scores.overall == s[j].scores.overall && s[i].scores.total >= s[j].scores.total)
  {
    var cmp := OverallThenTotal();
    OverallThenTotalPreorder();
    SortByPerm(values, cmp);
    SortBySorted(values, cmp);
    var s := SortBy(values, cmp);
    forall i, j | 0 <= i < j < |s|
      ensures s[i].scores.overall > s[j].scores.overall
           || (s[i].scores.overall == s[j].scores.overall && s[i].scores.total >= s[j].scores.total)
    {
      assert cmp(s[i], s[j]) <= 0.0;
    }
  }

  // ------------------------------------------------------------- loadData

  datatype LoadedData = LoadedData(beerList: seq<Beer>, winners: Winners, generatedAt: string)

  const CacheKey := "brew-off:data:v1"
  /** Five minutes, in milliseconds. */
  const CacheMaxAge := 5 * 60 * 1000

  /** Bucket `c` sorted by its category's field. */
  function SortedIn(w: Winners, c: Category): seq<Beer> {
    SortBy(w.Get(c), ByFieldDesc(CategoryField(c)))
  }

  /** Every bucket sorted by its category's field. */
  function SortBuckets(w: Winners): (r: Winners)
    ensures r.Get(Label) == SortedIn(w, Label) && r.Get(Color) == SortedIn(w, Color)
    ensures r.Get(Drinkability) == SortedIn(w, Drinkability) && r.Get(Flavor) == SortedIn(w, Flavor)
    ensures r.Get(Overall) == SortedIn(w, Overall)
  {
    Winners(SortedIn(w, Label), SortedIn(w, Color), SortedIn(w, Drinkability), SortedIn(w, Flavor), SortedIn(w, Overall))
  }

  /** The `forEach` over the buckets of `loadData`, sorting each in turn. */
  method SortEachBucket(grouped: Winners) returns (w: Winners)
    ensures w == SortBuckets(grouped)
  {
    w := grouped;
    var k := 0;
    while k < |AllCategories|
      invariant 0 <= k <= |AllCategories|
      invariant forall j :: 0 <= j < k ==> w.Get(AllCategories[j]) == SortedIn(grouped, AllCategories[j])
      invariant forall j :: k <= j < |AllCategories| ==> w.Get(AllCategories[j]) == grouped.Get(AllCategories[j])
    {
      var c := AllCategories[k];
      w := w.With(c, SortBy(w.Get(c), ByFieldDesc(CategoryField(c))));
      k := k + 1;
    }
    WinnersExt(w, SortBuckets(grouped));
  }

  /** Two winner records with the same five buckets are equal. */
  lemma WinnersExt(a: Winners, b: Winners)
    requires forall j :: 0 <= j < |AllCategories| ==> a.Get(AllCategories[j]) == b.Get(AllCategories[j])
    ensures a == b
  {
    assert a.Get(AllCategories[0]) == b.Get(AllCategories[0]);
    assert a.Get(AllCategories[1]) == b.Get(AllCategories[1]);
    assert a.Get(AllCategories[2]) == b.Get(AllCategories[2]);
    assert a.Get(AllCategories[3]) == b.Get(AllCategories[3]);
    assert a.Get(AllCategories[4]) == b.Get(AllCategories[4]);
  }

  /** What `loadData` builds from the three grids when the cache misses;
      `stamp` is the `generatedAt` time text. */
  function BuildSpec(reg: Table, lb: Table, win: Table, number: string -> real, stamp: string): Result<LoadedData, string> {
    match ParseRegistrants(reg, number)
    case Failure(e) => Failure(e)
    case Success(registrants) =>
      match ParseLeaderboard(lb, number)
      case Failure(e) => Failure(e)
      case Success(lbRows) => Assemble(registrants, lbRows, win, stamp)
  }

  /** The part of the build after the two parses. */
  function Assemble(registrants: seq<Registrant>, lbRows: seq<LeaderboardRow>, win: Table, stamp: string): Result<LoadedData, string> {
    if win == [] then Failure("TypeError: the winners table has no header row")
    else
      var beers := MergeSpec(lbRows, IndexById(registrants));
      match GroupSpec(win[1..], WinnerColumnsOf(win[0]), beers)
      case Failure(e) => Failure(e)
      case Success(w) => Success(LoadedData(SortBy(beers.Values(), OverallThenTotal()), SortBuckets(w), stamp))
  }

  /** Without a header row in each of the three grids the build throws. */
  lemma BuildNeedsHeaders(reg: Table, lb: Table, win: Table, number: string -> real, stamp: string)
    requires reg == [] || lb == [] || win == []
    ensures BuildSpec(reg, lb, win, number, stamp).Failure?
  {
  }

  /** With a winners header row present, the build fails exactly when an
      accepted winners row names an unknown category. */
  lemma AssembleFails(registrants: seq<Registrant>, lbRows: seq<LeaderboardRow>, win: Table, stamp: string)
    requires win != []
    ensures Assemble(registrants, lbRows, win, stamp).Failure? <==>
      exists row :: row in win[1..] && Unknown(row, WinnerColumnsOf(win[0]), MergeSpec(lbRows, IndexById(registrants)))
  {
    var beers := MergeSpec(lbRows, IndexById(registrants));
    var cols := WinnerColumnsOf(win[0]);
    GroupSpecBuckets(win[1..], cols, beers);
    if GroupSpec(win[1..], cols, beers).Failure? {
      var i :| 0 <= i < |win[1..]| && Unknown(win[1..][i], cols, beers);
      assert win[1..][i] in win[1..];
    }
  }

  /** On success the beer list is a permutation of the merged beers and
      every bucket a permutation of the beers of its winners rows. */
  lemma AssembleContents(registrants: seq<Registrant>, lbRows: seq<LeaderboardRow>, win: Table, stamp: string, c: Category)
    requires win != [] && Assemble(registrants, lbRows, win, stamp).Success?
    ensures
      var beers := MergeSpec(lbRows, IndexById(registrants));
      var cols := WinnerColumnsOf(win[0]);
      var d := Assemble(registrants, lbRows, win, stamp).value;
      && multiset(d.beerList) == multiset(beers.Values())
      && d.generatedAt == stamp
      && multiset(d.winners.Get(c))
         == multiset(MapSeq(Filter(win[1..], (row: Row) => InBucket(row, cols, beers, c)), BeerOfRow(cols, beers)))
  {
    var beers := MergeSpec(lbRows, IndexById(registrants));
    var cols := WinnerColumnsOf(win[0]);
    var g := GroupSpec(win[1..], cols, beers).value;
    GroupSpecBuckets(win[1..], cols, beers);
    SortByPerm(beers.Values(), OverallThenTotal());
    SortByPerm(g.Get(c), ByFieldDesc(CategoryField(c)));
  }

  /** The build part of `loadData` after the three grids are fetched:
      parse, merge, group, sort each bucket in turn, sort the beer list. */
  method Build(reg: Table, lb: Table, win: Table, number: string -> real, stamp: string)
    returns (r: Result<LoadedData, string>)
    ensures r == BuildSpec(reg, lb, win, number, stamp)
  {
    var registrants := ParseRegistrants(reg, number);
    if registrants.Failure? {
      return Failure(registrants.error);
    }
    var lbRows := ParseLeaderboard(lb, number);
    if lbRows.Failure? {
      return Failure(lbRows.error);
    }
    var beers := MergeBeers(lbRows.value, IndexById(registrants.value));
    if win == [] {
      return Failure("TypeError: the winners table has no header row");
    }
    var grouped := GroupWinners(win[1..], WinnerColumnsOf(win[0]), beers);
    if grouped.Failure? {
      return Failure(grouped.error);
    }
    var w := SortEachBucket(grouped.value);
    var beerList := SortBy(beers.Values(), OverallThenTotal());
    r := Success(LoadedData(beerList, w, stamp));
  }

  /** `loadData`. A fresh cached result under `CacheKey` is returned at once.
      Otherwise the three fetched texts are turned into grids and built, and
      a successful result is cached. `readAt` and `savedAt` are the clock
      at the lookup and at the save; `writeSucceeds` says whether the
      persistent store accepts the write. */
  method LoadData(cache: Cache.TwoTierCache<LoadedData>, readAt: int, regText: string, lbText: string,
                  winText: string, number: string -> real, stamp: string, savedAt: int, writeSucceeds: bool)
    returns (r: Result<LoadedData, string>)
    modifies cache
    ensures var hit := Cache.GetSpec(old(cache.memory), old(cache.store), old(cache.storeAvailable), CacheKey, CacheMaxAge, readAt);
      && (hit.result.Some? ==>
            r == Success(hit.result.value) && cache.memory == hit.memory && cache.store == old(cache.store))
      && (hit.result.None? ==>
            && r == BuildSpec(ParseTsv(regText), ParseTsv(lbText), ParseTsv(winText), number, stamp)
            && (r.Failure? ==> cache.memory == hit.memory && cache.store == old(cache.store))
            && (r.Success? ==>
                  && cache.memory == hit.memory[CacheKey := Cache.Entry(r.value, savedAt)]
                  && cache.store == if old(cache.storeAvailable) && writeSucceeds
                                    then old(cache.store)[CacheKey := Cache.Intact(Cache.Entry(r.value, savedAt))]
                                    else old(cache.store)))
    ensures cache.storeAvailable == old(cache.storeAvailable)
  {
    var cached := cache.GetCached(CacheKey, CacheMaxAge, readAt);
    if cached.Some? {
      return Success(cached.value);
    }
    var reg := ParseTsv(regText);
    var lb := ParseTsv(lbText);
    var win := ParseTsv(winText);
    r := Build(reg, lb, win, number, stamp);
    if r.Success? {
      cache.SetCached(CacheKey, r.value, savedAt, writeSucceeds);
    }
  }
}
