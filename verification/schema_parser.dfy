/**
 * The line-by-line `CREATE TABLE` parser that both revisions of the generator share
 * (lib/EntityGenerator.php and the older EntityGenerator.php): recognising a table header,
 * a column definition and a statement terminator, inferring a column's PHP type, and the
 * single-pass state machine `parseSchema`. The revisions differ only in the header pattern.
 *
 * A row is one line of the schema file with its line terminator removed.
 */
module SchemaParser {
  import opened Wrappers
  import opened PhpStrings
  import opened PhpArrays

  /** Which revision's header pattern is in force. */
  datatype Revision =
    | Current  // lib/EntityGenerator.php: `/^\s*create table.*`(.*)` \($/i`
    | Legacy   // EntityGenerator.php:     `/^.*create table.*`(.*)` \($/i`

  const CreateTable: string := "create table"

  /** What a header row ends with: the closing back-quote of the name, a space, an opening parenthesis. */
  const HeaderEnd: string := "` ("

  /*
   * ---------------------------------------------------------------- table header
   */

  /**
   * What the header pattern accepts before the back-quote that opens the table name:
   * optional blanks then "create table" (Current), or "create table" anywhere (Legacy),
   * in any letter case, followed by anything.
   */
  predicate HeaderPrefix(rev: Revision, pre: string) {
    match rev
    case Current => OccursAtIgnoreCase(pre, CreateTable, SkipWhile(pre, 0, IsSpace))
    case Legacy => ContainsIgnoreCase(pre, CreateTable)
  }

  /** `row` reads `pre`, a back-quote, `name`, "` (" with `name` free of back-quotes. */
  predicate IsHeaderSplit(rev: Revision, row: string, pre: string, name: string) {
    && row == pre + "`" + name + HeaderEnd
    && (forall k :: 0 <= k < |name| ==> name[k] != '`')
    && HeaderPrefix(rev, pre)
  }

  /**
   * `getTableName`: the name the header pattern captures, or `None` (PHP `false`). The greedy
   * `.*` before the name makes the capture the text after the LAST back-quote that precedes
   * the closing "` (", so the name never holds a back-quote.
   */
  function GetTableName(row: string, rev: Revision): (name: Option<string>)
  {
    if |row| < |HeaderEnd| || row[|row| - |HeaderEnd|..] != HeaderEnd then None
    else
      match LastIndexOf(row[..|row| - |HeaderEnd|], '`')
      case None => None
      case Some(b) => if HeaderPrefix(rev, row[..b]) then Some(row[b + 1..|row| - |HeaderEnd|]) else None
  }

  /** A recognised name comes from a row of the header shape, and carries no back-quote. */
  lemma HeaderNameSound(rev: Revision, row: string)
    requires GetTableName(row, rev).Some?
    ensures var name := GetTableName(row, rev).value;
            IsHeaderSplit(rev, row, row[..|row| - |name| - 4], name)
  {
    var b := LastIndexOf(row[..|row| - 3], '`').value;
    var name := GetTableName(row, rev).value;
    var pre := row[..|row| - |name| - 4];
    assert pre == row[..b] && HeaderPrefix(rev, pre);
    SplitAround(row, b, |row| - 3);
  }

  /** A row cut around a back-quote at `b` and at `e`, with "` (" from `e` on. */
  lemma SplitAround(row: string, b: nat, e: nat)
    requires b < e <= |row| && row[b] == '`' && row[e..] == HeaderEnd
    ensures row == row[..b] + "`" + row[b + 1..e] + HeaderEnd
  {
    assert row == row[..b] + [row[b]] + row[b + 1..e] + row[e..];
  }

  /** Every row of the header shape is recognised, with exactly that name. */
  lemma HeaderNameComplete(rev: Revision, row: string, pre: string, name: string)
    requires IsHeaderSplit(rev, row, pre, name)
    ensures GetTableName(row, rev) == Some(name)
  {
    var body := row[..|row| - 3];
    assert row[|row| - 3..] == HeaderEnd;
    assert body == pre + "`" + name;
    assert body[|pre|] == '`';
    var found := LastIndexOf(body, '`');
    assert found.Some?;
    var b := found.value;
    assert forall j :: b < j < |body| ==> body[j] != '`' by {
      assert forall j :: b < j < |body| ==> body[j] in body[b + 1..];
    }
    assert forall j :: |pre| < j < |body| ==> body[j] == name[j - |pre| - 1];
    assert b == |pre|;
    assert row[..b] == pre;
    assert row[b + 1..|row| - 3] == name;
  }

  /*
   * ---------------------------------------------------------------- column definition
   */

  predicate AllSpace(s: string) {
    forall i :: 0 <= i < |s| ==> IsSpace(s[i])
  }

  predicate AllWordChars(s: string) {
    forall i :: 0 <= i < |s| ==> IsWordChar(s[i])
  }

  /**
   * `row` reads as the column pattern `^\s*`(\w*)`\s+(.*)$` sees it: blanks `lead`, the
   * back-quoted `name`, blanks `gap` (at least one, all of them), then `rest`.
   */
  predicate IsColumnSplit(row: string, lead: string, name: string, gap: string, rest: string) {
    && row == lead + "`" + name + "`" + gap + rest
    && AllSpace(lead)
    && AllWordChars(name)
    && |gap| >= 1 && AllSpace(gap)
    && (rest == [] || !IsSpace(rest[0]))
  }

  /** The column pattern: the captured name and the captured rest of the row, or `None`. */
  function MatchColumn(row: string): Option<(string, string)> {
    var i := SkipWhile(row, 0, IsSpace);
    if i < |row| && row[i] == '`' then
      var j := SkipWhile(row, i + 1, IsWordChar);
      if j < |row| && row[j] == '`' then
        var k := SkipWhile(row, j + 1, IsSpace);
        if k > j + 1 then Some((row[i + 1..j], row[k..])) else None
      else None
    else None
  }

  /** A recognised row has the column shape, with the captured name and rest. */
  lemma ColumnMatchSound(row: string)
    requires MatchColumn(row).Some?
    ensures exists lead, gap :: IsColumnSplit(row, lead, MatchColumn(row).value.0, gap, MatchColumn(row).value.1)
  {
    var i := SkipWhile(row, 0, IsSpace);
    var j := SkipWhile(row, i + 1, IsWordChar);
    var k := SkipWhile(row, j + 1, IsSpace);
    SplitAt3(row, i, j, k);
    assert AllSpace(row[..i]) && AllWordChars(row[i + 1..j]) && AllSpace(row[j + 1..k]);
    assert IsColumnSplit(row, row[..i], row[i + 1..j], row[j + 1..k], row[k..]);
  }

  lemma SplitAt3(row: string, i: nat, j: nat, k: nat)
    requires i < j < k <= |row|
    ensures row == row[..i] + [row[i]] + row[i + 1..j] + [row[j]] + row[j + 1..k] + row[k..]
  {
    assert row[i..] == [row[i]] + row[i + 1..j] + [row[j]] + row[j + 1..k] + row[k..];
    assert row == row[..i] + row[i..];
  }

  /** Every row of the column shape is recognised, with exactly that name and rest. */
  lemma ColumnMatchComplete(row: string, lead: string, name: string, gap: string, rest: string)
    requires IsColumnSplit(row, lead, name, gap, rest)
    ensures MatchColumn(row) == Some((name, rest))
  {
    var i, j, k := |lead|, |lead| + 1 + |name|, |lead| + 2 + |name| + |gap|;
    assert forall p :: 0 <= p < i ==> row[p] == lead[p];
    assert row[i] == '`';
    SkipWhileUnique(row, 0, IsSpace, i);
    assert forall p :: i + 1 <= p < j ==> row[p] == name[p - i - 1];
    assert row[j] == '`';
    SkipWhileUnique(row, i + 1, IsWordChar, j);
    assert forall p :: j + 1 <= p < k ==> row[p] == gap[p - j - 1];
    assert row[k..] == rest;
    SkipWhileUnique(row, j + 1, IsSpace, k);
    assert row[i + 1..j] == name;
  }

  /**
   * `getColumn($row, $resultType)`: `Success(None)` (PHP `false`) for a row that is not a
   * column definition, the name for "name", the rest trimmed of spaces and commas for "attr",
   * and an exception for any other result type, raised only when the row matched.
   */
  function GetColumn(row: string, resultType: string): (r: Result<Option<string>, string>)
    ensures r.Failure? <==> MatchColumn(row).Some? && resultType != "name" && resultType != "attr"
    ensures r == Success(None) <==> MatchColumn(row).None?
    ensures resultType == "name" && MatchColumn(row).Some? ==> r == Success(Some(MatchColumn(row).value.0))
    ensures resultType == "attr" && MatchColumn(row).Some? ==> r == Success(Some(Trim(MatchColumn(row).value.1)))
  {
    match MatchColumn(row)
    case None => Success(None)
    case Some((name, rest)) =>
      if resultType == "name" then Success(Some(name))
      else if resultType == "attr" then Success(Some(Trim(rest)))
      else Failure("Invalid type '" + resultType + "' given.")
  }

  /** `getColumnName`. */
  function GetColumnName(row: string): (name: Option<string>)
    ensures name.Some? <==> MatchColumn(row).Some?
    ensures name.Some? ==> name.value == MatchColumn(row).value.0
  {
    match GetColumn(row, "name")
    case Success(name) => name
    case Failure(_) => None
  }

  /*
   * ---------------------------------------------------------------- type inference
   */

  /** The ordered table `identifyVarType` searches: PHP type, then the SQL types that map to it. */
  const TypeTable: seq<(string, seq<string>)> := [
    ("string", ["CHAR", "VARCHAR", "TINYTEXT", "TEXT", "BLOB", "MEDIUMTEXT", "MEDIUMBLOB",
                "LONGTEXT", "LONGBLOB", "ENUM", "SET", "TIME"]),
    ("int", ["TINYINT", "SMALLINT", "MEDIUMINT", "INT", "BIGINT", "TIMESTAMP", "YEAR"]),
    ("float", ["FLOAT", "DOUBLE", "DECIMAL"]),
    ("\\DateTime", ["DATE", "DATETIME"])
  ]

  /** `explode(" ", $s)[0]`: the longest prefix of `s` without a space. */
  function FirstToken(s: string): (t: string)
    ensures |t| <= |s| && t == s[..|t|]
    ensures ' ' !in t
    ensures |t| < |s| ==> s[|t|] == ' '
  {
    if s == [] || s[0] == ' ' then [] else [s[0]] + FirstToken(s[1..])
  }

  /** The first token ends at the first space, wherever that is found. */
  lemma {:induction false} FirstTokenUnique(s: string, k: nat)
    requires k <= |s| && (forall i :: 0 <= i < k ==> s[i] != ' ') && (k == |s| || s[k] == ' ')
    ensures FirstToken(s) == s[..k]
  {
    if k > 0 {
      FirstTokenUnique(s[1..], k - 1);
      assert s[..k] == [s[0]] + s[1..][..k - 1];
    }
  }

  /** What may follow the type name in `'/^' . $colType . '\s*(\(.*\))?$/i'`: blanks, then nothing or "(...)". */
  predicate IsSizeSuffix(t: string) {
    var u := t[SkipWhile(t, 0, IsSpace)..];
    u == [] || (|u| >= 2 && u[0] == '(' && u[|u| - 1] == ')')
  }

  /** The pattern `identifyVarType` builds for `colType`, applied to `token`. */
  predicate MatchesColumnType(token: string, colType: string) {
    && |colType| <= |token|
    && EqualsIgnoreCase(token[..|colType|], colType)
    && IsSizeSuffix(token[|colType|..])
  }

  predicate AnyTypeMatches(token: string, colTypes: seq<string>) {
    colTypes != [] && (MatchesColumnType(token, colTypes[0]) || AnyTypeMatches(token, colTypes[1..]))
  }

  lemma {:induction false} AnyTypeMatchesSpec(token: string, colTypes: seq<string>)
    ensures AnyTypeMatches(token, colTypes) <==> exists t :: 0 <= t < |colTypes| && MatchesColumnType(token, colTypes[t])
  {
    if colTypes != [] {
      AnyTypeMatchesSpec(token, colTypes[1..]);
      assert forall t :: 1 <= t < |colTypes| ==> colTypes[t] == colTypes[1..][t - 1];
      if AnyTypeMatches(token, colTypes[1..]) {
        var t :| 0 <= t < |colTypes[1..]| && MatchesColumnType(token, colTypes[1..][t]);
        assert MatchesColumnType(token, colTypes[t + 1]);
      }
    }
  }

  /**
   * The first group of `table` with a type that `token` matches decides the PHP type;
   * no matching group gives none.
   */
  function FirstMatch(token: string, table: seq<(string, seq<string>)>): (r: Option<string>)
    ensures r.None? <==> forall g :: 0 <= g < |table| ==> !AnyTypeMatches(token, table[g].1)
    ensures r.Some? ==> exists g :: && 0 <= g < |table| && table[g].0 == r.value
                                    && AnyTypeMatches(token, table[g].1)
                                    && forall h :: 0 <= h < g ==> !AnyTypeMatches(token, table[h].1)
  {
    if table == [] then None
    else if AnyTypeMatches(token, table[0].1) then Some(table[0].0)
    else
      var r := FirstMatch(token, table[1..]);
      assert forall g :: 1 <= g < |table| ==> table[g] == table[1..][g - 1];
      if r.Some? then
        var g :| && 0 <= g < |table[1..]| && table[1..][g].0 == r.value
                 && AnyTypeMatches(token, table[1..][g].1)
                 && forall h :: 0 <= h < g ==> !AnyTypeMatches(token, table[1..][h].1);
        assert forall h :: 0 <= h < g + 1 ==> !AnyTypeMatches(token, table[h].1);
        r
      else r
  }

  /** The PHP type `identifyVarType` gives a column's attributes, `None` for PHP `null`. */
  function InferType(columnAttributes: string): Option<string> {
    FirstMatch(FirstToken(columnAttributes), TypeTable)
  }

  /** `identifyVarType`: the nested search over the table, returning at the first match. */
  method IdentifyVarType(columnAttributes: string) returns (varType: Option<string>)
    ensures varType == InferType(columnAttributes)
  {
    var first := FirstToken(columnAttributes);
    var g := 0;
    while g < |TypeTable|
      invariant 0 <= g <= |TypeTable|
      invariant FirstMatch(first, TypeTable) == FirstMatch(first, TypeTable[g..])
    {
      var colTypes := TypeTable[g].1;
      var t := 0;
      while t < |colTypes|
        invariant 0 <= t <= |colTypes|
        invariant AnyTypeMatches(first, colTypes) == AnyTypeMatches(first, colTypes[t..])
      {
        if MatchesColumnType(first, colTypes[t]) {
          return Some(TypeTable[g].0);
        }
        t := t + 1;
      }
      assert TypeTable[g..][1..] == TypeTable[g + 1..];
      g := g + 1;
    }
    return None;
  }

  /** PHP's `$type . ' ' . $attributes` with a `null` type read as "". */
  function TypeName(varType: Option<string>): string {
    if varType.Some? then varType.value else ""
  }

  /**
   * `getColumnAttributes`: the inferred type, a space, the trimmed attributes. On a row that
   * is not a column definition `getColumn` gives `false`, which reads as "" here.
   */
  function ColumnAttributes(row: string): string {
    var attributes := match GetColumn(row, "attr") case Success(Some(a)) => a case _ => "";
    TypeName(InferType(attributes)) + " " + attributes
  }

  /** `getColumnAttributes` as the source runs it, through `identifyVarType`. */
  method GetColumnAttributes(row: string) returns (attributes: string)
    ensures attributes == ColumnAttributes(row)
  {
    var attr := "";
    var column := GetColumn(row, "attr");
    if column.Success? && column.value.Some? {
      attr := column.value.value;
    }
    var varType := IdentifyVarType(attr);
    attributes := TypeName(varType) + " " + attr;
  }

  /*
   * ---------------------------------------------------------------- statement terminator
   */

  /** `isTableEnd`: the row ends with a semicolon. */
  predicate IsTableEnd(row: string) {
    |row| > 0 && row[|row| - 1] == ';'
  }

  /*
   * ---------------------------------------------------------------- the state machine
   */

  /** `TableEntity`: a table name and its columns, column name to stored attributes. */
  datatype TableEntity = TableEntity(tableName: string, columns: PhpArray<string>)

  /** How `parseSchema` reads one row. */
  datatype LineKind =
    | Header(tableName: string)
    | ColumnDef(name: string, attributes: string)
    | TableEnd
    | Ignored

  /** A column definition with no open table: the PHP writes through `null` here. */
  datatype ParseError = ColumnOutsideTable(line: nat)

  /** The loop's variables: the table being read (`$tableEntity`) and the finished ones. */
  datatype ParseState = ParseState(current: Option<TableEntity>, tables: seq<TableEntity>)

  /**
   * The tests of `parseSchema` in their order: header first, then column, then terminator.
   * A captured name that PHP reads as false ("" or "0") fails its test.
   */
  function Classify(row: string, rev: Revision): LineKind {
    var tableName := GetTableName(row, rev);
    if tableName.Some? && PhpTruthy(tableName.value) then Header(tableName.value)
    else
      var columnName := GetColumnName(row);
      if columnName.Some? && PhpTruthy(columnName.value) then ColumnDef(columnName.value, ColumnAttributes(row))
      else if IsTableEnd(row) then TableEnd
      else Ignored
  }

  function Kinds(rows: seq<string>, rev: Revision): (kinds: seq<LineKind>)
    ensures |kinds| == |rows|
    ensures forall i :: 0 <= i < |rows| ==> kinds[i] == Classify(rows[i], rev)
  {
    seq(|rows|, i requires 0 <= i < |rows| => Classify(rows[i], rev))
  }

  /** The finished tables plus the open one, if any: what a header or a terminator leaves behind. */
  function Closed(st: ParseState): seq<TableEntity> {
    if st.current.Some? then st.tables + [st.current.value] else st.tables
  }

  /** One iteration of `parseSchema`'s loop on a row of the given kind, the row being number `line`. */
  function Step(st: ParseState, kind: LineKind, line: nat): Result<ParseState, ParseError> {
    match kind
    case Header(name) => Success(ParseState(Some(TableEntity(name, [])), Closed(st)))
    case ColumnDef(name, attributes) =>
      if st.current.None? then Failure(ColumnOutsideTable(line))
      else
        var t := st.current.value;
        Success(st.(current := Some(t.(columns := Set(t.columns, name, attributes)))))
    case TableEnd => Success(ParseState(None, Closed(st)))
    case Ignored => Success(st)
  }

  /** The loop run from state `st` over `kinds`, the first of them being row number `line`. */
  function Run(st: ParseState, kinds: seq<LineKind>, line: nat): Result<ParseState, ParseError>
    decreases |kinds|
  {
    if kinds == [] then Success(st)
    else
      match Step(st, kinds[0], line)
      case Failure(e) => Failure(e)
      case Success(next) => Run(next, kinds[1..], line + 1)
  }

  /** One row further: the first step, then the rest from the state it leaves. */
  lemma RunFirstStep(st: ParseState, ks: seq<LineKind>, line: nat)
    requires ks != []
    ensures Run(st, ks, line) ==
      match Step(st, ks[0], line)
      case Failure(e) => Failure(e)
      case Success(next) => Run(next, ks[1..], line + 1)
  {
  }

  /** The run from row `i` is the step on row `i`, then the run from row `i + 1`. */
  lemma RunStep(st: ParseState, ks: seq<LineKind>, i: nat)
    requires i < |ks|
    ensures Run(st, ks[i..], i) ==
      match Step(st, ks[i], i)
      case Failure(e) => Failure(e)
      case Success(next) => Run(next, ks[i + 1..], i + 1)
  {
    assert ks[i..][0] == ks[i] && ks[i..][1..] == ks[i + 1..];
  }

  const Start: ParseState := ParseState(None, [])

  /** What `parseSchema` returns: the finished tables; a table still open at the end is not among them. */
  function Parse(rows: seq<string>, rev: Revision): Result<seq<TableEntity>, ParseError> {
    match Run(Start, Kinds(rows, rev), 0)
    case Success(st) => Success(st.tables)
    case Failure(e) => Failure(e)
  }

  /**
   * The body of `parseSchema`'s loop for one row: the header test, then the column test, then
   * the terminator test, updating the open table and the finished ones.
   */
  method ParseRow(tableEntity: Option<TableEntity>, tableEntities: seq<TableEntity>, row: string, rev: Revision, line: nat,
                  ghost kind: LineKind)
    returns (r: Result<ParseState, ParseError>)
    requires kind == Classify(row, rev)
    ensures r == Step(ParseState(tableEntity, tableEntities), kind, line)
  {
    var current, finished := tableEntity, tableEntities;
    var tableName := GetTableName(row, rev);
    if tableName.Some? && PhpTruthy(tableName.value) {
      if current.Some? {
        finished := finished + [current.value];
        current := None;
      }
      current := Some(TableEntity(tableName.value, []));
    } else {
      var columnName := GetColumnName(row);
      if columnName.Some? && PhpTruthy(columnName.value) {
        if current.None? {
          return Failure(ColumnOutsideTable(line));
        }
        var attributes := GetColumnAttributes(row);
        var t := current.value;
        current := Some(t.(columns := Set(t.columns, columnName.value, attributes)));
      } else if IsTableEnd(row) {
        if current.Some? {
          finished := finished + [current.value];
          current := None;
        }
      }
    }
    return Success(ParseState(current, finished));
  }

  /** `parseSchema`: the loop over the rows with its mutable current table and result list. */
  method ParseSchema(rows: seq<string>, rev: Revision) returns (result: Result<seq<TableEntity>, ParseError>)
    ensures result == Parse(rows, rev)
  {
    ghost var kinds := Kinds(rows, rev);
    var tableEntity: Option<TableEntity> := None;
    var tableEntities: seq<TableEntity> := [];
    var i := 0;
    while i < |rows|
      invariant 0 <= i <= |rows|
      invariant Run(Start, kinds, 0) == Run(ParseState(tableEntity, tableEntities), kinds[i..], i)
    {
      var next := ParseRow(tableEntity, tableEntities, rows[i], rev, i, kinds[i]);
      RunStep(ParseState(tableEntity, tableEntities), kinds, i);
      if next.Failure? {
        return Failure(next.error);
      }
      tableEntity, tableEntities := next.value.current, next.value.tables;
      i := i + 1;
    }
    return Success(tableEntities);
  }
}
