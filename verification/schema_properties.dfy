/**
 * What `parseSchema` computes, stated without its loop: the schema splits into segments, each
 * opened by a table header and closed by the next header or by a terminator; every closed
 * segment becomes one table, a segment still open at the end of the file is dropped, and a
 * column definition outside any segment is an error. The state machine of `SchemaParser` is
 * proved to agree with this reading, and the columns of a table are characterised.
 */
module SchemaProperties {
  import opened Wrappers
  import opened PhpStrings
  import opened PhpArrays
  import opened SchemaParser

  /** A row that ends the open table: another header or a terminator. */
  predicate IsBoundary(k: LineKind) {
    k.Header? || k.TableEnd?
  }

  /** The first boundary at or after `i`, or `|ks|` when there is none. */
  function NextBoundary(ks: seq<LineKind>, i: nat): (e: nat)
    requires i <= |ks|
    ensures i <= e <= |ks|
    ensures forall j :: i <= j < e ==> !IsBoundary(ks[j])
    ensures e < |ks| ==> IsBoundary(ks[e])
    decreases |ks| - i
  {
    if i == |ks| || IsBoundary(ks[i]) then i else NextBoundary(ks, i + 1)
  }

  /** The columns a segment defines, applied in order to `cols` (each definition is `$columns[$name] = ...`). */
  function ColumnsOf(cols: PhpArray<string>, ks: seq<LineKind>): PhpArray<string>
    decreases |ks|
  {
    if ks == [] then cols
    else
      var last := ks[|ks| - 1];
      var before := ColumnsOf(cols, ks[..|ks| - 1]);
      if last.ColumnDef? then Set(before, last.name, last.attributes) else before
  }

  function Prepend(t: TableEntity, r: Result<seq<TableEntity>, ParseError>): Result<seq<TableEntity>, ParseError> {
    match r
    case Success(ts) => Success([t] + ts)
    case Failure(e) => Failure(e)
  }

  /**
   * The tables of `ks` read segment by segment, `ks` starting outside any table at row `line`.
   * A header's segment runs to the next boundary; a terminator is consumed with it, a header
   * opens the next segment.
   */
  function Tables(ks: seq<LineKind>, line: nat): Result<seq<TableEntity>, ParseError>
    decreases |ks|
  {
    if ks == [] then Success([])
    else
      match ks[0]
      case Header(name) =>
        var e := NextBoundary(ks, 1);
        if e == |ks| then Success([])
        else
          var t := TableEntity(name, ColumnsOf([], ks[1..e]));
          if ks[e].Header? then Prepend(t, Tables(ks[e..], line + e))
          else Prepend(t, Tables(ks[e + 1..], line + e + 1))
      case ColumnDef(_, _) => Failure(ColumnOutsideTable(line))
      case TableEnd => Tables(ks[1..], line + 1)
      case Ignored => Tables(ks[1..], line + 1)
  }

  /*
   * ---------------------------------------------------------------- the loop agrees with the segments
   */

  /** Running over `a + b` is running over `a`, then over `b` from where `a` left off. */
  lemma {:induction false} RunAppend(st: ParseState, a: seq<LineKind>, b: seq<LineKind>, line: nat)
    ensures Run(st, a + b, line) ==
      match Run(st, a, line)
      case Failure(e) => Failure(e)
      case Success(mid) => Run(mid, b, line + |a|)
    decreases |a|
  {
    if a == [] {
      assert a + b == b;
    } else {
      assert (a + b)[0] == a[0] && (a + b)[1..] == a[1..] + b;
      match Step(st, a[0], line)
      case Failure(_) =>
      case Success(next) => RunAppend(next, a[1..], b, line + 1);
    }
  }

  /** Inside an open table, rows up to the next boundary only add columns to it. */
  lemma {:induction false} RunInside(acc: seq<TableEntity>, t: TableEntity, ks: seq<LineKind>, line: nat)
    requires forall j :: 0 <= j < |ks| ==> !IsBoundary(ks[j])
    ensures Run(ParseState(Some(t), acc), ks, line) ==
            Success(ParseState(Some(t.(columns := ColumnsOf(t.columns, ks))), acc))
  {
    if ks != [] {
      var init, last := ks[..|ks| - 1], ks[|ks| - 1];
      assert ks == init + [last];
      RunInside(acc, t, init, line);
      RunAppend(ParseState(Some(t), acc), init, [last], line);
      var mid := t.(columns := ColumnsOf(t.columns, init));
      assert Run(ParseState(Some(mid), acc), [last], line + |init|) ==
             Step(ParseState(Some(mid), acc), last, line + |init|);
    }
  }

  /** A header opens a table that collects the columns up to the next boundary. */
  lemma RunHeaderSegment(acc: seq<TableEntity>, ks: seq<LineKind>, line: nat)
    requires ks != [] && ks[0].Header?
    ensures var e := NextBoundary(ks, 1);
            Run(ParseState(None, acc), ks, line) ==
            Run(ParseState(Some(TableEntity(ks[0].tableName, ColumnsOf([], ks[1..e]))), acc), ks[e..], line + e)
  {
    var e := NextBoundary(ks, 1);
    var open := TableEntity(ks[0].tableName, []);
    RunFirstStep(ParseState(None, acc), ks, line);
    assert ks[1..] == ks[1..e] + ks[e..];
    RunAppend(ParseState(Some(open), acc), ks[1..e], ks[e..], line + 1);
    RunInside(acc, open, ks[1..e], line + 1);
  }

  /** The finished tables of a run, or its error. */
  function TablesOf(r: Result<ParseState, ParseError>): Result<seq<TableEntity>, ParseError> {
    match r
    case Success(st) => Success(st.tables)
    case Failure(e) => Failure(e)
  }

  function Append(acc: seq<TableEntity>, r: Result<seq<TableEntity>, ParseError>): Result<seq<TableEntity>, ParseError> {
    match r
    case Success(ts) => Success(acc + ts)
    case Failure(e) => Failure(e)
  }

  /** From outside any table with `acc` finished, the loop finishes `acc` followed by the segments' tables. */
  lemma {:induction false} RunOutside(acc: seq<TableEntity>, ks: seq<LineKind>, line: nat)
    ensures TablesOf(Run(ParseState(None, acc), ks, line)) == Append(acc, Tables(ks, line))
    decreases |ks|, 2
  {
    if ks == [] {
      assert acc + [] == acc;
    } else {
      RunFirstStep(ParseState(None, acc), ks, line);
      match ks[0]
      case Header(_) => RunOutsideHeader(acc, ks, line);
      case ColumnDef(_, _) =>
      case TableEnd => RunOutside(acc, ks[1..], line + 1);
      case Ignored => RunOutside(acc, ks[1..], line + 1);
    }
  }

  lemma {:induction false} RunOutsideHeader(acc: seq<TableEntity>, ks: seq<LineKind>, line: nat)
    requires ks != [] && ks[0].Header?
    ensures TablesOf(Run(ParseState(None, acc), ks, line)) == Append(acc, Tables(ks, line))
    decreases |ks|, 1
  {
    var e := NextBoundary(ks, 1);
    RunHeaderSegment(acc, ks, line);
    if e == |ks| {
      assert acc + [] == acc;
    } else if ks[e].Header? {
      RunOutsideClosedByHeader(acc, ks, line);
    } else {
      RunOutsideClosedByEnd(acc, ks, line);
    }
  }

  /** A table closed by the next header: the loop goes on from that header, outside any table. */
  lemma {:induction false} RunOutsideClosedByHeader(acc: seq<TableEntity>, ks: seq<LineKind>, line: nat)
    requires ks != [] && ks[0].Header?
    requires NextBoundary(ks, 1) < |ks| && ks[NextBoundary(ks, 1)].Header?
    ensures TablesOf(Run(ParseState(None, acc), ks, line)) == Append(acc, Tables(ks, line))
    decreases |ks|, 0
  {
    var e := NextBoundary(ks, 1);
    var t := TableEntity(ks[0].tableName, ColumnsOf([], ks[1..e]));
    RunHeaderSegment(acc, ks, line);
    TablesOfHeader(ks, line);
    CloseAtBoundary(acc, t, ks[e..], line + e);
    RunOutside(acc + [t], ks[e..], line + e);
    AppendPrepend(acc, t, Tables(ks[e..], line + e));
  }

  /** A table closed by a terminator: the loop goes on after it, outside any table. */
  lemma {:induction false} RunOutsideClosedByEnd(acc: seq<TableEntity>, ks: seq<LineKind>, line: nat)
    requires ks != [] && ks[0].Header?
    requires NextBoundary(ks, 1) < |ks| && ks[NextBoundary(ks, 1)].TableEnd?
    ensures TablesOf(Run(ParseState(None, acc), ks, line)) == Append(acc, Tables(ks, line))
    decreases |ks|, 0
  {
    var e := NextBoundary(ks, 1);
    var t := TableEntity(ks[0].tableName, ColumnsOf([], ks[1..e]));
    RunHeaderSegment(acc, ks, line);
    TablesOfHeader(ks, line);
    CloseAtBoundary(acc, t, ks[e..], line + e);
    assert ks[e..][1..] == ks[e + 1..];
    RunOutside(acc + [t], ks[e + 1..], line + e + 1);
    AppendPrepend(acc, t, Tables(ks[e + 1..], line + e + 1));
  }

  /**
   * At a boundary the open table is finished: a header then opens the next table from outside,
   * a terminator is consumed.
   */
  lemma CloseAtBoundary(acc: seq<TableEntity>, t: TableEntity, ks: seq<LineKind>, line: nat)
    requires ks != [] && IsBoundary(ks[0])
    ensures Run(ParseState(Some(t), acc), ks, line) ==
            if ks[0].Header? then Run(ParseState(None, acc + [t]), ks, line)
            else Run(ParseState(None, acc + [t]), ks[1..], line + 1)
  {
    RunFirstStep(ParseState(Some(t), acc), ks, line);
    if ks[0].Header? {
      RunFirstStep(ParseState(None, acc + [t]), ks, line);
    }
  }

  /** The segment reading of a header row closed by a later boundary. */
  lemma TablesOfHeader(ks: seq<LineKind>, line: nat)
    requires ks != [] && ks[0].Header?
    requires NextBoundary(ks, 1) < |ks|
    ensures var e := NextBoundary(ks, 1);
            var t := TableEntity(ks[0].tableName, ColumnsOf([], ks[1..e]));
            Tables(ks, line) == if ks[e].Header? then Prepend(t, Tables(ks[e..], line + e))
                                else Prepend(t, Tables(ks[e + 1..], line + e + 1))
  {
  }

  lemma AppendPrepend(acc: seq<TableEntity>, t: TableEntity, r: Result<seq<TableEntity>, ParseError>)
    ensures Append(acc + [t], r) == Append(acc, Prepend(t, r))
  {
    if r.Success? {
      assert acc + [t] + r.value == acc + ([t] + r.value);
    }
  }

  /** `parseSchema`'s result is the segment reading of the classified rows. */
  lemma ParseBySegments(rows: seq<string>, rev: Revision)
    ensures Parse(rows, rev) == Tables(Kinds(rows, rev), 0)
  {
    RunOutside([], Kinds(rows, rev), 0);
    if Tables(Kinds(rows, rev), 0).Success? {
      assert [] + Tables(Kinds(rows, rev), 0).value == Tables(Kinds(rows, rev), 0).value;
    }
  }

  /*
   * ---------------------------------------------------------------- which tables come out
   */

  predicate HasBoundary(ks: seq<LineKind>) {
    exists j :: 0 <= j < |ks| && IsBoundary(ks[j])
  }

  /** The names of the headers that some later boundary closes, in file order. */
  function ClosedHeaders(ks: seq<LineKind>): seq<string>
    decreases |ks|
  {
    if ks == [] then []
    else (if ks[0].Header? && HasBoundary(ks[1..]) then [ks[0].tableName] else []) + ClosedHeaders(ks[1..])
  }

  function Names(ts: seq<TableEntity>): (names: seq<string>)
    ensures |names| == |ts|
    ensures forall i :: 0 <= i < |ts| ==> names[i] == ts[i].tableName
  {
    seq(|ts|, i requires 0 <= i < |ts| => ts[i].tableName)
  }

  lemma {:induction false} SkipInside(ks: seq<LineKind>, i: nat, e: nat)
    requires i <= e <= |ks|
    requires forall j :: i <= j < e ==> !IsBoundary(ks[j])
    ensures ClosedHeaders(ks[i..]) == ClosedHeaders(ks[e..])
    decreases e - i
  {
    if i < e {
      assert ks[i..][1..] == ks[i + 1..];
      SkipInside(ks, i + 1, e);
    }
  }

  /** A header counts when a boundary follows it; the rows of its segment add no name. */
  lemma ClosedHeadersOfHeader(ks: seq<LineKind>)
    requires ks != [] && ks[0].Header?
    ensures var e := NextBoundary(ks, 1);
            && (e == |ks| ==> ClosedHeaders(ks) == [])
            && (e < |ks| && ks[e].Header? ==> ClosedHeaders(ks) == [ks[0].tableName] + ClosedHeaders(ks[e..]))
            && (e < |ks| && ks[e].TableEnd? ==> ClosedHeaders(ks) == [ks[0].tableName] + ClosedHeaders(ks[e + 1..]))
  {
    if NextBoundary(ks, 1) == |ks| {
      UnclosedHeader(ks);
    } else {
      ClosedHeader(ks);
    }
  }

  lemma UnclosedHeader(ks: seq<LineKind>)
    requires ks != [] && ks[0].Header? && NextBoundary(ks, 1) == |ks|
    ensures ClosedHeaders(ks) == []
  {
    SkipInside(ks, 1, |ks|);
    assert !HasBoundary(ks[1..]);
    assert ks[|ks|..] == [];
  }

  lemma ClosedHeader(ks: seq<LineKind>)
    requires ks != [] && ks[0].Header? && NextBoundary(ks, 1) < |ks|
    ensures var e := NextBoundary(ks, 1);
            && ClosedHeaders(ks) == [ks[0].tableName] + ClosedHeaders(ks[e..])
            && (ks[e].TableEnd? ==> ClosedHeaders(ks[e..]) == ClosedHeaders(ks[e + 1..]))
  {
    var e := NextBoundary(ks, 1);
    SkipInside(ks, 1, e);
    assert ks[1..][e - 1] == ks[e];
    assert HasBoundary(ks[1..]);
    assert ks[e..][1..] == ks[e + 1..];
  }


  /**
   * The tables come out in the order of their headers, one for each header that a later
   * header or terminator closes: a table still open at the end of the file is dropped.
   */
  lemma {:induction false} TableNamesAreClosedHeaders(ks: seq<LineKind>, line: nat)
    requires Tables(ks, line).Success?
    ensures Names(Tables(ks, line).value) == ClosedHeaders(ks)
    decreases |ks|, 1
  {
    if ks != [] {
      match ks[0]
      case Header(_) => HeaderTableNames(ks, line);
      case ColumnDef(_, _) =>
      case TableEnd => TableNamesAreClosedHeaders(ks[1..], line + 1);
      case Ignored => TableNamesAreClosedHeaders(ks[1..], line + 1);
    }
  }

  lemma {:induction false} HeaderTableNames(ks: seq<LineKind>, line: nat)
    requires ks != [] && ks[0].Header?
    requires Tables(ks, line).Success?
    ensures Names(Tables(ks, line).value) == ClosedHeaders(ks)
    decreases |ks|, 0
  {
    var e := NextBoundary(ks, 1);
    ClosedHeadersOfHeader(ks);
    if e < |ks| {
      var t := TableEntity(ks[0].tableName, ColumnsOf([], ks[1..e]));
      var next := if ks[e].Header? then ks[e..] else ks[e + 1..];
      var nextLine := if ks[e].Header? then line + e else line + e + 1;
      TablesOfHeader(ks, line);
      var rest := Tables(next, nextLine);
      assert Tables(ks, line) == Prepend(t, rest);
      TableNamesAreClosedHeaders(next, nextLine);
      NamesCons(t, rest.value);
    }
  }

  lemma NamesCons(t: TableEntity, ts: seq<TableEntity>)
    ensures Names([t] + ts) == [t.tableName] + Names(ts)
  {
  }

  /*
   * ---------------------------------------------------------------- the columns of a table
   */

  /** The names of the column definitions of `ks`, in order, repeats included. */
  function DefinedNames(ks: seq<LineKind>): seq<string>
    decreases |ks|
  {
    if ks == [] then []
    else
      var last := ks[|ks| - 1];
      DefinedNames(ks[..|ks| - 1]) + (if last.ColumnDef? then [last.name] else [])
  }

  /** The attributes of the last definition of column `name` in `ks`. */
  function LastDefinition(ks: seq<LineKind>, name: string): Option<string>
    decreases |ks|
  {
    if ks == [] then None
    else
      var last := ks[|ks| - 1];
      if last.ColumnDef? && last.name == name then Some(last.attributes)
      else LastDefinition(ks[..|ks| - 1], name)
  }

  /**
   * A table's columns: each defined name once, in the order of its first definition, holding
   * the attributes of its last definition.
   */
  lemma ColumnsOfSpec(ks: seq<LineKind>)
    ensures UniqueKeys(ColumnsOf([], ks))
    ensures Keys(ColumnsOf([], ks)) == Distinct(DefinedNames(ks))
    ensures forall name :: Get(ColumnsOf([], ks), name) == LastDefinition(ks, name)
  {
    ColumnsOfKeys(ks);
    forall name {
      ColumnsOfValues(ks, name);
    }
  }

  lemma {:induction false} ColumnsOfKeys(ks: seq<LineKind>)
    ensures UniqueKeys(ColumnsOf([], ks))
    ensures Keys(ColumnsOf([], ks)) == Distinct(DefinedNames(ks))
    decreases |ks|
  {
    if ks != [] {
      var init, last := ks[..|ks| - 1], ks[|ks| - 1];
      ColumnsOfKeys(init);
      var before := ColumnsOf([], init);
      if last.ColumnDef? {
        SetKeys(before, last.name, last.attributes);
        SetUnique(before, last.name, last.attributes);
        var names := DefinedNames(ks);
        assert names[..|names| - 1] == DefinedNames(init) && names[|names| - 1] == last.name;
        assert last.name in Keys(before) <==> last.name in DefinedNames(init);
      } else {
        assert DefinedNames(ks) == DefinedNames(init) + [] == DefinedNames(init);
      }
    }
  }

  lemma {:induction false} ColumnsOfValues(ks: seq<LineKind>, name: string)
    ensures Get(ColumnsOf([], ks), name) == LastDefinition(ks, name)
    decreases |ks|
  {
    if ks != [] {
      var init, last := ks[..|ks| - 1], ks[|ks| - 1];
      ColumnsOfValues(init, name);
      if last.ColumnDef? {
        SetValues(ColumnsOf([], init), last.name, last.attributes);
      }
    }
  }

  /** Every table `parseSchema` returns has each column once. */
  lemma {:induction false} TablesHaveUniqueColumns(ks: seq<LineKind>, line: nat)
    requires Tables(ks, line).Success?
    ensures forall t :: t in Tables(ks, line).value ==> UniqueKeys(t.columns)
    decreases |ks|, 1
  {
    if ks != [] {
      match ks[0]
      case Header(_) => HeaderTablesHaveUniqueColumns(ks, line);
      case ColumnDef(_, _) =>
      case TableEnd => TablesHaveUniqueColumns(ks[1..], line + 1);
      case Ignored => TablesHaveUniqueColumns(ks[1..], line + 1);
    }
  }

  lemma {:induction false} HeaderTablesHaveUniqueColumns(ks: seq<LineKind>, line: nat)
    requires ks != [] && ks[0].Header?
    requires Tables(ks, line).Success?
    ensures forall t :: t in Tables(ks, line).value ==> UniqueKeys(t.columns)
    decreases |ks|, 0
  {
    var e := NextBoundary(ks, 1);
    if e < |ks| {
      var t := TableEntity(ks[0].tableName, ColumnsOf([], ks[1..e]));
      var next := if ks[e].Header? then ks[e..] else ks[e + 1..];
      var nextLine := if ks[e].Header? then line + e else line + e + 1;
      TablesOfHeader(ks, line);
      var rest := Tables(next, nextLine);
      assert Tables(ks, line) == Prepend(t, rest);
      ColumnsOfKeys(ks[1..e]);
      TablesHaveUniqueColumns(next, nextLine);
    }
  }

  /*
   * ---------------------------------------------------------------- the two header patterns
   */

  /** The newer header pattern is the stricter one: whatever it recognises, the older one recognises alike. */
  lemma CurrentHeaderIsLegacyHeader(row: string)
    ensures GetTableName(row, Current).Some? ==> GetTableName(row, Legacy) == GetTableName(row, Current)
  {
    if GetTableName(row, Current).Some? {
      var b := LastIndexOf(row[..|row| - 3], '`').value;
      var pre := row[..b];
      assert OccursAtIgnoreCase(pre, CreateTable, SkipWhile(pre, 0, IsSpace));
    }
  }
}
