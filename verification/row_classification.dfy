/**
 * How `parseSchema` sorts single rows: the header test comes first, then the column test, then
 * the terminator test, and a captured name that PHP reads as false ("" or "0") fails its test,
 * so the row falls through to the next one.
 */
module RowClassification {
  import opened Wrappers
  import opened PhpStrings
  import opened SchemaParser

  /** A header row of the current revision begins, after its blanks, with the "c" of "create table". */
  lemma CurrentHeaderStart(row: string, pre: string, name: string)
    requires IsHeaderSplit(Current, row, pre, name)
    ensures var s := SkipWhile(row, 0, IsSpace);
            s < |row| && ToLower(row[s]) == 'c'
  {
    var s := SkipWhile(pre, 0, IsSpace);
    assert ToLower(pre[s + 0]) == ToLower(CreateTable[0]);
    assert forall k :: 0 <= k < |pre| ==> row[k] == pre[k];
    SkipWhileUnique(row, 0, IsSpace, s);
  }

  /** A column row begins, after its blanks, with a back-quote. */
  lemma ColumnStart(row: string, lead: string, name: string, gap: string, rest: string)
    requires IsColumnSplit(row, lead, name, gap, rest)
    ensures var s := SkipWhile(row, 0, IsSpace);
            s < |row| && row[s] == '`'
  {
    assert forall k :: 0 <= k < |lead| ==> row[k] == lead[k];
    assert row[|lead|] == '`';
    SkipWhileUnique(row, 0, IsSpace, |lead|);
  }

  /** In the current revision no row is both a column definition and a table header. */
  lemma ColumnRowIsNotCurrentHeader(row: string, lead: string, name: string, gap: string, rest: string)
    requires IsColumnSplit(row, lead, name, gap, rest)
    ensures GetTableName(row, Current).None?
  {
    ColumnStart(row, lead, name, gap, rest);
    if GetTableName(row, Current).Some? {
      var n := GetTableName(row, Current).value;
      HeaderNameSound(Current, row);
      CurrentHeaderStart(row, row[..|row| - |n| - 4], n);
    }
  }

  /**
   * A column row in the current revision is a column definition with the type-prefixed, trimmed
   * attributes, even when it ends in ";"; only a column named "" or "0" falls through to the
   * terminator test.
   */
  lemma ColumnRowClassified(row: string, lead: string, name: string, gap: string, rest: string)
    requires IsColumnSplit(row, lead, name, gap, rest)
    ensures Classify(row, Current) ==
              if PhpTruthy(name) then ColumnDef(name, TypeName(InferType(Trim(rest))) + " " + Trim(rest))
              else if IsTableEnd(row) then TableEnd
              else Ignored
  {
    ColumnRowIsNotCurrentHeader(row, lead, name, gap, rest);
    ColumnMatchComplete(row, lead, name, gap, rest);
  }

  /**
   * A header row opens a table of that name in either revision. In the current revision a
   * header row whose name is "" or "0" is ignored altogether: it is neither a column row nor a
   * terminator.
   */
  lemma HeaderRowClassified(rev: Revision, row: string, pre: string, name: string)
    requires IsHeaderSplit(rev, row, pre, name)
    ensures PhpTruthy(name) ==> Classify(row, rev) == Header(name)
    ensures rev == Current && PhpEmpty(name) ==> Classify(row, rev) == Ignored
  {
    HeaderNameComplete(rev, row, pre, name);
    if rev == Current {
      CurrentHeaderStart(row, pre, name);
      assert MatchColumn(row).None?;
      assert row[|row| - 1] == '(';
    }
  }

  /**
   * The legacy revision tests the header first as well, and its looser header pattern accepts
   * column rows that mention "create table" after the column name: such a row opens a table
   * instead of adding a column.
   */
  lemma LegacyHeaderBeforeColumn(row: string, lead: string, name: string, gap: string, rest: string, pre: string, table: string)
    requires IsColumnSplit(row, lead, name, gap, rest) && IsHeaderSplit(Legacy, row, pre, table) && PhpTruthy(table)
    ensures Classify(row, Legacy) == Header(table)
    ensures Classify(row, Current) != Header(table)
  {
    HeaderNameComplete(Legacy, row, pre, table);
    ColumnRowIsNotCurrentHeader(row, lead, name, gap, rest);
  }
}
