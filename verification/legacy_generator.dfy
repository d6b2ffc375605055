/**
 * Entity emission of the legacy generator (EntityGenerator.php at the repository root): no
 * quoting, no absolute constants, a namespace that always has a database part, files under
 * camel-case directories, and no copy of the base entity. The generated class is described
 * with the same records as the current generator's, so the two can be compared.
 */
module LegacyEntityGenerator {
  import opened Wrappers
  import opened PhpStrings
  import opened PhpArrays
  import opened SchemaParser
  import opened EntityGenerator

  /** The legacy generator's settings: both names as the constructor stores them, in Pascal case. */
  datatype LegacyConfig = LegacyConfig(destDir: string, dbName: string)

  /** The legacy constructor: both arguments are kept in Pascal case. */
  function NewLegacyConfig(naming: Naming, destDir: string, dbName: string): (c: LegacyConfig)
    ensures c.destDir == naming.pascal(destDir) && c.dbName == naming.pascal(dbName)
  {
    LegacyConfig(naming.pascal(destDir), naming.pascal(dbName))
  }

  /** The legacy class: plain constants only, and the raw table name in `getTableName()`. */
  function LegacyEntityClassFor(c: LegacyConfig, naming: Naming, t: TableEntity): EntityClass {
    EntityClass(
      c.destDir + "\\" + c.dbName,
      naming.pascal(t.tableName),
      "\\" + c.destDir + "\\" + BaseEntityName,
      "return '" + t.tableName + "';",
      seq(|t.columns|, i requires 0 <= i < |t.columns| =>
        ClassConstant(naming.constCase(t.columns[i].key), t.columns[i].key)),
      Properties(naming, t.columns),
      MappingBody(MappingLines(naming, t.columns)))
  }

  /** The legacy file path: camel-case directory, camel-case database, Pascal-case table name. */
  function LegacyEntityFilePath(c: LegacyConfig, naming: Naming, tableName: string): string {
    naming.camel(c.destDir) + Separator + naming.camel(c.dbName) + Separator + naming.pascal(tableName) + ".php"
  }

  /**
   * The legacy `generateEntityFile`: a single pass over the columns adds the constant, the
   * property and the mapping line of each.
   */
  method LegacyGenerateEntityFile(c: LegacyConfig, naming: Naming, t: TableEntity) returns (file: EntityFile)
    ensures file == EntityFile(LegacyEntityFilePath(c, naming, t.tableName), LegacyEntityClassFor(c, naming, t))
  {
    var columns := t.columns;
    var constants: seq<ClassConstant> := [];
    var properties: seq<ClassProperty> := [];
    var mappingLines: seq<string> := [];
    var i := 0;
    while i < |columns|
      invariant 0 <= i <= |columns|
      invariant |constants| == i
      invariant forall k :: 0 <= k < i ==> constants[k] == ClassConstant(naming.constCase(columns[k].key), columns[k].key)
      invariant properties == Properties(naming, columns[..i])
      invariant mappingLines == MappingLines(naming, columns[..i])
    {
      constants := constants + [ClassConstant(naming.constCase(columns[i].key), columns[i].key)];
      properties := properties + [Property(naming, columns[i].key, columns[i].value)];
      mappingLines := mappingLines + [MappingLine(naming, columns[i].key)];
      i := i + 1;
    }
    assert columns[..|columns|] == columns;
    var entity := EntityClass(
      c.destDir + "\\" + c.dbName,
      naming.pascal(t.tableName),
      "\\" + c.destDir + "\\" + BaseEntityName,
      "return '" + t.tableName + "';",
      constants, properties, MappingBody(mappingLines));
    file := EntityFile(LegacyEntityFilePath(c, naming, t.tableName), entity);
  }

  function LegacyEntityFiles(c: LegacyConfig, naming: Naming, tables: seq<TableEntity>): seq<EntityFile> {
    seq(|tables|, i requires 0 <= i < |tables| =>
      EntityFile(LegacyEntityFilePath(c, naming, tables[i].tableName), LegacyEntityClassFor(c, naming, tables[i])))
  }

  /** The legacy `generate`: parse with the legacy header rule, then write one file per table, in order. */
  method LegacyGenerate(c: LegacyConfig, naming: Naming, rows: seq<string>)
    returns (r: Result<map<string, GeneratedFile>, ParseError>)
    ensures r.Failure? <==> Parse(rows, Legacy).Failure?
    ensures r.Success? ==> r.value == WriteAll(map[], LegacyEntityFiles(c, naming, Parse(rows, Legacy).value))
  {
    var parsed := ParseSchema(rows, Legacy);
    if parsed.Failure? {
      return Failure(parsed.error);
    }
    var tables := parsed.value;
    ghost var files := LegacyEntityFiles(c, naming, tables);
    var dir: map<string, GeneratedFile> := map[];
    var i := 0;
    while i < |tables|
      invariant 0 <= i <= |tables|
      invariant dir == WriteAll(map[], files[..i])
    {
      var file := LegacyGenerateEntityFile(c, naming, tables[i]);
      assert files[..i + 1][..i] == files[..i];
      dir := dir[file.path := Entity(file.entity)];
      i := i + 1;
    }
    assert files[..|tables|] == files;
    return Success(dir);
  }

  /**
   * The legacy class is the current generator's class when names are not quoted, absolute
   * constants are off, and both generators get the same namespace root and a database namespace
   * that is not empty: the same constants, properties, mapping and table-name body, the same
   * namespace and the same parent.
   */
  lemma LegacyIsCurrentWithoutExtras(lc: LegacyConfig, c: Config, naming: Naming, t: TableEntity)
    requires !c.enquoteNames && !c.generateAbsoluteConstants
    requires c.namespaceRoot == lc.destDir && c.namespaceDb == lc.dbName && PhpTruthy(lc.dbName)
    ensures LegacyEntityClassFor(lc, naming, t) == EntityClassFor(c, naming, t)
  {
    assert PlainConstants(c, naming, t.columns) + [] == PlainConstants(c, naming, t.columns);
  }

  /**
   * Only the current generator can put a column's quoted name in a constant, and only it adds
   * the "__"-prefixed constants; the legacy class always has one constant per column, valued
   * with the raw column name.
   */
  lemma LegacyConstantsAreRawNames(c: LegacyConfig, naming: Naming, t: TableEntity)
    ensures var e := LegacyEntityClassFor(c, naming, t);
            && |e.constants| == |t.columns|
            && forall i :: 0 <= i < |t.columns| ==> e.constants[i].value == t.columns[i].key
  {
  }

  /**
   * Two legacy tables go to the same file exactly when their Pascal-case names coincide.
   */
  lemma LegacyEntityPathsDistinct(c: LegacyConfig, naming: Naming, a: string, b: string)
    ensures LegacyEntityFilePath(c, naming, a) == LegacyEntityFilePath(c, naming, b) <==> naming.pascal(a) == naming.pascal(b)
  {
    var dir := naming.camel(c.destDir) + Separator + naming.camel(c.dbName) + Separator;
    var pa, pb := naming.pascal(a), naming.pascal(b);
    assert LegacyEntityFilePath(c, naming, a) == dir + pa + ".php";
    assert LegacyEntityFilePath(c, naming, b) == dir + pb + ".php";
    if dir + pa + ".php" == dir + pb + ".php" {
      assert pa == (dir + pa + ".php")[|dir|..|dir| + |pa|];
      assert pb == (dir + pb + ".php")[|dir|..|dir| + |pb|];
    }
  }
}
