/**
 * Entity emission of the current generator (lib/EntityGenerator.php): the configuration its
 * constructor derives, the entity class it builds for each parsed table, where that class is
 * written, and the copy of the base entity with its namespace rewritten. A generated class is
 * represented by what the generator puts into it, not by rendered PHP text.
 */
module EntityGenerator {
  import opened Wrappers
  import opened PhpStrings
  import opened PhpArrays
  import opened SchemaParser

  /**
   * The case transforms of `StringHelper` (`toPascalCase`, `toCamelCase`, `toConstCase`).
   * Their definitions are not part of this model, so they are parameters and nothing proved
   * here depends on what they do.
   */
  datatype Naming = Naming(pascal: string -> string, camel: string -> string, constCase: string -> string)

  /** The generator's settings as its constructor stores them. */
  datatype Config = Config(
    namespaceRoot: string,
    namespaceDb: string,
    destDirRoot: string,
    destDirDb: string,
    generateAbsoluteConstants: bool,
    enquoteNames: bool)

  /**
   * The constructor: namespaces are the Pascal-case forms of the arguments, directories the
   * arguments themselves. A missing database name (PHP `null`) is the empty string here.
   */
  function NewConfig(naming: Naming, namespaceRoot: string, dbName: string,
                     generateAbsoluteConstants: bool, enquoteNames: bool): (c: Config)
    ensures c.namespaceRoot == naming.pascal(namespaceRoot) && c.namespaceDb == naming.pascal(dbName)
    ensures c.destDirRoot == namespaceRoot && c.destDirDb == dbName
    ensures c.generateAbsoluteConstants == generateAbsoluteConstants && c.enquoteNames == enquoteNames
  {
    Config(naming.pascal(namespaceRoot), naming.pascal(dbName), namespaceRoot, dbName,
           generateAbsoluteConstants, enquoteNames)
  }

  /** The path separator; the model fixes PHP's `DIRECTORY_SEPARATOR` to the Unix one. */
  const Separator: string := "/"

  const BaseEntityName: string := "AbstractDBEntity"

  /*
   * ---------------------------------------------------------------- names
   */

  /** `getName`: the name in back-quotes when names are to be quoted, the name itself otherwise. */
  function GetName(enquoteNames: bool, name: string): (r: string)
    ensures enquoteNames ==> |r| == |name| + 2 && r[0] == '`' && r[|r| - 1] == '`' && r[1..|r| - 1] == name
    ensures !enquoteNames ==> r == name
  {
    if enquoteNames then "`" + name + "`" else name
  }

  /** Distinct names stay distinct, quoted or not. */
  lemma GetNameInjective(enquoteNames: bool, a: string, b: string)
    requires GetName(enquoteNames, a) == GetName(enquoteNames, b)
    ensures a == b
  {
    if enquoteNames {
      var r := GetName(enquoteNames, a);
      assert a == r[1..|r| - 1] == b;
    }
  }

  /** The namespace of the generated classes: the root alone when the database namespace is empty. */
  function Namespace(c: Config): string {
    if PhpEmpty(c.namespaceDb) then c.namespaceRoot else c.namespaceRoot + "\\" + c.namespaceDb
  }

  /** The namespace is exactly the root when the database part is empty, and otherwise extends it. */
  lemma NamespaceSpec(c: Config)
    ensures Namespace(c) == c.namespaceRoot <==> PhpEmpty(c.namespaceDb)
    ensures PhpTruthy(c.namespaceDb) ==> Namespace(c)[..|c.namespaceRoot|] == c.namespaceRoot &&
                                         Namespace(c)[|c.namespaceRoot|..] == "\\" + c.namespaceDb
  {
    if PhpTruthy(c.namespaceDb) {
      assert |Namespace(c)| > |c.namespaceRoot|;
    }
  }

  /*
   * ---------------------------------------------------------------- the generated class
   */

  datatype ClassConstant = ClassConstant(name: string, value: string)

  /** A public property with its `@var` documentation. */
  datatype ClassProperty = ClassProperty(name: string, varDoc: string)

  /**
   * What the generator puts into an entity class: its namespace, name and parent, the body of
   * the static `getTableName()`, the constants and properties in the order they are added,
   * and the body of `getMappingArray()`.
   */
  datatype EntityClass = EntityClass(
    namespace: string,
    className: string,
    parent: string,
    tableNameBody: string,
    constants: seq<ClassConstant>,
    properties: seq<ClassProperty>,
    mappingBody: string)

  datatype EntityFile = EntityFile(path: string, entity: EntityClass)

  /** PHP's `implode(sep, parts)`. */
  function Implode(sep: string, parts: seq<string>): string
    decreases |parts|
  {
    if |parts| == 0 then ""
    else if |parts| == 1 then parts[0]
    else parts[0] + sep + Implode(sep, parts[1..])
  }

  /** The mapping lines joined into the body of `getMappingArray()`. */
  function MappingBody(lines: seq<string>): string {
    "return array(\n" + Implode("\n", lines) + "\n);"
  }

  /** The entry of `getMappingArray()` for a column: its constant mapped to a reference to its property. */
  function MappingLine(naming: Naming, column: string): string {
    "\tself::" + naming.constCase(column) + " => &$this->" + naming.camel(column) + ","
  }

  function PlainConstant(c: Config, naming: Naming, column: string): ClassConstant {
    ClassConstant(naming.constCase(column), GetName(c.enquoteNames, column))
  }

  function AbsoluteConstant(c: Config, naming: Naming, tableName: string, column: string): ClassConstant {
    ClassConstant("__" + naming.constCase(column), GetName(c.enquoteNames, tableName) + "." + GetName(c.enquoteNames, column))
  }

  function Property(naming: Naming, column: string, attributes: string): ClassProperty {
    ClassProperty(naming.camel(column), "@var " + attributes)
  }

  function PlainConstants(c: Config, naming: Naming, columns: PhpArray<string>): seq<ClassConstant> {
    seq(|columns|, i requires 0 <= i < |columns| => PlainConstant(c, naming, columns[i].key))
  }

  function AbsoluteConstants(c: Config, naming: Naming, tableName: string, columns: PhpArray<string>): seq<ClassConstant> {
    seq(|columns|, i requires 0 <= i < |columns| => AbsoluteConstant(c, naming, tableName, columns[i].key))
  }

  function Properties(naming: Naming, columns: PhpArray<string>): seq<ClassProperty> {
    seq(|columns|, i requires 0 <= i < |columns| => Property(naming, columns[i].key, columns[i].value))
  }

  function MappingLines(naming: Naming, columns: PhpArray<string>): seq<string> {
    seq(|columns|, i requires 0 <= i < |columns| => MappingLine(naming, columns[i].key))
  }

  /** The plain constants, followed by the absolute ones when they are enabled. */
  function Constants(c: Config, naming: Naming, tableName: string, columns: PhpArray<string>): seq<ClassConstant> {
    PlainConstants(c, naming, columns) +
      (if c.generateAbsoluteConstants then AbsoluteConstants(c, naming, tableName, columns) else [])
  }

  /** The class `generateEntityFile` builds for a table, member by member. */
  function EntityClassFor(c: Config, naming: Naming, t: TableEntity): EntityClass {
    EntityClass(
      Namespace(c),
      naming.pascal(t.tableName),
      "\\" + c.namespaceRoot + "\\" + BaseEntityName,
      "return '" + GetName(c.enquoteNames, t.tableName) + "';",
      Constants(c, naming, t.tableName, t.columns),
      Properties(naming, t.columns),
      MappingBody(MappingLines(naming, t.columns)))
  }

  /** `writeFile`'s path: the root directory, the database directory unless empty, the Pascal-case table name. */
  function EntityFilePath(c: Config, naming: Naming, tableName: string): string {
    c.destDirRoot + Separator + (if PhpEmpty(c.destDirDb) then "" else c.destDirDb + Separator) +
      naming.pascal(tableName) + ".php"
  }

  /** Where `copyAbstractEntity` puts the base entity. */
  function BaseEntityPath(c: Config): string {
    c.destDirRoot + Separator + BaseEntityName + ".php"
  }

  /** `generateEntityFile`: the class for a table and the file it goes to. */
  method GenerateEntityFile(c: Config, naming: Naming, t: TableEntity) returns (file: EntityFile)
    ensures file == EntityFile(EntityFilePath(c, naming, t.tableName), EntityClassFor(c, naming, t))
  {
    var columns := t.columns;
    var constants: seq<ClassConstant> := [];
    var i := 0;
    while i < |columns|
      invariant 0 <= i <= |columns|
      invariant constants == PlainConstants(c, naming, columns[..i])
    {
      constants := constants + [PlainConstant(c, naming, columns[i].key)];
      i := i + 1;
    }
    assert columns[..|columns|] == columns;
    if c.generateAbsoluteConstants {
      ghost var plain := constants;
      i := 0;
      while i < |columns|
        invariant 0 <= i <= |columns|
        invariant constants == plain + AbsoluteConstants(c, naming, t.tableName, columns[..i])
      {
        constants := constants + [AbsoluteConstant(c, naming, t.tableName, columns[i].key)];
        i := i + 1;
      }
    }
    var properties: seq<ClassProperty> := [];
    var mappingLines: seq<string> := [];
    i := 0;
    while i < |columns|
      invariant 0 <= i <= |columns|
      invariant properties == Properties(naming, columns[..i])
      invariant mappingLines == MappingLines(naming, columns[..i])
    {
      properties := properties + [Property(naming, columns[i].key, columns[i].value)];
      mappingLines := mappingLines + [MappingLine(naming, columns[i].key)];
      i := i + 1;
    }
    var entity := EntityClass(
      Namespace(c),
      naming.pascal(t.tableName),
      "\\" + c.namespaceRoot + "\\" + BaseEntityName,
      "return '" + GetName(c.enquoteNames, t.tableName) + "';",
      constants, properties, MappingBody(mappingLines));
    file := EntityFile(EntityFilePath(c, naming, t.tableName), entity);
  }

  /*
   * ---------------------------------------------------------------- what a class holds
   */

  /**
   * One plain constant per column, in column order, named by the constant-case column name and
   * valued with the (possibly quoted) column name; then, only when enabled, one absolute
   * constant per column, prefixed "__" and valued "table.column".
   */
  lemma EntityConstants(c: Config, naming: Naming, tableName: string, columns: PhpArray<string>)
    ensures var cs := Constants(c, naming, tableName, columns);
            var n := |columns|;
            && |cs| == (if c.generateAbsoluteConstants then 2 * n else n)
            && (forall i :: 0 <= i < n ==>
                  cs[i] == ClassConstant(naming.constCase(columns[i].key), GetName(c.enquoteNames, columns[i].key)))
            && (c.generateAbsoluteConstants ==> forall i :: 0 <= i < n ==>
                  cs[n + i].name == "__" + naming.constCase(columns[i].key) &&
                  cs[n + i].value == GetName(c.enquoteNames, tableName) + "." + GetName(c.enquoteNames, columns[i].key))
  {
    var n := |columns|;
    var cs := Constants(c, naming, tableName, columns);
    var plain := PlainConstants(c, naming, columns);
    if c.generateAbsoluteConstants {
      var absolute := AbsoluteConstants(c, naming, tableName, columns);
      assert forall i :: 0 <= i < n ==> cs[i] == plain[i] && cs[n + i] == absolute[i];
    } else {
      assert cs == plain + [] == plain;
    }
  }

  /**
   * One `@var` property and one mapping line per column, in column order; each mapping line
   * pairs the column's constant with a reference to its property.
   */
  lemma ColumnMembersSpec(naming: Naming, columns: PhpArray<string>)
    ensures |Properties(naming, columns)| == |columns| && |MappingLines(naming, columns)| == |columns|
    ensures forall i :: 0 <= i < |columns| ==>
      Properties(naming, columns)[i] == ClassProperty(naming.camel(columns[i].key), "@var " + columns[i].value)
    ensures forall i :: 0 <= i < |columns| ==>
      MappingLines(naming, columns)[i] ==
        "\tself::" + naming.constCase(columns[i].key) + " => &$this->" + naming.camel(columns[i].key) + ","
  {
  }

  /** Without quoting, the `getTableName()` body returns the raw table name; with it, the quoted one. */
  lemma TableNameBodySpec(c: Config, naming: Naming, t: TableEntity)
    ensures var body := EntityClassFor(c, naming, t).tableNameBody;
            && body[..8] == "return '" && body[|body| - 2..] == "';"
            && body[8..|body| - 2] == (if c.enquoteNames then "`" + t.tableName + "`" else t.tableName)
  {
  }

  /*
   * ---------------------------------------------------------------- where files go
   */

  /** Two tables go to the same file exactly when their Pascal-case names coincide. */
  lemma EntityPathsDistinct(c: Config, naming: Naming, a: string, b: string)
    ensures EntityFilePath(c, naming, a) == EntityFilePath(c, naming, b) <==> naming.pascal(a) == naming.pascal(b)
  {
    var dir := c.destDirRoot + Separator + (if PhpEmpty(c.destDirDb) then "" else c.destDirDb + Separator);
    var pa, pb := naming.pascal(a), naming.pascal(b);
    assert EntityFilePath(c, naming, a) == dir + pa + ".php";
    assert EntityFilePath(c, naming, b) == dir + pb + ".php";
    if dir + pa + ".php" == dir + pb + ".php" {
      assert pa == (dir + pa + ".php")[|dir|..|dir| + |pa|];
      assert pb == (dir + pb + ".php")[|dir|..|dir| + |pb|];
    }
  }

  /**
   * An entity file lands on the copied base entity exactly when there is no database directory
   * and the table's Pascal-case name is "AbstractDBEntity".
   */
  lemma BaseEntityOverwrittenOnlyBy(c: Config, naming: Naming, tableName: string)
    ensures EntityFilePath(c, naming, tableName) == BaseEntityPath(c) <==>
            PhpEmpty(c.destDirDb) && naming.pascal(tableName) == BaseEntityName
  {
    var root := c.destDirRoot + Separator;
    var p := naming.pascal(tableName);
    if PhpTruthy(c.destDirDb) {
      NoSeparatorInBaseName(root, c.destDirDb, p);
    }
    if PhpEmpty(c.destDirDb) && EntityFilePath(c, naming, tableName) == BaseEntityPath(c) {
      var path := EntityFilePath(c, naming, tableName);
      assert p == path[|root|..|root| + |p|];
      assert |p| == |BaseEntityName|;
    }
  }

  /** A database directory puts a separator where the base entity's file name has none. */
  lemma NoSeparatorInBaseName(root: string, db: string, p: string)
    requires db != []
    ensures root + db + Separator + p + ".php" != root + BaseEntityName + ".php"
  {
    var l := root + db + Separator + p + ".php";
    var r := root + BaseEntityName + ".php";
    if |l| == |r| {
      assert l[|root| + |db|] == '/';
      assert r[|root| + |db|] == BaseEntityName[|db|];
    }
  }

  /*
   * ---------------------------------------------------------------- the copied base entity
   */

  /**
   * The end of a namespace declaration "namespace NAME;" (NAME made of word characters) that
   * starts at index `i` of `s`, if one does.
   */
  function DeclarationEnd(s: string, i: nat): (r: Option<nat>)
    requires i <= |s|
    ensures r.Some? ==> i + 11 <= r.value <= |s| && s[i..i + 10] == "namespace " &&
                        AllWordChars(s[i + 10..r.value - 1]) && s[r.value - 1] == ';'
  {
    if i + 10 <= |s| && s[i..i + 10] == "namespace " then
      var j := SkipWhile(s, i + 10, IsWordChar);
      if j < |s| && s[j] == ';' then Some(j + 1) else None
    else None
  }

  /**
   * `preg_replace("/namespace \w*;/m", "namespace ROOT;", content)`: the declarations are found
   * left to right without overlapping, and each is replaced.
   */
  function ReplaceNamespace(s: string, root: string): string
    decreases |s|
  {
    if s == [] then []
    else
      match DeclarationEnd(s, 0)
      case Some(e) => "namespace " + root + ";" + ReplaceNamespace(s[e..], root)
      case None => [s[0]] + ReplaceNamespace(s[1..], root)
  }

  /** Content without a namespace declaration is copied unchanged. */
  lemma {:induction false} ReplaceNamespaceNoDeclaration(s: string, root: string)
    requires forall i :: 0 <= i <= |s| ==> DeclarationEnd(s, i).None?
    ensures ReplaceNamespace(s, root) == s
    decreases |s|
  {
    if s != [] {
      forall i | 0 <= i <= |s[1..]| ensures DeclarationEnd(s[1..], i).None? {
        DeclarationShift(s, i);
      }
      ReplaceNamespaceNoDeclaration(s[1..], root);
    }
  }

  /** A declaration found in the tail is the one found one position further in the whole. */
  lemma DeclarationShift(s: string, i: nat)
    requires s != [] && i <= |s| - 1
    ensures DeclarationEnd(s[1..], i).Some? <==> DeclarationEnd(s, i + 1).Some?
  {
    var t := s[1..];
    if i + 10 <= |t| {
      assert t[i..i + 10] == s[i + 1..i + 11];
      if t[i..i + 10] == "namespace " {
        var j := SkipWhile(t, i + 10, IsWordChar);
        var k := SkipWhile(s, i + 11, IsWordChar);
        SkipWhileUnique(s, i + 11, IsWordChar, j + 1);
      }
    }
  }

  /** A declaration at the front is replaced by the root namespace's, and the rest is processed on. */
  lemma ReplaceNamespaceDeclaration(name: string, rest: string, root: string)
    requires AllWordChars(name)
    ensures ReplaceNamespace("namespace " + name + ";" + rest, root) ==
            "namespace " + root + ";" + ReplaceNamespace(rest, root)
  {
    var s := "namespace " + name + ";" + rest;
    assert s[..10] == "namespace ";
    assert s[10 + |name|] == ';';
    assert forall k :: 10 <= k < 10 + |name| ==> s[k] == name[k - 10];
    SkipWhileUnique(s, 10, IsWordChar, 10 + |name|);
    assert s[11 + |name|..] == rest;
  }

  /** Text in which no declaration starts is kept as it is, in front of the rewritten rest. */
  lemma {:induction false} ReplaceNamespaceKeepsPrefix(p: string, t: string, root: string)
    requires forall i :: 0 <= i < |p| ==> DeclarationEnd(p + t, i).None?
    ensures ReplaceNamespace(p + t, root) == p + ReplaceNamespace(t, root)
    decreases |p|
  {
    if p == [] {
      assert p + t == t;
    } else {
      var s := p + t;
      assert DeclarationEnd(s, 0).None?;
      assert ReplaceNamespace(s, root) == [p[0]] + ReplaceNamespace(s[1..], root);
      assert s[1..] == p[1..] + t;
      forall i | 0 <= i < |p[1..]| ensures DeclarationEnd(p[1..] + t, i).None? {
        DeclarationShift(s, i);
      }
      ReplaceNamespaceKeepsPrefix(p[1..], t, root);
      assert p + ReplaceNamespace(t, root) == [p[0]] + (p[1..] + ReplaceNamespace(t, root));
    }
  }

  /**
   * The first declaration, after text in which none starts, is replaced by the root
   * namespace's; the text before it is kept and the rest is rewritten in turn.
   */
  lemma ReplaceNamespaceAfter(p: string, name: string, rest: string, root: string)
    requires AllWordChars(name)
    requires forall i :: 0 <= i < |p| ==> DeclarationEnd(p + ("namespace " + name + ";" + rest), i).None?
    ensures ReplaceNamespace(p + ("namespace " + name + ";" + rest), root) ==
            p + ("namespace " + root + ";" + ReplaceNamespace(rest, root))
  {
    ReplaceNamespaceKeepsPrefix(p, "namespace " + name + ";" + rest, root);
    ReplaceNamespaceDeclaration(name, rest, root);
  }

  /** No declaration starts at a character other than "n". */
  lemma NoDeclarationAt(s: string, i: nat)
    requires i < |s| && s[i] != 'n'
    ensures DeclarationEnd(s, i).None?
  {
    if i + 10 <= |s| {
      assert s[i..i + 10][0] == s[i];
    }
  }

  /** The opening of the shipped base entity file: the PHP tag and two CRLF line ends. */
  const BaseFileOpening: string := "<?php\r\n\r\n"

  /**
   * The shipped base entity file opens with the PHP tag, two CRLF line ends and the
   * declaration `namespace dbEntity;`: the copy declares the root namespace there instead.
   */
  lemma BaseFileNamespaceReplaced(rest: string, root: string)
    ensures ReplaceNamespace(BaseFileOpening + ("namespace dbEntity;" + rest), root) ==
            BaseFileOpening + ("namespace " + root + ";" + ReplaceNamespace(rest, root))
  {
    var name := "dbEntity";
    assert AllWordChars(name);
    assert "namespace dbEntity;" + rest == "namespace " + name + ";" + rest;
    var s := BaseFileOpening + ("namespace dbEntity;" + rest);
    forall i | 0 <= i < |BaseFileOpening| ensures DeclarationEnd(s, i).None? {
      assert s[i] == BaseFileOpening[i];
      NoDeclarationAt(s, i);
    }
    ReplaceNamespaceAfter(BaseFileOpening, name, rest, root);
  }

  /*
   * ---------------------------------------------------------------- the output directory
   */

  /** A file of the output directory: the copied base entity, or a generated entity class. */
  datatype GeneratedFile = BaseEntity(content: string) | Entity(entity: EntityClass)

  /** Writing the files in order; a later file replaces an earlier one at the same path. */
  function WriteAll(dir: map<string, GeneratedFile>, files: seq<EntityFile>): map<string, GeneratedFile>
    decreases |files|
  {
    if files == [] then dir
    else
      var last := files[|files| - 1];
      WriteAll(dir, files[..|files| - 1])[last.path := Entity(last.entity)]
  }

  /** The directory holds exactly the earlier paths and the written ones. */
  lemma {:induction false} WriteAllDomain(dir: map<string, GeneratedFile>, files: seq<EntityFile>, p: string)
    ensures p in WriteAll(dir, files) <==> p in dir || exists i :: 0 <= i < |files| && files[i].path == p
    decreases |files|
  {
    if files != [] {
      var init := files[..|files| - 1];
      WriteAllDomain(dir, init, p);
      if exists i :: 0 <= i < |files| && files[i].path == p {
        var i :| 0 <= i < |files| && files[i].path == p;
        if i < |init| {
          assert init[i] == files[i];
        }
      }
      if exists i :: 0 <= i < |init| && init[i].path == p {
        var i :| 0 <= i < |init| && init[i].path == p;
        assert files[i] == init[i];
      }
    }
  }

  /** A path holds the last file written to it. */
  lemma {:induction false} WriteAllLast(dir: map<string, GeneratedFile>, files: seq<EntityFile>, i: nat)
    requires i < |files| && forall j :: i < j < |files| ==> files[j].path != files[i].path
    ensures files[i].path in WriteAll(dir, files) && WriteAll(dir, files)[files[i].path] == Entity(files[i].entity)
    decreases |files|
  {
    if i < |files| - 1 {
      var init := files[..|files| - 1];
      assert init[i] == files[i];
      WriteAllLast(dir, init, i);
    }
  }

  /** A path nothing is written to keeps its earlier content. */
  lemma {:induction false} WriteAllUntouched(dir: map<string, GeneratedFile>, files: seq<EntityFile>, p: string)
    requires p in dir && forall i :: 0 <= i < |files| ==> files[i].path != p
    ensures p in WriteAll(dir, files) && WriteAll(dir, files)[p] == dir[p]
    decreases |files|
  {
    if files != [] {
      var init := files[..|files| - 1];
      assert forall i :: 0 <= i < |init| ==> init[i] == files[i];
      WriteAllUntouched(dir, init, p);
    }
  }

  function EntityFiles(c: Config, naming: Naming, tables: seq<TableEntity>): seq<EntityFile> {
    seq(|tables|, i requires 0 <= i < |tables| =>
      EntityFile(EntityFilePath(c, naming, tables[i].tableName), EntityClassFor(c, naming, tables[i])))
  }

  /** The directory the constructor leaves: just the base entity, with its namespace rewritten. */
  function InitialDirectory(c: Config, baseSource: string): map<string, GeneratedFile> {
    map[BaseEntityPath(c) := BaseEntity(ReplaceNamespace(baseSource, c.namespaceRoot))]
  }

  /**
   * The constructor's copy of the base entity followed by `generate`: parse the schema, then
   * write one entity file per table, in order.
   */
  method Generate(c: Config, naming: Naming, rows: seq<string>, baseSource: string)
    returns (r: Result<map<string, GeneratedFile>, ParseError>)
    ensures r.Failure? <==> Parse(rows, Current).Failure?
    ensures r.Success? ==> r.value == WriteAll(InitialDirectory(c, baseSource), EntityFiles(c, naming, Parse(rows, Current).value))
  {
    var dir := InitialDirectory(c, baseSource);
    var parsed := ParseSchema(rows, Current);
    if parsed.Failure? {
      return Failure(parsed.error);
    }
    var tables := parsed.value;
    ghost var files := EntityFiles(c, naming, tables);
    var i := 0;
    while i < |tables|
      invariant 0 <= i <= |tables|
      invariant dir == WriteAll(InitialDirectory(c, baseSource), files[..i])
    {
      var file := GenerateEntityFile(c, naming, tables[i]);
      assert files[..i + 1][..i] == files[..i];
      dir := dir[file.path := Entity(file.entity)];
      i := i + 1;
    }
    assert files[..|tables|] == files;
    return Success(dir);
  }

  /**
   * After `generate`, the base entity is still in place unless a table's file was written over
   * it, and each table's class is in its file unless a later table's file has the same path.
   */
  lemma GeneratedDirectory(c: Config, naming: Naming, baseSource: string, tables: seq<TableEntity>)
    ensures var dir := WriteAll(InitialDirectory(c, baseSource), EntityFiles(c, naming, tables));
            && ((forall i :: 0 <= i < |tables| ==> naming.pascal(tables[i].tableName) != BaseEntityName || PhpTruthy(c.destDirDb)) ==>
                  BaseEntityPath(c) in dir && dir[BaseEntityPath(c)] == BaseEntity(ReplaceNamespace(baseSource, c.namespaceRoot)))
            && (forall i :: (0 <= i < |tables| &&
                  forall j :: i < j < |tables| ==> naming.pascal(tables[j].tableName) != naming.pascal(tables[i].tableName)) ==>
                  EntityFilePath(c, naming, tables[i].tableName) in dir &&
                  dir[EntityFilePath(c, naming, tables[i].tableName)] == Entity(EntityClassFor(c, naming, tables[i])))
  {
    var init := InitialDirectory(c, baseSource);
    var files := EntityFiles(c, naming, tables);
    if forall i :: 0 <= i < |tables| ==> naming.pascal(tables[i].tableName) != BaseEntityName || PhpTruthy(c.destDirDb) {
      forall i | 0 <= i < |files| ensures files[i].path != BaseEntityPath(c) {
        BaseEntityOverwrittenOnlyBy(c, naming, tables[i].tableName);
      }
      WriteAllUntouched(init, files, BaseEntityPath(c));
    }
    forall i | 0 <= i < |tables| &&
               forall j :: i < j < |tables| ==> naming.pascal(tables[j].tableName) != naming.pascal(tables[i].tableName)
      ensures EntityFilePath(c, naming, tables[i].tableName) in WriteAll(init, files) &&
              WriteAll(init, files)[EntityFilePath(c, naming, tables[i].tableName)] == Entity(EntityClassFor(c, naming, tables[i]))
    {
      forall j | i < j < |tables| ensures files[j].path != files[i].path {
        EntityPathsDistinct(c, naming, tables[j].tableName, tables[i].tableName);
      }
      WriteAllLast(init, files, i);
    }
  }
}
