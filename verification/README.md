# dbentities-generator in Dafny

A model of the core of the dbentities generator. The generator reads a MySQL schema dump line
by line and collects each `CREATE TABLE` statement's table name and columns. It infers a PHP
type for each column from the first word of the column's definition. For every table it writes
a PHP entity class into a namespace and directory derived from its settings. The generated
classes extend a base class `AbstractDBEntity`, which the generator copies into the output
directory with its namespace rewritten. That base class loads an entity's mapped properties
from a database row and lists the properties that are set.

Two revisions of the generator are covered:

- the current one, `lib/EntityGenerator.php`;
- the legacy one, `EntityGenerator.php` at the repository root.

Both share the parsing state machine, the column pattern and type inference, which live in
`SchemaParser`. The `Revision` parameter selects the header pattern. The revisions differ in
what they emit:

- `EntityGenerator` models the current revision's emission;
- `LegacyEntityGenerator` models the legacy revision's;
- `AbstractDBEntity` models the base class.

Modules:

| module | file | what it holds |
|---|---|---|
| `Wrappers` | wrappers.dfy | `Option`, `Result` |
| `PhpStrings` | php_strings.dfy | PCRE character classes `\s` and `\w`, `strtolower`, `str_replace("_", "")`, `trim($s, ' ,')`, PHP truthiness, greedy runs, last occurrence |
| `PhpArrays` | php_arrays.dfy | ordered PHP arrays with string keys; `$a[$k] = $v`; writing entries one after another |
| `SchemaParser` | schema_parser.dfy | the row patterns, type inference, row classification, and the `parseSchema` loop with its step function |
| `SchemaProperties` | schema_properties.dfy | a segment-by-segment reference definition of the parse result, proved equal to the loop; which tables come out; each table's columns |
| `RowClassification` | row_classification.dfy | the order of the three row tests and PHP truthiness of captured names |
| `TypeRules` | type_rules.dfy | which type the overlapping SQL type names (`TIME`/`TIMESTAMP`, `DATE`/`DATETIME`, `INT`) get |
| `EntityGenerator` | entity_generator.dfy | configuration, `getName`, namespace, file paths, the namespace rewrite of the base file, the generated class, `generate` |
| `LegacyEntityGenerator` | legacy_generator.dfy | the legacy class, paths and `generate`, compared with the current ones |
| `AbstractDBEntity` | abstract_db_entity.dfy | `changeArrayKeys`, `getArrayByMapping`, `loadFromActiveRow`, the constructor, `getNullId` |

Conventions of the model:

- The input file is a sequence of rows, one per line, with the line terminator removed. The
  generator itself only strips `"\r\n"` (`str_replace`). A row read from a file with bare
  `"\n"` line ends keeps its `"\n"`. For the header and terminator patterns, a single
  trailing `"\n"` behaves like a removed one: `$` matches before it, and `.` never reaches
  it. For the column pattern it does too, except on a row whose closing back-quote is
  directly followed by the line end (see "Left out"). So the model assumes rows without
  terminators.
- A PHP `false` result of `getTableName`/`getColumn` is `None`. An exception is `Failure`.
- `StringHelper`'s case transforms are parameters, the three function fields of `Naming`. No
  property proved here depends on what they compute.
- A generated class is a record of what the generator adds to it: namespace, class name,
  parent, the body of `getTableName()`, constants and properties in the order they are added,
  and the body of `getMappingArray()`. It is not rendered PHP text.
- The output directory is a map from path to file. The constructor starts it with the copied
  base entity. A later write to a path replaces the earlier file.

## Model

| member | source | states |
|---|---|---|
| SchemaParser.GetTableName | lib/EntityGenerator.php:119-122 | the header pattern's capture, or false (legacy: EntityGenerator.php:74-79); HeaderNameSound and HeaderNameComplete below state exactly which rows it accepts and what it captures |
| SchemaParser.HeaderNameSound | lib/EntityGenerator.php:119-122 | a name `getTableName` captures comes from a row reading prefix, back-quote, name, "` (". The name holds no back-quote. The prefix starts, after blanks, with "create table" in any case |
| SchemaParser.HeaderNameComplete | lib/EntityGenerator.php:119-122 | every row of that shape is recognised, with exactly that name (the greedy `.*` captures after the last back-quote) |
| SchemaProperties.CurrentHeaderIsLegacyHeader | EntityGenerator.php:74-79 | the legacy header pattern accepts every row the current one accepts, and captures the same name. Its prefix may hold anything before "create table" |
| SchemaParser.GetColumnName | lib/EntityGenerator.php:129-131 | false exactly when the column pattern does not match the row; otherwise the captured name |
| SchemaParser.ColumnMatchSound | lib/EntityGenerator.php:150-164 | a row the column pattern matches reads blanks, back-quoted word characters, at least one blank, rest; the captures are the name and the rest |
| SchemaParser.ColumnMatchComplete | lib/EntityGenerator.php:150-164 | every row of that shape matches, with exactly that name and rest |
| SchemaParser.GetColumn | lib/EntityGenerator.php:150-164 | false for a non-column row; the name for "name"; the rest trimmed of spaces and commas for "attr"; an exception for any other result type, raised only on a matching row (legacy: EntityGenerator.php:100-114) |
| SchemaParser.IsTableEnd | lib/EntityGenerator.php:222-224 | true exactly when the row ends with ";" (legacy: EntityGenerator.php:172-174) |
| SchemaParser.Classify | lib/EntityGenerator.php:76-90 | the three tests in their order: a header name PHP reads as true, then a column name PHP reads as true, then the terminator; a row passing none is ignored. The RowClassification lemmas state what each kind of row becomes |
| SchemaParser.FirstToken | lib/EntityGenerator.php:206-207 | the first element of `explode(" ", ...)`: a prefix without spaces, ended by a space or the end of the text |
| SchemaParser.AnyTypeMatchesSpec | lib/EntityGenerator.php:208-214 | a group matches exactly when one of its SQL type names does, compared ignoring case and followed by optional blanks and an optional parenthesised size |
| SchemaParser.FirstMatch | lib/EntityGenerator.php:208-214 | no type exactly when no group matches; otherwise the type of a matching group with no matching group before it |
| SchemaParser.IdentifyVarType | lib/EntityGenerator.php:171-215 | the nested loop with early return gives the first matching group's type of the first token, or none (legacy: EntityGenerator.php:121-165) |
| SchemaParser.GetColumnAttributes | lib/EntityGenerator.php:138-141 | the stored value is the inferred type (empty when none), a space, and the trimmed attributes |
| TypeRules.TimeIsString | lib/EntityGenerator.php:172-186 | a first token `TIME` (any case, optional size) is a string, because the string group is searched first |
| TypeRules.IntIsInt | lib/EntityGenerator.php:172-195 | `INT` with or without size is an int: no name in the string group starts with "i" |
| TypeRules.TimestampIsInt | lib/EntityGenerator.php:172-195 | `TIMESTAMP` is an int, though it begins with `TIME`: "STAMP" is not a size |
| TypeRules.DateIsDateTime | lib/EntityGenerator.php:172-204 | `DATE` is `\DateTime`: nothing in the earlier groups starts with "da" |
| TypeRules.DatetimeIsDateTime | lib/EntityGenerator.php:172-204 | `DATETIME` is `\DateTime` |
| RowClassification.ColumnRowIsNotCurrentHeader | lib/EntityGenerator.php:121 | in the current revision no row is both a column definition and a table header |
| RowClassification.ColumnRowClassified | lib/EntityGenerator.php:83-85 | a column row is a column definition with type-prefixed trimmed attributes, even when it ends in ";". Only a column named "" or "0" falls through to the terminator test |
| RowClassification.HeaderRowClassified | lib/EntityGenerator.php:76-83 | a header row with a name PHP reads as true opens a table of that name. In the current revision, one named "" or "0" is ignored entirely |
| RowClassification.LegacyHeaderBeforeColumn | EntityGenerator.php:49-58 | a legacy header row that is also a column row opens a table and adds no column. The current revision does not treat it as a header |
| SchemaParser.ParseRow | lib/EntityGenerator.php:76-90 | one pass of the loop body on the mutable current table and finished list does what the step function says for the row's kind, including the error for a column while no table is open |
| SchemaParser.ParseSchema | lib/EntityGenerator.php:70-94 | the loop with its mutable current table and result list computes the state machine's result over all rows (legacy: EntityGenerator.php:43-67) |
| SchemaProperties.ParseBySegments | lib/EntityGenerator.php:70-94 | the parse result is the segment reading. Each header opens a fresh table, whose columns are the column rows up to the next header or terminator. The table is emitted only when such a boundary follows. A column row outside any table is an error |
| SchemaProperties.TableNamesAreClosedHeaders | lib/EntityGenerator.php:76-90 | the tables come out in header order, one per header followed by a header or terminator. A table still open at the end of input is dropped |
| SchemaProperties.ColumnsOfSpec | lib/EntityGenerator.php:84 | a table's columns hold each defined name once, in order of first definition, with the attributes of its last definition |
| SchemaProperties.TablesHaveUniqueColumns | lib/EntityGenerator.php:84 | every emitted table has unique column names |
| EntityGenerator.NewConfig | lib/EntityGenerator.php:42-48 | the constructor's state: Pascal-case namespaces, the raw arguments as directories, and the two flags as given |
| EntityGenerator.GetName | lib/EntityGenerator.php:110-112 | the name in back-quotes exactly when quoting is on, the name itself otherwise |
| EntityGenerator.GetNameInjective | lib/EntityGenerator.php:110-112 | distinct names stay distinct |
| EntityGenerator.NamespaceSpec | lib/EntityGenerator.php:232 | the namespace is the root exactly when the database namespace is empty ("" or "0"), and otherwise root, `\`, database |
| EntityGenerator.GenerateEntityFile | lib/EntityGenerator.php:230-273 | the loops build the class the specification function describes: constants, absolute constants, properties and mapping lines. The file goes to the `writeFile` path |
| EntityGenerator.EntityConstants | lib/EntityGenerator.php:244-252 | one plain constant per column in column order, named in constant case and valued `getName(column)`. Then, only when enabled, one `__`-prefixed constant per column valued `getName(table).getName(column)` |
| EntityGenerator.ColumnMembersSpec | lib/EntityGenerator.php:254-261 | one public `@var attributes` property and one mapping line per column, in column order; each line pairs the column's constant with a reference to its property |
| EntityGenerator.TableNameBodySpec | lib/EntityGenerator.php:242 | `getTableName()` returns the table name, quoted exactly when quoting is on |
| EntityGenerator.EntityPathsDistinct | lib/EntityGenerator.php:281-283 | two tables share a file exactly when their Pascal-case names coincide |
| EntityGenerator.BaseEntityOverwrittenOnlyBy | lib/EntityGenerator.php:97-98 | a table's file lands on the copied base entity exactly when the database directory is empty and the table's Pascal-case name is "AbstractDBEntity" |
| EntityGenerator.ReplaceNamespace | lib/EntityGenerator.php:101 | `preg_replace` of `namespace \w*;`: declarations found left to right without overlapping, each replaced; the three lemmas below state its effect |
| EntityGenerator.ReplaceNamespaceNoDeclaration | lib/EntityGenerator.php:101 | a base file without a `namespace \w*;` declaration is copied unchanged |
| EntityGenerator.ReplaceNamespaceDeclaration | lib/EntityGenerator.php:101 | a declaration is replaced by the root namespace's and the rest is rewritten in turn |
| EntityGenerator.ReplaceNamespaceKeepsPrefix | lib/EntityGenerator.php:101 | text in which no declaration starts is kept, in front of the rewritten rest |
| EntityGenerator.ReplaceNamespaceAfter | lib/EntityGenerator.php:101 | the first declaration anywhere in the text is replaced by the root namespace's, the text before it kept and the text after it rewritten in turn |
| EntityGenerator.BaseFileNamespaceReplaced | lib/AbstractDBEntity.php:1-3 | the base file as shipped, opening with the PHP tag, two CRLF line ends and `namespace dbEntity;`, is copied with the root namespace declared there instead |
| EntityGenerator.Generate | lib/EntityGenerator.php:59-64 | the base-entity copy, then parsing, then one file per table written in order. It fails exactly when parsing does |
| EntityGenerator.GeneratedDirectory | lib/EntityGenerator.php:280-290 | the base entity survives unless a table's file is written over it. Each table's class is in its file unless a later table has the same Pascal-case name |
| EntityGenerator.WriteAllDomain | lib/EntityGenerator.php:289 | the output holds exactly the earlier files and the written paths |
| EntityGenerator.WriteAllLast | lib/EntityGenerator.php:289 | a path holds the last file written to it |
| EntityGenerator.WriteAllUntouched | lib/EntityGenerator.php:289 | a path nothing is written to keeps its earlier file |
| LegacyEntityGenerator.NewLegacyConfig | EntityGenerator.php:27-29 | the legacy constructor's state: both arguments in Pascal case |
| LegacyEntityGenerator.LegacyGenerateEntityFile | EntityGenerator.php:180-223 | the single loop builds one raw-named constant, one property and one mapping line per column. The file goes to `camel(destDir)/camel(dbName)/Pascal(table).php` |
| LegacyEntityGenerator.LegacyGenerate | EntityGenerator.php:32-37 | parsing with the legacy header rule, then one file per table written in order |
| LegacyEntityGenerator.LegacyIsCurrentWithoutExtras | EntityGenerator.php:192-221 | with quoting and absolute constants off and a non-empty database namespace, the legacy class equals the current one |
| LegacyEntityGenerator.LegacyConstantsAreRawNames | EntityGenerator.php:204-205 | exactly one constant per column, valued with the raw column name |
| LegacyEntityGenerator.LegacyEntityPathsDistinct | EntityGenerator.php:181-185 | two legacy tables share a file exactly when their Pascal-case names coincide |
| AbstractDBEntity.ChangeArrayKeys | lib/AbstractDBEntity.php:123-130 | the loop writes every entry again under its lower-case, underscore-free key |
| AbstractDBEntity.ChangeArrayKeysSpec | lib/AbstractDBEntity.php:123-130 | the result's keys are the normalised keys, each once, in order of first occurrence, holding the later entry's value, with no underscore |
| AbstractDBEntity.ChangeArrayKeysCollapse | lib/AbstractDBEntity.php:126-127 | two keys that normalise alike collapse into one entry holding the second value |
| AbstractDBEntity.Entity.GetArrayByMapping | lib/AbstractDBEntity.php:83-92 | the loop keeps the entries whose value is not null, in order, and changes nothing |
| AbstractDBEntity.GetArrayByMappingSpec | lib/AbstractDBEntity.php:83-92 | a column is in the result, with its value, exactly when its value is not null: the result is a part of the mapping |
| AbstractDBEntity.Entity.LoadFromActiveRow | lib/AbstractDBEntity.php:25-33 | each mapped column the row has takes the row's value; the others keep theirs; the entity itself is returned |
| AbstractDBEntity.LoadedSpec | lib/AbstractDBEntity.php:27-31 | loading keeps the columns and their order and changes exactly the values of columns the row has |
| AbstractDBEntity.LoadedIdempotent | lib/AbstractDBEntity.php:25-33 | loading the same row twice is loading it once |
| AbstractDBEntity.Entity.constructor | lib/AbstractDBEntity.php:14-18 | the entity loads from the row only when a row is given, and otherwise keeps its declared values |
| AbstractDBEntity.Entity.GetNullId | lib/AbstractDBEntity.php:39-41 | always -1 |

## Left out

- File and directory I/O are not modelled: opening and reading the schema file, `mkdir`,
  `touch`, `file_get_contents`, `file_put_contents`, and deleting the output directory. The
  input is the sequence of rows. The output is the map from path to file, starting from an
  empty directory (the `useForce` default). With `useForce` off, older files would stay
  beside the new ones.
- The legacy constructor deletes and creates the directory named by its raw argument, but
  writes files under the camel case of its Pascal case. Whether those coincide depends on
  `StringHelper`, which is not part of this model.
- `StringHelper::toPascalCase`, `toCamelCase` and `toConstCase` are parameters, not
  definitions; `FileHelper` is not part of this model.
- Nette's `PhpFile`/`ClassType` rendering to text is not modelled. In particular, adding a
  constant or property under a name already present replaces it in Nette's keyed storage,
  which happens when two column names share a constant-case or camel-case form. The record
  lists additions in call order.
- `DIRECTORY_SEPARATOR` is fixed to "/".
- A column row while no table is open (before any header, or after a terminator, which sets
  `$tableEntity` to null) makes the PHP write through a null `$tableEntity`. PHP 8 stops
  there with an error, which the model reproduces as `ColumnOutsideTable(line)`. PHP 5 and 7
  instead create a throw-away object with a warning, so the row is lost and parsing goes on;
  the model does not capture that behaviour.
- A column row whose closing back-quote is directly followed by a bare `"\n"` line end
  (`` "`a`\n" ``) is a column for the PHP: `\s+` consumes the `"\n"`, and the name is stored
  with an empty attribute text. The model's row has no terminator (`` "`a`" ``), so the column
  pattern needs a blank after the back-quote and the row is not a column.
- Column names are kept as strings throughout. PHP stores a numeric-string column name such as
  "123" under an integer key, so without quoting `getName` then gives an integer for the plain
  constant's value; key order and uniqueness are the same either way.
- A missing database name (PHP `null`) is the empty string.
- ReplaceNamespaceDeclaration: the replacement is taken literally. `preg_replace` would read
  `$n` or `\n` sequences in the root namespace as back-references.
- `getArray`, `getReferenceArray`, `getArrayByVariables` and their reflection
  (`getReflection()`, `get_object_vars`) are not modelled. Nor is PHP's reference aliasing
  (`&$this->x`). An entity is its mapping array from column to the value of the property the
  column refers to, and loading updates that array in place.
- Nette's `ActiveRow` is not part of this model. A row is a map from column name to value, and
  `offsetExists` is membership in it. Whether a field holding NULL counts as present is left
  open: a `Null` in the map is loaded like any other value, and a map without `Null` values
  covers the reading in which `offsetExists` tests with `isset`.
- Property values are null, booleans, integers and strings; floats and `DateTime` objects are
  not modelled.
- `CliRunner.php` and `index.php` (argument parsing, help text, a fixed driver) are not part of
  this model.
- AbstractDBEntity.GetArrayByMappingSpec: stated for a mapping with unique column keys, which
  every PHP array literal returned by `getMappingArray()` has.
