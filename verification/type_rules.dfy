/**
 * Consequences of the order of `identifyVarType`'s table: which PHP type a column gets when
 * the first token of its attributes is one of the SQL types whose names overlap (`TIME` and
 * `TIMESTAMP`, `DATE` and `DATETIME`, `INT` and its longer relatives), in any letter case and
 * with or without a size such as `(11)`.
 */
module TypeRules {
  import opened Wrappers
  import opened PhpStrings
  import opened SchemaParser

  /*
   * ---------------------------------------------------------------- steps of the search
   */

  /** A token that differs from a type name at position `k` (up to case) does not match it. */
  lemma MismatchAt(token: string, colType: string, k: nat)
    requires k < |colType| && k < |token| && ToLower(token[k]) != ToLower(colType[k])
    ensures !MatchesColumnType(token, colType)
  {
  }

  /** A token that goes on after a type name with neither a blank nor "(" does not match it. */
  lemma RunsOnAfter(token: string, colType: string)
    requires |colType| < |token| && !IsSpace(token[|colType|]) && token[|colType|] != '('
    ensures !MatchesColumnType(token, colType)
  {
    var t := token[|colType|..];
    assert t[0] == token[|colType|];
    assert SkipWhile(t, 0, IsSpace) == 0;
  }

  lemma GroupMisses(token: string, colTypes: seq<string>)
    requires forall c :: c in colTypes ==> !MatchesColumnType(token, c)
    ensures !AnyTypeMatches(token, colTypes)
  {
    AnyTypeMatchesSpec(token, colTypes);
  }

  lemma GroupHits(token: string, colTypes: seq<string>, colType: string)
    requires colType in colTypes && MatchesColumnType(token, colType)
    ensures AnyTypeMatches(token, colTypes)
  {
    AnyTypeMatchesSpec(token, colTypes);
  }

  /** A token matching a type agrees with the type's name, letter by letter up to case. */
  lemma MatchedLetters(token: string, colType: string, k: nat)
    requires MatchesColumnType(token, colType) && k < |colType|
    ensures k < |token| && ToLower(token[k]) == ToLower(colType[k])
  {
    assert token[..|colType|][k] == token[k];
  }

  /** The string group's names starting with neither `t` nor `l`, missed on the first letter. */
  lemma MissesStringNames(token: string)
    requires token != [] && ToLower(token[0]) !in "cvbmes"
    ensures && !MatchesColumnType(token, "CHAR") && !MatchesColumnType(token, "VARCHAR")
            && !MatchesColumnType(token, "BLOB") && !MatchesColumnType(token, "MEDIUMTEXT")
            && !MatchesColumnType(token, "MEDIUMBLOB") && !MatchesColumnType(token, "ENUM")
            && !MatchesColumnType(token, "SET")
  {
    MismatchAt(token, "CHAR", 0); MismatchAt(token, "VARCHAR", 0); MismatchAt(token, "BLOB", 0);
    MismatchAt(token, "MEDIUMTEXT", 0); MismatchAt(token, "MEDIUMBLOB", 0);
    MismatchAt(token, "ENUM", 0); MismatchAt(token, "SET", 0);
  }

  /** No name in the string group starts with `d` or `i`. */
  lemma MissesStringGroup(token: string)
    requires token != [] && (ToLower(token[0]) == 'd' || ToLower(token[0]) == 'i')
    ensures !AnyTypeMatches(token, TypeTable[0].1)
  {
    MissesStringNames(token);
    MismatchAt(token, "TINYTEXT", 0); MismatchAt(token, "TEXT", 0);
    MismatchAt(token, "LONGTEXT", 0); MismatchAt(token, "LONGBLOB", 0); MismatchAt(token, "TIME", 0);
    GroupMisses(token, TypeTable[0].1);
  }

  /** A token matching `TIMESTAMP` misses the whole string group, `TIME` included. */
  lemma TimestampMissesStringGroup(token: string)
    requires MatchesColumnType(token, "TIMESTAMP")
    ensures !AnyTypeMatches(token, TypeTable[0].1)
  {
    MatchedLetters(token, "TIMESTAMP", 0);
    MissesStringNames(token);
    TimestampMissesTNames(token);
    GroupMisses(token, TypeTable[0].1);
  }

  lemma TimestampMissesTNames(token: string)
    requires MatchesColumnType(token, "TIMESTAMP")
    ensures && !MatchesColumnType(token, "TINYTEXT") && !MatchesColumnType(token, "TEXT")
            && !MatchesColumnType(token, "LONGTEXT") && !MatchesColumnType(token, "LONGBLOB")
            && !MatchesColumnType(token, "TIME")
  {
    MatchedLetters(token, "TIMESTAMP", 0);
    MatchedLetters(token, "TIMESTAMP", 1);
    MatchedLetters(token, "TIMESTAMP", 2);
    MatchedLetters(token, "TIMESTAMP", 4);
    MismatchAt(token, "TINYTEXT", 2); MismatchAt(token, "TEXT", 1);
    MismatchAt(token, "LONGTEXT", 0); MismatchAt(token, "LONGBLOB", 0);
    RunsOnAfter(token, "TIME");
  }

  /** No name in the integer group starts with `d`. */
  lemma MissesIntGroup(token: string)
    requires token != [] && ToLower(token[0]) == 'd'
    ensures !AnyTypeMatches(token, TypeTable[1].1)
  {
    MismatchAt(token, "TINYINT", 0); MismatchAt(token, "SMALLINT", 0); MismatchAt(token, "MEDIUMINT", 0);
    MismatchAt(token, "INT", 0); MismatchAt(token, "BIGINT", 0); MismatchAt(token, "TIMESTAMP", 0);
    MismatchAt(token, "YEAR", 0);
    GroupMisses(token, TypeTable[1].1);
  }

  /** No name in the float group starts with `da`. */
  lemma MissesFloatGroup(token: string)
    requires |token| >= 2 && ToLower(token[0]) == 'd' && ToLower(token[1]) == 'a'
    ensures !AnyTypeMatches(token, TypeTable[2].1)
  {
    MismatchAt(token, "FLOAT", 0); MismatchAt(token, "DOUBLE", 1); MismatchAt(token, "DECIMAL", 1);
    GroupMisses(token, TypeTable[2].1);
  }

  /*
   * ---------------------------------------------------------------- the overlapping names
   */

  /** `TIME` is in the string group, which is searched first. */
  lemma TimeIsString(attributes: string)
    requires MatchesColumnType(FirstToken(attributes), "TIME")
    ensures InferType(attributes) == Some("string")
  {
    GroupHits(FirstToken(attributes), TypeTable[0].1, "TIME");
  }

  /** `INT(11)`, `int` and the like are integers: nothing in the string group starts with `i`. */
  lemma IntIsInt(attributes: string)
    requires MatchesColumnType(FirstToken(attributes), "INT")
    ensures InferType(attributes) == Some("int")
  {
    var token := FirstToken(attributes);
    MatchedLetters(token, "INT", 0);
    MissesStringGroup(token);
    GroupHits(token, TypeTable[1].1, "INT");
  }

  /** `TIMESTAMP` begins with `TIME`, but "STAMP" is no size, so the integer group takes it. */
  lemma TimestampIsInt(attributes: string)
    requires MatchesColumnType(FirstToken(attributes), "TIMESTAMP")
    ensures InferType(attributes) == Some("int")
  {
    var token := FirstToken(attributes);
    TimestampMissesStringGroup(token);
    GroupHits(token, TypeTable[1].1, "TIMESTAMP");
  }

  /** `DATE` is in the last group; nothing before it starts with `da`. */
  lemma DateIsDateTime(attributes: string)
    requires MatchesColumnType(FirstToken(attributes), "DATE")
    ensures InferType(attributes) == Some("\\DateTime")
  {
    var token := FirstToken(attributes);
    MatchedLetters(token, "DATE", 0);
    MatchedLetters(token, "DATE", 1);
    MissesStringGroup(token);
    MissesIntGroup(token);
    MissesFloatGroup(token);
    GroupHits(token, TypeTable[3].1, "DATE");
    assert TypeTable[1..][1..] == TypeTable[2..];
  }

  /** `DATETIME` begins with `DATE`, but "TIME" is no size; the next entry of the group takes it. */
  lemma DatetimeIsDateTime(attributes: string)
    requires MatchesColumnType(FirstToken(attributes), "DATETIME")
    ensures InferType(attributes) == Some("\\DateTime")
  {
    var token := FirstToken(attributes);
    MatchedLetters(token, "DATETIME", 0);
    MatchedLetters(token, "DATETIME", 1);
    MissesStringGroup(token);
    MissesIntGroup(token);
    MissesFloatGroup(token);
    GroupHits(token, TypeTable[3].1, "DATETIME");
    assert TypeTable[1..][1..] == TypeTable[2..];
  }
}
