/**
 * The base class every generated entity extends (lib/AbstractDBEntity.php): loading the mapped
 * properties from a database row, listing the properties that are set, normalising array keys,
 * and the id that stands for NULL.
 *
 * A generated entity's `getMappingArray()` maps each column name to a reference to the
 * property holding that column's value. The model keeps exactly that: the entity's state is a
 * PHP array from column name to the value of the property the column refers to.
 */
module AbstractDBEntity {
  import opened Wrappers
  import opened PhpStrings
  import opened PhpArrays

  /** A value held by an entity property or a database row field. */
  datatype Value = Null | Bool(b: bool) | Int(i: int) | Str(s: string)

  /**
   * A database row (`ActiveRow`) as `loadFromActiveRow` sees it: `k in row` stands for
   * `$row->offsetExists(k)` and `row[k]` for `$row[k]`. Whether a field holding NULL counts as
   * present is up to `ActiveRow`, which is not part of this model (an `isset` test would say
   * no). The model leaves it open: a `Null` in `row` is loaded like any other value, and the
   * `isset` reading is the case of a row holding no `Null`.
   */
  type Row = map<string, Value>

  /*
   * ---------------------------------------------------------------- changeArrayKeys
   */

  /** A key made lower case with every underscore removed. */
  function NormalizeKey(k: string): string {
    RemoveUnderscores(Lower(k))
  }

  /** The entries with their keys normalised, in order. */
  function Normalized<V>(a: PhpArray<V>): (r: seq<Entry<V>>)
    ensures |r| == |a|
    ensures forall i :: 0 <= i < |a| ==> r[i] == Entry(NormalizeKey(a[i].key), a[i].value)
  {
    seq(|a|, i requires 0 <= i < |a| => Entry(NormalizeKey(a[i].key), a[i].value))
  }

  /** `changeArrayKeys`: every entry is written again under its normalised key. */
  method ChangeArrayKeys<V>(a: PhpArray<V>) returns (r: PhpArray<V>)
    ensures r == SetAll([], Normalized(a))
  {
    var es := Normalized(a);
    r := [];
    var i := 0;
    while i < |a|
      invariant 0 <= i <= |a|
      invariant r == SetAll([], es[..i])
    {
      var keyNew := NormalizeKey(a[i].key);
      assert es[..i + 1][..i] == es[..i];
      r := Set(r, keyNew, a[i].value);
      i := i + 1;
    }
    assert es[..|a|] == es;
  }

  /**
   * The rekeyed array has each normalised key once, in the order in which the keys first
   * normalise to it; when several keys normalise to the same string the later entry wins; no
   * key has an underscore.
   */
  lemma ChangeArrayKeysSpec<V>(a: PhpArray<V>)
    ensures var r := SetAll([], Normalized(a));
            && UniqueKeys(r)
            && Keys(r) == Distinct(seq(|a|, i requires 0 <= i < |a| => NormalizeKey(a[i].key)))
            && (forall k :: Get(r, k) == LastValue(Normalized(a), k))
            && (forall i :: 0 <= i < |r| ==> forall j :: 0 <= j < |r[i].key| ==> r[i].key[j] != '_')
  {
    var es := Normalized(a);
    SetAllSpec(es);
    assert Keys(es) == seq(|a|, i requires 0 <= i < |a| => NormalizeKey(a[i].key));
    var r := SetAll([], es);
    forall i | 0 <= i < |r| ensures forall j :: 0 <= j < |r[i].key| ==> r[i].key[j] != '_' {
      assert r[i].key in Keys(r);
      var n :| 0 <= n < |a| && r[i].key == NormalizeKey(a[n].key);
    }
  }

  /** Keys differing only in case and underscores collapse into one entry holding the later value. */
  lemma ChangeArrayKeysCollapse<V>(k1: string, v1: V, k2: string, v2: V)
    requires NormalizeKey(k1) == NormalizeKey(k2)
    ensures SetAll([], Normalized([Entry(k1, v1), Entry(k2, v2)])) == [Entry(NormalizeKey(k1), v2)]
  {
    var n := NormalizeKey(k1);
    var es := Normalized([Entry(k1, v1), Entry(k2, v2)]);
    assert es == [Entry(n, v1), Entry(n, v2)];
    assert es[..1][..0] == [];
    assert SetAll([], es[..1]) == Set([], n, v1) == [Entry(n, v1)];
    assert SetAll([], es) == Set([Entry(n, v1)], n, v2) == [Entry(n, v2)];
  }

  /*
   * ---------------------------------------------------------------- getArrayByMapping
   */

  /** The entries whose value is not null, in order. */
  function NonNull(a: PhpArray<Value>): (r: PhpArray<Value>)
    decreases |a|
  {
    if a == [] then []
    else
      var last := a[|a| - 1];
      NonNull(a[..|a| - 1]) + (if last.value == Null then [] else [last])
  }

  /**
   * Dropping null entries from an array with unique keys: a key keeps its value when that is
   * not null and is absent otherwise.
   */
  lemma {:induction false} NonNullLastValue(a: PhpArray<Value>, k: string)
    requires UniqueKeys(a)
    ensures LastValue(NonNull(a), k) == if LastValue(a, k) == Some(Null) then None else LastValue(a, k)
    decreases |a|
  {
    if a != [] {
      var init, last := a[..|a| - 1], a[|a| - 1];
      assert UniqueKeys(init) by {
        assert forall i :: 0 <= i < |init| ==> init[i] == a[i];
      }
      NonNullLastValue(init, k);
      if last.value != Null {
        LastValueAppend(NonNull(init), last, k);
      } else {
        assert NonNull(a) == NonNull(init) + [] == NonNull(init);
        if last.key != k {
          assert LastValue(a, k) == LastValue(init, k);
        } else {
          assert forall i :: 0 <= i < |init| ==> init[i].key != last.key;
          assert k !in Keys(init);
          LastValueNone(init, k);
          assert LastValue(init, k) == None;
          assert LastValue(a, k) == Some(Null);
        }
      }
    }
  }

  lemma LastValueAppend<V>(es: seq<Entry<V>>, e: Entry<V>, k: string)
    ensures LastValue(es + [e], k) == if e.key == k then Some(e.value) else LastValue(es, k)
  {
    assert (es + [e])[..|es|] == es;
  }

  lemma NonNullStep(a: PhpArray<Value>, i: nat)
    requires i < |a|
    ensures a[i].value == Null ==> NonNull(a[..i + 1]) == NonNull(a[..i])
    ensures a[i].value != Null ==> NonNull(a[..i + 1]) == NonNull(a[..i]) + [a[i]]
  {
    assert a[..i + 1][..i] == a[..i];
    assert NonNull(a[..i]) + [] == NonNull(a[..i]);
  }

  lemma SetAllStep<V>(es: seq<Entry<V>>, e: Entry<V>)
    ensures SetAll([], es + [e]) == Set(SetAll([], es), e.key, e.value)
  {
    assert (es + [e])[..|es|] == es;
  }

  /** The entity as the model sees it: the mapped columns and the values of their properties. */
  class Entity {
    var columns: PhpArray<Value>

    /** The columns' values with those present in the row replaced by the row's. */
    static function Loaded(cols: PhpArray<Value>, row: Row): (r: PhpArray<Value>)
      ensures |r| == |cols|
    {
      seq(|cols|, i requires 0 <= i < |cols| =>
        if cols[i].key in row then Entry(cols[i].key, row[cols[i].key]) else cols[i])
    }

    /**
     * The constructor: the entity starts with its properties' declared values and loads from
     * the row only when one is given.
     */
    constructor(defaults: PhpArray<Value>, row: Option<Row>)
      ensures row.None? ==> columns == defaults
      ensures row.Some? ==> columns == Loaded(defaults, row.value)
    {
      columns := defaults;
      new;
      if row.Some? {
        var self := LoadFromActiveRow(row.value);
      }
    }

    /**
     * `loadFromActiveRow`: each mapped column the row has takes the row's value, the others
     * keep theirs; the entity itself is returned.
     */
    method LoadFromActiveRow(row: Row) returns (self: Entity)
      modifies this
      ensures self == this
      ensures columns == Loaded(old(columns), row)
    {
      ghost var before := columns;
      var i := 0;
      while i < |columns|
        invariant 0 <= i <= |columns| == |before|
        invariant forall k :: 0 <= k < i ==> columns[k] == Loaded(before, row)[k]
        invariant forall k :: i <= k < |columns| ==> columns[k] == before[k]
      {
        var column := columns[i].key;
        if column in row {
          columns := columns[i := Entry(column, row[column])];
        }
        i := i + 1;
      }
      return this;
    }

    /**
     * `getArrayByMapping`: the columns whose value is set, with their values; it changes
     * nothing.
     */
    method GetArrayByMapping() returns (r: PhpArray<Value>)
      ensures r == SetAll([], NonNull(columns))
    {
      var a := columns;
      r := [];
      var i := 0;
      while i < |a|
        invariant 0 <= i <= |a|
        invariant r == SetAll([], NonNull(a[..i]))
      {
        NonNullStep(a, i);
        if a[i].value != Null {
          SetAllStep(NonNull(a[..i]), a[i]);
          r := Set(r, a[i].key, a[i].value);
        }
        i := i + 1;
      }
      assert a[..|a|] == a;
    }

    /** `getNullId`: the id that stands for NULL in lists, below every auto-increment id. */
    static function GetNullId(): (r: int)
      ensures r == -1
    {
      -1
    }
  }

  /**
   * Loading changes only the values of columns the row has, to the row's values, and keeps the
   * columns and their order.
   */
  lemma LoadedSpec(cols: PhpArray<Value>, row: Row)
    ensures Keys(Entity.Loaded(cols, row)) == Keys(cols)
    ensures forall k :: Get(Entity.Loaded(cols, row), k) ==
              if k in row && k in Keys(cols) then Some(row[k]) else Get(cols, k)
  {
    forall k ensures Get(Entity.Loaded(cols, row), k) == if k in row && k in Keys(cols) then Some(row[k]) else Get(cols, k) {
      LoadedGet(cols, row, k);
    }
  }

  lemma {:induction false} LoadedGet(cols: PhpArray<Value>, row: Row, k: string)
    ensures Get(Entity.Loaded(cols, row), k) == if k in row && k in Keys(cols) then Some(row[k]) else Get(cols, k)
    decreases |cols|
  {
    GetSpec(cols, k);
    if cols != [] {
      var l := Entity.Loaded(cols, row);
      assert l[1..] == Entity.Loaded(cols[1..], row);
      LoadedGet(cols[1..], row, k);
      assert Keys(cols) == [cols[0].key] + Keys(cols[1..]);
    }
  }

  /** Loading the same row twice is loading it once. */
  lemma LoadedIdempotent(cols: PhpArray<Value>, row: Row)
    ensures Entity.Loaded(Entity.Loaded(cols, row), row) == Entity.Loaded(cols, row)
  {
  }

  /**
   * `getArrayByMapping` on a mapping (whose keys are unique): a column is listed with its
   * value exactly when that value is not null, so the result is a part of the mapping.
   */
  lemma GetArrayByMappingSpec(columns: PhpArray<Value>)
    requires UniqueKeys(columns)
    ensures var r := SetAll([], NonNull(columns));
            && UniqueKeys(r)
            && forall k :: Get(r, k) == if Get(columns, k) == Some(Null) then None else Get(columns, k)
  {
    SetAllSpec(NonNull(columns));
    forall k ensures LastValue(NonNull(columns), k) == if Get(columns, k) == Some(Null) then None else Get(columns, k) {
      NonNullLastValue(columns, k);
      UniqueLastValue(columns, k);
    }
  }
}
