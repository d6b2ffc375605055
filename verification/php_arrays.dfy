/**
 * PHP arrays with string keys, as the generator and the base entity use them: an ordered list
 * of entries in which each key occurs once. Writing `$a[$k] = $v` replaces the value of an
 * existing key where it stands and appends a new key at the end.
 */
module PhpArrays {
  import opened Wrappers

  datatype Entry<V> = Entry(key: string, value: V)

  type PhpArray<V> = seq<Entry<V>>

  function Keys<V>(a: PhpArray<V>): (ks: seq<string>)
    ensures |ks| == |a|
    ensures forall i :: 0 <= i < |a| ==> ks[i] == a[i].key
  {
    seq(|a|, i requires 0 <= i < |a| => a[i].key)
  }

  predicate UniqueKeys<V>(a: PhpArray<V>) {
    forall i, j :: 0 <= i < j < |a| ==> a[i].key != a[j].key
  }

  /** `$a[$k]` when `isset`: the value stored under `k`, or `None` when `k` is not a key. */
  function Get<V>(a: PhpArray<V>, k: string): Option<V>
  {
    if a == [] then None
    else if a[0].key == k then Some(a[0].value)
    else Get(a[1..], k)
  }

  /** With unique keys, `Get` finds the entry holding the key, and only a key that is present. */
  lemma GetSpec<V>(a: PhpArray<V>, k: string)
    ensures Get(a, k).None? <==> k !in Keys(a)
    ensures UniqueKeys(a) ==> forall i :: 0 <= i < |a| && a[i].key == k ==> Get(a, k) == Some(a[i].value)
  {
    GetMissing(a, k);
    if UniqueKeys(a) {
      forall i | 0 <= i < |a| && a[i].key == k ensures Get(a, k) == Some(a[i].value) {
        GetFound(a, k, i);
      }
    }
  }

  lemma {:induction false} GetMissing<V>(a: PhpArray<V>, k: string)
    ensures Get(a, k).None? <==> k !in Keys(a)
    decreases |a|
  {
    if a != [] {
      GetMissing(a[1..], k);
      assert Keys(a) == [a[0].key] + Keys(a[1..]);
    }
  }

  lemma {:induction false} GetFound<V>(a: PhpArray<V>, k: string, i: nat)
    requires UniqueKeys(a) && i < |a| && a[i].key == k
    ensures Get(a, k) == Some(a[i].value)
    decreases i
  {
    if i > 0 {
      assert a[0].key != a[i].key;
      assert a[1..][i - 1] == a[i];
      GetFound(a[1..], k, i - 1);
    }
  }

  function Set<V>(a: PhpArray<V>, k: string, v: V): PhpArray<V>
  {
    if a == [] then [Entry(k, v)]
    else if a[0].key == k then [Entry(k, v)] + a[1..]
    else [a[0]] + Set(a[1..], k, v)
  }

  /**
   * `$a[$k] = $v`: afterwards `k` holds `v`, every other key holds what it held, the keys
   * stay unique, and the key order is unchanged except that a new key goes last.
   */
  lemma SetSpec<V>(a: PhpArray<V>, k: string, v: V)
    ensures UniqueKeys(a) ==> UniqueKeys(Set(a, k, v))
    ensures Get(Set(a, k, v), k) == Some(v)
    ensures forall k' :: k' != k ==> Get(Set(a, k, v), k') == Get(a, k')
    ensures Keys(Set(a, k, v)) == if k in Keys(a) then Keys(a) else Keys(a) + [k]
  {
    SetValues(a, k, v);
    SetKeys(a, k, v);
    if UniqueKeys(a) {
      SetUnique(a, k, v);
    }
  }

  lemma {:induction false} SetValues<V>(a: PhpArray<V>, k: string, v: V)
    ensures Get(Set(a, k, v), k) == Some(v)
    ensures forall k' :: k' != k ==> Get(Set(a, k, v), k') == Get(a, k')
  {
    if a != [] {
      ConsProperties(a[0], a[1..]);
      assert a == [a[0]] + a[1..];
      if a[0].key == k {
        ConsProperties(Entry(k, v), a[1..]);
      } else {
        SetValues(a[1..], k, v);
        ConsProperties(a[0], Set(a[1..], k, v));
      }
    }
  }

  lemma {:induction false} SetKeys<V>(a: PhpArray<V>, k: string, v: V)
    ensures Keys(Set(a, k, v)) == if k in Keys(a) then Keys(a) else Keys(a) + [k]
  {
    if a == [] {
      assert Keys(Set(a, k, v)) == [k];
    } else {
      ConsProperties(a[0], a[1..]);
      assert a == [a[0]] + a[1..];
      if a[0].key == k {
        ConsProperties(Entry(k, v), a[1..]);
      } else {
        var rest := Set(a[1..], k, v);
        SetKeys(a[1..], k, v);
        ConsProperties(a[0], rest);
        assert k in Keys(a) <==> k in Keys(a[1..]);
        if k !in Keys(a[1..]) {
          assert [a[0].key] + (Keys(a[1..]) + [k]) == ([a[0].key] + Keys(a[1..])) + [k];
        }
      }
    }
  }

  lemma {:induction false} SetUnique<V>(a: PhpArray<V>, k: string, v: V)
    requires UniqueKeys(a)
    ensures UniqueKeys(Set(a, k, v))
  {
    if a != [] {
      ConsProperties(a[0], a[1..]);
      ConsUnique(a[0], a[1..]);
      assert a == [a[0]] + a[1..];
      if a[0].key == k {
        ConsProperties(Entry(k, v), a[1..]);
        ConsUnique(Entry(k, v), a[1..]);
      } else {
        var rest := Set(a[1..], k, v);
        SetUnique(a[1..], k, v);
        SetKeys(a[1..], k, v);
        ConsProperties(a[0], rest);
        ConsUnique(a[0], rest);
      }
    }
  }

  lemma ConsProperties<V>(e: Entry<V>, a: PhpArray<V>)
    ensures Keys([e] + a) == [e.key] + Keys(a)
    ensures forall k :: Get([e] + a, k) == if e.key == k then Some(e.value) else Get(a, k)
  {
    assert ([e] + a)[1..] == a;
  }

  lemma ConsUnique<V>(e: Entry<V>, a: PhpArray<V>)
    ensures UniqueKeys([e] + a) <==> UniqueKeys(a) && e.key !in Keys(a)
  {
    var b := [e] + a;
    assert forall i :: 1 <= i < |b| ==> b[i] == a[i - 1];
    if UniqueKeys(a) && e.key !in Keys(a) {
      forall i, j | 0 <= i < j < |b| ensures b[i].key != b[j].key {
        if i == 0 {
          assert b[j].key == Keys(a)[j - 1];
        }
      }
    }
    if UniqueKeys(b) {
      forall i, j | 0 <= i < j < |a| ensures a[i].key != a[j].key {
        assert b[i + 1].key != b[j + 1].key;
      }
      forall j | 0 <= j < |a| ensures Keys(a)[j] != e.key {
        assert b[0].key != b[j + 1].key;
      }
    }
  }

  /** The strings of `ks` in the order of their first occurrence, each once. */
  function Distinct(ks: seq<string>): (r: seq<string>)
    ensures forall k :: k in r <==> k in ks
    ensures forall i, j :: 0 <= i < j < |r| ==> r[i] != r[j]
  {
    if ks == [] then []
    else
      var init := ks[..|ks| - 1];
      var last := ks[|ks| - 1];
      assert ks == init + [last];
      if last in init then Distinct(init) else Distinct(init) + [last]
  }

  /** Writing entries one after another, `foreach ($es as $k => $v) { $a[$k] = $v; }`. */
  function SetAll<V>(a: PhpArray<V>, es: seq<Entry<V>>): PhpArray<V>
    decreases |es|
  {
    if es == [] then a
    else
      var last := es[|es| - 1];
      Set(SetAll(a, es[..|es| - 1]), last.key, last.value)
  }

  /** The value of the last entry of `es` with key `k`. */
  function LastValue<V>(es: seq<Entry<V>>, k: string): Option<V>
    decreases |es|
  {
    if es == [] then None
    else if es[|es| - 1].key == k then Some(es[|es| - 1].value)
    else LastValue(es[..|es| - 1], k)
  }

  /**
   * Writing entries into an empty array gives each key once, in the order of its first
   * entry, holding the value of its last entry.
   */
  lemma SetAllSpec<V>(es: seq<Entry<V>>)
    ensures UniqueKeys(SetAll([], es))
    ensures Keys(SetAll([], es)) == Distinct(Keys(es))
    ensures forall k :: Get(SetAll([], es), k) == LastValue(es, k)
  {
    SetAllKeys(es);
    forall k {
      SetAllValues(es, k);
    }
  }

  lemma {:induction false} SetAllKeys<V>(es: seq<Entry<V>>)
    ensures UniqueKeys(SetAll([], es))
    ensures Keys(SetAll([], es)) == Distinct(Keys(es))
    decreases |es|
  {
    if es != [] {
      var init, last := es[..|es| - 1], es[|es| - 1];
      SetAllKeys(init);
      var before := SetAll([], init);
      SetKeys(before, last.key, last.value);
      SetUnique(before, last.key, last.value);
      var ks := Keys(es);
      assert ks[..|ks| - 1] == Keys(init) && ks[|ks| - 1] == last.key;
      assert last.key in Keys(before) <==> last.key in Keys(init);
    }
  }

  lemma {:induction false} SetAllValues<V>(es: seq<Entry<V>>, k: string)
    ensures Get(SetAll([], es), k) == LastValue(es, k)
    decreases |es|
  {
    if es != [] {
      var init, last := es[..|es| - 1], es[|es| - 1];
      SetAllValues(init, k);
      SetValues(SetAll([], init), last.key, last.value);
    }
  }

  /** `LastValue` finds a value exactly for the keys that occur. */
  lemma {:induction false} LastValueNone<V>(es: seq<Entry<V>>, k: string)
    ensures LastValue(es, k).None? <==> k !in Keys(es)
    decreases |es|
  {
    if es != [] {
      var init := es[..|es| - 1];
      LastValueNone(init, k);
      assert Keys(es) == Keys(init) + [es[|es| - 1].key];
    }
  }

  /** Looking up after appending an entry. */
  lemma {:induction false} GetAppend<V>(a: PhpArray<V>, e: Entry<V>, k: string)
    ensures Get(a + [e], k) == if Get(a, k).Some? then Get(a, k) else if e.key == k then Some(e.value) else None
    decreases |a|
  {
    if a != [] {
      assert (a + [e])[1..] == a[1..] + [e];
      GetAppend(a[1..], e, k);
    }
  }

  /** In an array with unique keys, the last entry with a key is its only one, the one `Get` finds. */
  lemma {:induction false} UniqueLastValue<V>(a: PhpArray<V>, k: string)
    requires UniqueKeys(a)
    ensures LastValue(a, k) == Get(a, k)
    decreases |a|
  {
    if a != [] {
      var init, last := a[..|a| - 1], a[|a| - 1];
      assert a == init + [last];
      UniqueLastValue(init, k);
      GetAppend(init, last, k);
      if last.key == k {
        GetSpec(init, k);
        assert k !in Keys(init);
      }
    }
  }
}
