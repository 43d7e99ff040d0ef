/**
 * Key assignment for list rendering. A record is an object's own fields in
 * order; `{...item, __key: k}` copies the fields and then defines `__key`,
 * which replaces the value of an existing `__key` where it stands and is
 * otherwise added last. The random identifier generator is an oracle
 * that supplies one key per element, in order.
 */
module Util {
  import opened Wrappers

  datatype Field<V> = Field(name: string, value: V)

  const KeyField: string := "__key"

  /** The field names of a record, in order. */
  function Names<V>(r: seq<Field<V>>): (names: seq<string>)
    ensures |names| == |r|
    ensures forall k :: 0 <= k < |r| ==> names[k] == r[k].name
    decreases |r|
  {
    if |r| == 0 then [] else [r[0].name] + Names(r[1..])
  }

  /** An object has each field name at most once. */
  predicate DistinctNames<V>(r: seq<Field<V>>)
  {
    forall i, j :: 0 <= i < j < |r| ==> r[i].name != r[j].name
  }

  /** The value of the named field, from its first occurrence. */
  function Get<V>(r: seq<Field<V>>, name: string): Option<V>
    decreases |r|
  {
    if |r| == 0 then None
    else if r[0].name == name then Some(r[0].value)
    else Get(r[1..], name)
  }

  /**
   * Defines a property as an object literal does: an existing field of that
   * name gets the new value where it stands, otherwise the field is added
   * last. Afterwards the field has the new value and no other field changed.
   */
  function Define<V>(r: seq<Field<V>>, name: string, v: V): (out: seq<Field<V>>)
    ensures Get(out, name) == Some(v)
    ensures forall n :: n != name ==> Get(out, n) == Get(r, n)
    decreases |r|
  {
    if |r| == 0 then [Field(name, v)]
    else if r[0].name == name then [Field(name, v)] + r[1..]
    else [r[0]] + Define(r[1..], name, v)
  }

  /** A name the record lacks is added as its last field, after the others unchanged. */
  lemma {:induction false} DefineAppendsNewField<V>(r: seq<Field<V>>, name: string, v: V)
    requires name !in Names(r)
    ensures Define(r, name, v) == r + [Field(name, v)]
    decreases |r|
  {
    if |r| > 0 {
      assert Names(r) == [r[0].name] + Names(r[1..]);
      DefineAppendsNewField(r[1..], name, v);
      assert r == [r[0]] + r[1..];
    }
  }

  /** A name the record has keeps its place: the field names stay the same, in the same order. */
  lemma {:induction false} DefineKeepsNames<V>(r: seq<Field<V>>, name: string, v: V)
    requires name in Names(r)
    ensures Names(Define(r, name, v)) == Names(r)
    decreases |r|
  {
    if r[0].name != name {
      assert Names(r) == [r[0].name] + Names(r[1..]);
      DefineKeepsNames(r[1..], name, v);
      assert Names(Define(r, name, v)) == [r[0].name] + Names(Define(r[1..], name, v));
    } else {
      assert Names(Define(r, name, v)) == [name] + Names(r[1..]);
    }
  }

  /** Defining a field brings in no name other than its own. */
  lemma {:induction false} DefineNamesFrom<V>(r: seq<Field<V>>, name: string, v: V)
    ensures forall k :: 0 <= k < |Define(r, name, v)| ==>
      Define(r, name, v)[k].name == name || Define(r, name, v)[k].name in Names(r)
    decreases |r|
  {
    if |r| > 0 && r[0].name != name {
      DefineNamesFrom(r[1..], name, v);
      var out := Define(r, name, v);
      forall k | 0 <= k < |out| ensures out[k].name == name || out[k].name in Names(r) {
        if k > 0 {
          assert out[k] == Define(r[1..], name, v)[k - 1];
          assert Names(r)[1..] == Names(r[1..]);
        }
      }
    }
  }

  /** An object with distinct field names still has distinct names after a definition. */
  lemma {:induction false} DefineKeepsDistinct<V>(r: seq<Field<V>>, name: string, v: V)
    requires DistinctNames(r)
    ensures DistinctNames(Define(r, name, v))
    decreases |r|
  {
    if |r| > 0 && r[0].name != name {
      DefineKeepsDistinct(r[1..], name, v);
      DefineNamesFrom(r[1..], name, v);
      var rest := Define(r[1..], name, v);
      assert Define(r, name, v) == [r[0]] + rest;
      forall k | 0 <= k < |rest| ensures rest[k].name != r[0].name {
        if rest[k].name != name {
          var m :| 0 <= m < |r[1..]| && Names(r[1..])[m] == rest[k].name;
          assert r[m + 1].name == rest[k].name;
        }
      }
    }
  }

  /** `{...item, __key: key}`. */
  function WithKey<V>(item: seq<Field<V>>, key: V): (keyed: seq<Field<V>>)
    ensures Get(keyed, KeyField) == Some(key)
    ensures forall n :: n != KeyField ==> Get(keyed, n) == Get(item, n)
  {
    Define(item, KeyField, key)
  }

  /**
   * Copies each record with a `__key` field whose value the oracle gave
   * for that position, every other field keeping its value.
   */
  function Keyify<V>(items: seq<seq<Field<V>>>, keys: seq<V>): (out: seq<seq<Field<V>>>)
    requires |keys| == |items|
    ensures |out| == |items|
    ensures forall i :: 0 <= i < |out| ==> Get(out[i], KeyField) == Some(keys[i])
    ensures forall i, n :: 0 <= i < |out| && n != KeyField ==> Get(out[i], n) == Get(items[i], n)
  {
    seq(|items|, i requires 0 <= i < |items| => WithKey(items[i], keys[i]))
  }

  /**
   * The copy of a record has the same fields in the same order: a record
   * without `__key` gains it at the end, one with `__key` keeps its names,
   * and distinct names stay distinct.
   */
  lemma KeyifyKeepsFieldOrder<V>(items: seq<seq<Field<V>>>, keys: seq<V>, i: int)
    requires |keys| == |items| && 0 <= i < |items|
    ensures KeyField !in Names(items[i]) ==>
      Keyify(items, keys)[i] == items[i] + [Field(KeyField, keys[i])]
    ensures KeyField in Names(items[i]) ==> Names(Keyify(items, keys)[i]) == Names(items[i])
    ensures DistinctNames(items[i]) ==> DistinctNames(Keyify(items, keys)[i])
  {
    if KeyField !in Names(items[i]) {
      DefineAppendsNewField(items[i], KeyField, keys[i]);
    } else {
      DefineKeepsNames(items[i], KeyField, keys[i]);
    }
    if DistinctNames(items[i]) {
      DefineKeepsDistinct(items[i], KeyField, keys[i]);
    }
  }

  /** When the oracle never repeats a value, no two output records share a key. */
  lemma DistinctOracleGivesDistinctKeys<V>(items: seq<seq<Field<V>>>, keys: seq<V>, i: int, j: int)
    requires |keys| == |items|
    requires forall a, b :: 0 <= a < b < |keys| ==> keys[a] != keys[b]
    requires 0 <= i < |items| && 0 <= j < |items| && i != j
    ensures Get(Keyify(items, keys)[i], KeyField) != Get(Keyify(items, keys)[j], KeyField)
  {
  }
}
