/**
 * IndexedDB keys as the cache's object store uses them (key path `id`):
 * which values are keys, and the order in which the store keeps them.
 */
module IdbKeys {
  import opened Wrappers
  import opened JsValues

  /** A valid key: a number (never NaN) or a string. */
  datatype Key = NumKey(x: real) | StrKey(s: string)

  /** The JavaScript value a key was read from. */
  function KeyValue(k: Key): JsValue
  {
    match k
    case NumKey(x) => Num(x)
    case StrKey(s) => Str(s)
  }

  /** The key a value stands for, or `None` when IndexedDB refuses it as a key. */
  function KeyOf(v: JsValue): (k: Option<Key>)
    ensures k.Some? <==> v.Num? || v.Str?
    ensures k.Some? ==> KeyValue(k.value) == v
  {
    match v
    case Num(x) => Some(NumKey(x))
    case Str(s) => Some(StrKey(s))
    case _ => None
  }

  /** Strings compare by their characters, a proper prefix first. */
  predicate StrLess(a: string, b: string)
    decreases |a|
  {
    if a == [] then b != []
    else if b == [] then false
    else if a[0] != b[0] then a[0] < b[0]
    else StrLess(a[1..], b[1..])
  }

  /** Key order: every number before every string, numbers by value, strings by `StrLess`. */
  predicate KeyLess(a: Key, b: Key)
  {
    match (a, b)
    case (NumKey(x), NumKey(y)) => x < y
    case (NumKey(_), StrKey(_)) => true
    case (StrKey(_), NumKey(_)) => false
    case (StrKey(s), StrKey(t)) => StrLess(s, t)
  }

  lemma {:induction false} StrLessIrreflexive(a: string)
    ensures !StrLess(a, a)
    decreases |a|
  {
    if a != [] {
      StrLessIrreflexive(a[1..]);
    }
  }

  lemma {:induction false} StrLessTransitive(a: string, b: string, c: string)
    requires StrLess(a, b) && StrLess(b, c)
    ensures StrLess(a, c)
    decreases |a|
  {
    if a != [] && a[0] == b[0] && b[0] == c[0] {
      StrLessTransitive(a[1..], b[1..], c[1..]);
    }
  }

  lemma {:induction false} StrLessTotal(a: string, b: string)
    requires a != b
    ensures StrLess(a, b) || StrLess(b, a)
    decreases |a|
  {
    if a != [] && b != [] && a[0] == b[0] {
      assert a == [a[0]] + a[1..] && b == [b[0]] + b[1..];
      StrLessTotal(a[1..], b[1..]);
    }
  }

  /** The key order is a strict total order. */
  lemma KeyLessStrictTotal(a: Key, b: Key, c: Key)
    ensures !KeyLess(a, a)
    ensures KeyLess(a, b) && KeyLess(b, c) ==> KeyLess(a, c)
    ensures a != b ==> KeyLess(a, b) || KeyLess(b, a)
  {
    if a.StrKey? {
      StrLessIrreflexive(a.s);
    }
    if a.StrKey? && b.StrKey? && c.StrKey? && KeyLess(a, b) && KeyLess(b, c) {
      StrLessTransitive(a.s, b.s, c.s);
    }
    if a.StrKey? && b.StrKey? && a != b {
      StrLessTotal(a.s, b.s);
    }
  }

  /** `k` is the smallest key of `ks`. */
  predicate IsSmallest(k: Key, ks: set<Key>)
  {
    k in ks && forall k' :: k' in ks && k' != k ==> KeyLess(k, k')
  }

  /** Every non-empty finite set of keys has a smallest key. */
  lemma {:induction false} SmallestExists(ks: set<Key>)
    requires ks != {}
    ensures exists k :: IsSmallest(k, ks)
    decreases |ks|
  {
    var x :| x in ks;
    if ks == {x} {
      assert IsSmallest(x, ks);
    } else {
      var rest := ks - {x};
      SmallestExists(rest);
      var m :| IsSmallest(m, rest);
      KeyLessStrictTotal(x, m, m);
      if KeyLess(x, m) {
        forall k' | k' in ks && k' != x
          ensures KeyLess(x, k')
        {
          if k' != m {
            KeyLessStrictTotal(x, m, k');
          }
        }
        assert IsSmallest(x, ks);
      } else {
        assert IsSmallest(m, ks);
      }
    }
  }

  /** At most one key of a set is its smallest. */
  lemma SmallestUnique(ks: set<Key>)
    ensures forall k, k' :: IsSmallest(k, ks) && IsSmallest(k', ks) ==> k == k'
  {
    forall k, k' | IsSmallest(k, ks) && IsSmallest(k', ks)
      ensures k == k'
    {
      if k != k' {
        KeyLessStrictTotal(k, k', k);
      }
    }
  }

  /** An `IDBKeyRange`: optional lower and upper bounds, each inclusive or open. */
  datatype KeyRange = KeyRange(lower: Option<Key>, upper: Option<Key>, lowerOpen: bool, upperOpen: bool)

  /** `IDBKeyRange.includes`: the key lies between the bounds. */
  predicate InRange(k: Key, r: KeyRange)
  {
    && (r.lower.None? || KeyLess(r.lower.value, k) || (!r.lowerOpen && r.lower.value == k))
    && (r.upper.None? || KeyLess(k, r.upper.value) || (!r.upperOpen && r.upper.value == k))
  }

  /** The query argument of `get` and `delete`: a value to be read as a key, or a key range. */
  datatype Query = KeyQuery(id: JsValue) | RangeQuery(range: KeyRange)

  /** The query names the key `k`, or its range holds `k`. */
  predicate Selects(query: Query, k: Key)
  {
    match query
    case KeyQuery(id) => KeyOf(id) == Some(k)
    case RangeQuery(range) => InRange(k, range)
  }
}
