/**
  An ordered PHP array as a list of key/value entries: lookup by key and the
  assignment `$a[$k] = $v`, which replaces the entry of an existing key in
  place and appends a new key at the end.
 */
module PhpArray {
  import opened Wrappers
  import opened PhpValues

  type Entries = seq<(Key, Value)>

  /** The keys in array order. */
  function KeysOf(a: Entries): (ks: seq<Key>)
    ensures |ks| == |a|
    ensures forall i :: 0 <= i < |a| ==> ks[i] == a[i].0
  {
    if |a| == 0 then [] else [a[0].0] + KeysOf(a[1..])
  }

  /** A PHP array never holds a key twice. */
  predicate UniqueKeys(a: Entries) {
    forall i, j :: 0 <= i < j < |a| ==> a[i].0 != a[j].0
  }

  /** `$a[$k]` when `array_key_exists($k, $a)`, None otherwise. */
  function Lookup(a: Entries, k: Key): (r: Option<Value>)
    ensures r.None? <==> k !in KeysOf(a)
    ensures r.Some? ==> exists i :: 0 <= i < |a| && a[i] == (k, r.value)
  {
    if |a| == 0 then None
    else if a[0].0 == k then Some(a[0].1)
    else
      var r := Lookup(a[1..], k);
      assert KeysOf(a) == [a[0].0] + KeysOf(a[1..]);
      assert r.Some? ==> exists i :: 0 <= i < |a| && a[i] == (k, r.value) by {
        if r.Some? {
          var i :| 0 <= i < |a[1..]| && a[1..][i] == (k, r.value);
          assert a[i + 1] == a[1..][i];
        }
      }
      r
  }

  /** `$a[$k] = $v`. */
  function Put(a: Entries, k: Key, v: Value): (r: Entries)
    ensures k in KeysOf(a) ==> KeysOf(r) == KeysOf(a)
    ensures k !in KeysOf(a) ==> KeysOf(r) == KeysOf(a) + [k]
  {
    if |a| == 0 then [(k, v)]
    else if a[0].0 == k then [(k, v)] + a[1..]
    else
      assert KeysOf(a) == [a[0].0] + KeysOf(a[1..]);
      assert KeysOf([a[0]] + Put(a[1..], k, v)) == [a[0].0] + KeysOf(Put(a[1..], k, v));
      [a[0]] + Put(a[1..], k, v)
  }

  /** After an assignment the key reads back the new value; every other key is unchanged. */
  lemma {:induction false} LookupPut(a: Entries, k: Key, v: Value, k': Key)
    ensures Lookup(Put(a, k, v), k') == if k' == k then Some(v) else Lookup(a, k')
  {
    if |a| > 0 && a[0].0 != k {
      var r := Put(a, k, v);
      assert r == [a[0]] + Put(a[1..], k, v);
      assert r[1..] == Put(a[1..], k, v);
      LookupPut(a[1..], k, v, k');
    }
  }

  /** Assignment keeps the keys unique. */
  lemma PutKeepsUnique(a: Entries, k: Key, v: Value)
    ensures UniqueKeys(a) ==> UniqueKeys(Put(a, k, v))
  {
    var r := Put(a, k, v);
    if UniqueKeys(a) {
      forall i, j | 0 <= i < j < |r|
        ensures r[i].0 != r[j].0
      {
        assert KeysOf(r)[i] == r[i].0 && KeysOf(r)[j] == r[j].0;
        if k !in KeysOf(a) && j == |a| {
          assert KeysOf(a)[i] == a[i].0;
        } else {
          assert KeysOf(a)[i] == a[i].0 && KeysOf(a)[j] == a[j].0;
        }
      }
    }
  }
}
