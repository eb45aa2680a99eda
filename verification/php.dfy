/** PHP value semantics the tasks rely on: nullable properties, `empty()`
    and string conversion of `null`. */
module Php {

  /** A PHP value that may be `null`. */
  datatype Option<+T> = None | Some(value: T)

  /** Either a value or the error (exception or failed `Result`) that replaced it. */
  datatype Result<+T, +E> = Ok(value: T) | Err(error: E)

  /** `empty($x)` on a nullable string: `null`, `""` and `"0"` are empty.
      For strings this is also the negation of PHP truthiness (`if ($x)`). */
  predicate Empty(o: Option<string>)
  {
    o.None? || o.value == "" || o.value == "0"
  }

  /** A nullable string used in string context (`sprintf`, `.`): `null` reads as `""`. */
  function Str(o: Option<string>): string
  {
    if o.None? then "" else o.value
  }

  /** PHP's DIRECTORY_SEPARATOR on the POSIX systems the tasks are run on. */
  const DirectorySeparator: string := "/"

  /** An ordered PHP array with string keys, as a list of key/value pairs. */
  type Assoc = seq<(string, string)>

  /** `array_keys($a)`: the keys in insertion order. */
  function Keys(a: Assoc): (ks: seq<string>)
    ensures |ks| == |a|
    ensures forall i | 0 <= i < |a| :: ks[i] == a[i].0
  {
    if a == [] then [] else [a[0].0] + Keys(a[1..])
  }

  /** `$a[$key] ?? null`: the value stored under `key`, if any. */
  function Lookup(a: Assoc, key: string): (v: Option<string>)
    ensures v.None? <==> key !in Keys(a)
    ensures v.Some? ==> (key, v.value) in a
  {
    if a == [] then None
    else if a[0].0 == key then Some(a[0].1)
    else Lookup(a[1..], key)
  }

  /** A PHP array never repeats a key. */
  predicate DistinctKeys(a: Assoc)
  {
    forall i, j | 0 <= i < j < |a| :: a[i].0 != a[j].0
  }

  /** The array without `key`, order otherwise kept. Assigning `$a[$key]`
      again keeps the key at its first position; the partial-dump loop is
      modelled by putting a table's entry in front of the rest's entries with
      that key removed. */
  function RemoveKey(a: Assoc, key: string): (b: Assoc)
    ensures forall k :: k in Keys(b) <==> k in Keys(a) && k != key
    ensures forall k | k != key :: Lookup(b, k) == Lookup(a, k)
    ensures forall p | p in b :: p in a
    ensures DistinctKeys(a) ==> DistinctKeys(b)
  {
    if a == [] then []
    else if a[0].0 == key then RemoveKey(a[1..], key)
    else
      var rest := RemoveKey(a[1..], key);
      var b := [a[0]] + rest;
      assert b[1..] == rest;
      assert DistinctKeys(a) ==> DistinctKeys(b) by {
        if DistinctKeys(a) {
          forall j | 0 <= j < |a| - 1 ensures a[1..][j].0 != a[0].0 {
            assert a[1..][j] == a[j + 1];
          }
          assert a[0].0 !in Keys(a[1..]);
          forall j | 1 <= j < |b| ensures b[j].0 != b[0].0 {
            assert b[j].0 == Keys(rest)[j - 1];
          }
        }
      }
      b
  }

  /** Putting a new key in front of a PHP array keeps its keys distinct. */
  lemma PrependNewKey(p: (string, string), a: Assoc)
    requires DistinctKeys(a) && p.0 !in Keys(a)
    ensures DistinctKeys([p] + a)
    ensures Lookup([p] + a, p.0) == Some(p.1)
    ensures forall k | k != p.0 :: Lookup([p] + a, k) == Lookup(a, k)
    ensures forall k :: k in Keys([p] + a) <==> k == p.0 || k in Keys(a)
  {
    var b := [p] + a;
    assert b[1..] == a;
    forall j | 1 <= j < |b| ensures b[j].0 != b[0].0 {
      assert b[j].0 == Keys(a)[j - 1];
    }
  }
}
