/**
 * Plain JavaScript objects with string keys, as the scaffolder and its tests
 * use them: an object is the ordered list of its own properties, in the order
 * in which they are enumerated. For keys that are not array indices (not
 * canonical numeric strings such as `"0"` or `"42"`) that is insertion order,
 * the only order modelled here; JavaScript enumerates index-like keys first,
 * in ascending numeric order.
 *
 * Assigning an existing key replaces its value and keeps its position;
 * assigning a new key adds it last. Object spread (`{...o, ...src}`) and
 * `Object.fromEntries` are both such assignments, made one by one.
 */
module Entries {
  import opened Wrappers

  /** A list of `[key, value]` pairs, as `Object.entries` gives and `Object.fromEntries` takes. */
  type Entries<V> = seq<(string, V)>

  predicate UniqueKeys<V>(e: Entries<V>) {
    forall i, j :: 0 <= i < j < |e| ==> e[i].0 != e[j].0
  }

  /** An object: no key occurs twice. */
  type Object<V> = o: Entries<V> | UniqueKeys(o) witness []

  predicate HasKey<V>(e: Entries<V>, k: string) {
    exists i :: 0 <= i < |e| && e[i].0 == k
  }

  /** The keys in enumeration order (`Object.keys`). */
  function Keys<V>(e: Entries<V>): seq<string> {
    seq(|e|, i requires 0 <= i < |e| => e[i].0)
  }

  /** The position of the first pair with key `k`. */
  function IndexOf<V>(e: Entries<V>, k: string): (r: Option<nat>)
    ensures r.Some? ==> r.value < |e| && e[r.value].0 == k
    ensures r.Some? ==> forall i :: 0 <= i < r.value ==> e[i].0 != k
    ensures r.None? <==> !HasKey(e, k)
    decreases |e|
  {
    if e == [] then None
    else if e[0].0 == k then Some(0)
    else
      match IndexOf(e[1..], k)
      case None => None
      case Some(i) => Some(i + 1)
  }

  /** Property access `o[k]`; `None` stands for `undefined`. */
  function Get<V>(e: Entries<V>, k: string): (r: Option<V>)
    ensures r.Some? <==> HasKey(e, k)
  {
    match IndexOf(e, k)
    case None => None
    case Some(i) => Some(e[i].1)
  }

  /** In an object, the pair at position `i` is what `o[key]` finds. */
  lemma GetAt<V>(o: Object<V>, i: nat)
    requires i < |o|
    ensures Get(o, o[i].0) == Some(o[i].1)
  {
    var j := IndexOf(o, o[i].0).value;
    assert j == i by {
      if j < i { assert o[j].0 == o[i].0; }
    }
  }

  /** A pair belongs to an object exactly when `o[key]` finds its value. */
  lemma GetIn<V>(o: Object<V>, k: string, v: V)
    ensures Get(o, k) == Some(v) <==> (k, v) in o
  {
    if (k, v) in o {
      var i :| 0 <= i < |o| && o[i] == (k, v);
      GetAt(o, i);
    }
  }

  /** Assignment `o[k] = v`: an existing key keeps its position, a new key goes last. */
  function Assign<V>(o: Object<V>, k: string, v: V): Object<V> {
    match IndexOf(o, k)
    case None => o + [(k, v)]
    case Some(i) => o[i := (k, v)]
  }

  /**
   * After `o[k] = v`, `k` holds `v` and every other key keeps its value; the
   * key order changes only by adding a new key at the end.
   */
  lemma AssignSpec<V>(o: Object<V>, k: string, v: V)
    ensures Get(Assign(o, k, v), k) == Some(v)
    ensures forall j :: j != k ==> Get(Assign(o, k, v), j) == Get(o, j)
    ensures HasKey(o, k) ==> Keys(Assign(o, k, v)) == Keys(o)
    ensures !HasKey(o, k) ==> Assign(o, k, v) == o + [(k, v)]
  {
    var r := Assign(o, k, v);
    match IndexOf(o, k)
    case None =>
      forall j | j != k ensures Get(r, j) == Get(o, j) {
        if HasKey(o, j) {
          var i := IndexOf(o, j).value;
          GetAt(o, i);
          GetAt(r, i);
        }
      }
      GetAt(r, |o|);
    case Some(i) =>
      forall j | j != k ensures Get(r, j) == Get(o, j) {
        if HasKey(o, j) {
          var m := IndexOf(o, j).value;
          GetAt(o, m);
          GetAt(r, m);
        } else {
          assert !HasKey(r, j);
        }
      }
      GetAt(r, i);
  }

  /** Assigns the pairs of `src` to `o` one by one, in order: `{...o, ...src}`. */
  function Spread<V>(o: Object<V>, src: Entries<V>): Object<V>
    decreases |src|
  {
    if src == [] then o else Spread(Assign(o, src[0].0, src[0].1), src[1..])
  }

  /** `Object.fromEntries`: a later pair with the same key wins, at the first one's position. */
  function FromEntries<V>(e: Entries<V>): Object<V> {
    Spread([], e)
  }

  /** After a spread, a key of `src` has `src`'s value; every other key keeps `o`'s. */
  lemma {:induction false} SpreadGet<V>(o: Object<V>, src: Object<V>, k: string)
    ensures Get(Spread(o, src), k) == if HasKey(src, k) then Get(src, k) else Get(o, k)
    decreases |src|
  {
    if src != [] {
      var o' := Assign(o, src[0].0, src[0].1);
      AssignSpec(o, src[0].0, src[0].1);
      var rest: Object<V> := src[1..];
      SpreadGet(o', rest, k);
      GetAt(src, 0);
      if k != src[0].0 {
        assert HasKey(src, k) <==> HasKey(rest, k) by {
          if HasKey(src, k) {
            var i :| 0 <= i < |src| && src[i].0 == k;
            assert rest[i - 1].0 == k;
          }
        }
        if HasKey(rest, k) {
          var i := IndexOf(rest, k).value;
          GetAt(rest, i);
          GetAt(src, i + 1);
        }
      } else {
        assert !HasKey(rest, k);
      }
    }
  }

  /** A spread never moves the keys already present: they stay first, in their order. */
  lemma {:induction false} SpreadKeepsPositions<V>(o: Object<V>, src: Entries<V>)
    ensures |Spread(o, src)| >= |o|
    ensures Keys(Spread(o, src))[..|o|] == Keys(o)
    decreases |src|
  {
    if src != [] {
      var o' := Assign(o, src[0].0, src[0].1);
      AssignSpec(o, src[0].0, src[0].1);
      SpreadKeepsPositions(o', src[1..]);
      assert Keys(o')[..|o|] == Keys(o);
    }
  }

  /** Spreading an object whose keys are all new appends it unchanged. */
  lemma {:induction false} SpreadFresh<V>(o: Object<V>, src: Object<V>)
    requires forall k :: HasKey(src, k) ==> !HasKey(o, k)
    ensures Spread(o, src) == o + src
    decreases |src|
  {
    if src != [] {
      FreshAfterHead(o, src);
      var o': Object<V> := o + [src[0]];
      var rest: Object<V> := src[1..];
      SpreadFresh(o', rest);
      AppendHead(o, src);
    }
  }

  /** The first step of a spread of fresh keys appends the first pair, and leaves the rest fresh. */
  lemma FreshAfterHead<V>(o: Object<V>, src: Object<V>)
    requires src != []
    requires forall k :: HasKey(src, k) ==> !HasKey(o, k)
    ensures UniqueKeys(o + [src[0]])
    ensures Spread(o, src) == Spread(o + [src[0]], src[1..])
    ensures forall k :: HasKey(src[1..], k) ==> !HasKey(o + [src[0]], k)
  {
    var o' := o + [src[0]];
    assert HasKey(src, src[0].0);
    AssignSpec(o, src[0].0, src[0].1);
    forall k | HasKey(src[1..], k) ensures !HasKey(o', k) {
      var i :| 0 <= i < |src[1..]| && src[1..][i].0 == k;
      assert src[i + 1].0 == k && src[0].0 != k;
      assert HasKey(src, k);
      forall j | 0 <= j < |o'| ensures o'[j].0 != k {
        if j < |o| { assert o'[j] == o[j]; }
      }
    }
  }

  lemma AppendHead<T>(a: seq<T>, s: seq<T>)
    requires s != []
    ensures a + [s[0]] + s[1..] == a + s
  {
    assert [s[0]] + s[1..] == s;
  }

  /** Spreading an object into `{}` copies it, order included. */
  lemma SpreadCopies<V>(src: Object<V>)
    ensures Spread([], src) == src
  {
    SpreadFresh([], src);
  }

  /** Spreading a single pair is one assignment. */
  lemma SpreadOne<V>(o: Object<V>, k: string, v: V)
    ensures Spread(o, [(k, v)]) == Assign(o, k, v)
  {
    assert [(k, v)][1..] == [];
  }

  /** The value of the last pair with key `k`, if any. */
  function LastValue<V>(e: Entries<V>, k: string): (r: Option<V>)
    ensures r.Some? ==> (k, r.value) in e
    ensures r.None? <==> !HasKey(e, k)
    decreases |e|
  {
    if e == [] then None
    else
      match LastValue(e[1..], k)
      case Some(v) => Some(v)
      case None => if e[0].0 == k then Some(e[0].1) else None
  }

  /** In `a + b`, a pair of `b` comes later than every pair of `a`. */
  lemma {:induction false} LastValueAppend<V>(a: Entries<V>, b: Entries<V>, k: string)
    ensures LastValue(a + b, k) == if LastValue(b, k).Some? then LastValue(b, k) else LastValue(a, k)
    decreases |a|
  {
    if a != [] {
      assert (a + b)[1..] == a[1..] + b;
      LastValueAppend(a[1..], b, k);
    } else {
      assert a + b == b;
    }
  }

  /** After a spread, a key takes the value of the last pair of `src` with that key, if there is one. */
  lemma {:induction false} SpreadLast<V>(o: Object<V>, src: Entries<V>, k: string)
    ensures Get(Spread(o, src), k) == if LastValue(src, k).Some? then LastValue(src, k) else Get(o, k)
    decreases |src|
  {
    if src != [] {
      AssignSpec(o, src[0].0, src[0].1);
      SpreadLast(Assign(o, src[0].0, src[0].1), src[1..], k);
    }
  }

  /** `Object.fromEntries`: a key takes the value of its last pair. */
  lemma FromEntriesGet<V>(e: Entries<V>, k: string)
    ensures Get(FromEntries(e), k) == LastValue(e, k)
  {
    SpreadLast([], e, k);
  }

  /** Looking a key up in a non-empty object: its first pair, or the rest. */
  lemma GetCons<V>(o: Object<V>, k: string)
    requires o != []
    ensures Get(o, k) == if o[0].0 == k then Some(o[0].1) else Get(o[1..], k)
    ensures HasKey(o, k) <==> o[0].0 == k || HasKey(o[1..], k)
  {
    if HasKey(o, k) && o[0].0 != k {
      var i :| 0 <= i < |o| && o[i].0 == k;
      assert o[1..][i - 1].0 == k;
    }
  }
}
