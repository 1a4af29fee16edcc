/**
 * Python dictionaries as insertion-ordered item sequences. `Put` is
 * `d[k] = v` (a present key keeps its position and takes the new value, a new
 * key goes to the end) and `Get` is `d.get(k)`. Order matters to the tools:
 * when a dict comprehension lower-cases keys, the later of two colliding
 * items decides the value.
 */
module Dicts {
  import opened Wrappers

  type Dict<V> = seq<(string, V)>

  /** Position of the first item with key `k`, or -1. */
  function IndexOf<V>(d: Dict<V>, k: string): (i: int)
    ensures -1 <= i < |d|
    ensures i >= 0 ==> d[i].0 == k && forall j :: 0 <= j < i ==> d[j].0 != k
    ensures i == -1 ==> forall j :: 0 <= j < |d| ==> d[j].0 != k
    decreases |d|
  {
    if d == [] then -1
    else if d[0].0 == k then 0
    else
      var j := IndexOf(d[1..], k);
      if j < 0 then -1 else j + 1
  }

  function Get<V>(d: Dict<V>, k: string): Option<V> {
    var i := IndexOf(d, k);
    if i < 0 then None else Some(d[i].1)
  }

  function Put<V>(d: Dict<V>, k: string, v: V): Dict<V> {
    var i := IndexOf(d, k);
    if i < 0 then d + [(k, v)] else d[i := (k, v)]
  }

  /** `for k, v in items: d[k] = v` */
  function PutAll<V>(d: Dict<V>, items: Dict<V>): Dict<V>
    decreases |items|
  {
    if items == [] then d else PutAll(Put(d, items[0].0, items[0].1), items[1..])
  }

  /** The set of keys. */
  function Keys<V>(d: Dict<V>): set<string> {
    set i | 0 <= i < |d| :: d[i].0
  }

  /** No key occurs twice, as in every real Python dict. */
  predicate Distinct<V>(d: Dict<V>) {
    forall i, j :: 0 <= i < j < |d| ==> d[i].0 != d[j].0
  }

  /** The value the LAST item with key `k` carries: what a loop of assignments leaves for `k`. */
  function Lookup<V>(items: Dict<V>, k: string): Option<V>
    decreases |items|
  {
    if items == [] then None
    else
      var later := Lookup(items[1..], k);
      if later.Some? then later
      else if items[0].0 == k then Some(items[0].1)
      else None
  }

  lemma PutGet<V>(d: Dict<V>, k: string, v: V, k': string)
    ensures Get(Put(d, k, v), k') == if k' == k then Some(v) else Get(d, k')
  {
    var i := IndexOf(d, k);
    var d' := Put(d, k, v);
    var i' := IndexOf(d', k');
    if k' == k {
      assert d'[if i < 0 then |d| else i] == (k, v);
    } else {
      var j := IndexOf(d, k');
      if j >= 0 {
        assert d'[j] == d[j];
      }
    }
  }

  lemma PutKeys<V>(d: Dict<V>, k: string, v: V)
    ensures Keys(Put(d, k, v)) == Keys(d) + {k}
  {
    var i := IndexOf(d, k);
    var d' := Put(d, k, v);
    if i < 0 {
      assert d'[|d|].0 == k;
      forall x | x in Keys(d') ensures x in Keys(d) + {k} {
        var j :| 0 <= j < |d'| && d'[j].0 == x;
        if j < |d| { assert d[j].0 == x; }
      }
      forall x | x in Keys(d) ensures x in Keys(d') {
        var j :| 0 <= j < |d| && d[j].0 == x;
        assert d'[j].0 == x;
      }
    } else {
      forall x | x in Keys(d) ensures x in Keys(d') {
        var j :| 0 <= j < |d| && d[j].0 == x;
        assert d'[j].0 == x;
      }
      forall x | x in Keys(d') ensures x in Keys(d) {
        var j :| 0 <= j < |d'| && d'[j].0 == x;
        assert d[j].0 == x;
      }
    }
  }

  /** Assigning a key the value it already has changes nothing. */
  lemma PutSame<V>(d: Dict<V>, k: string, v: V)
    requires Get(d, k) == Some(v)
    ensures Put(d, k, v) == d
  {
  }

  lemma PutDistinct<V>(d: Dict<V>, k: string, v: V)
    requires Distinct(d)
    ensures Distinct(Put(d, k, v))
  {
  }

  /** Assigning a key that is not present appends it. */
  lemma PutFresh<V>(d: Dict<V>, k: string, v: V)
    requires k !in Keys(d)
    ensures Put(d, k, v) == d + [(k, v)]
  {
  }

  /** After a run of assignments, a key holds the last value assigned to it, else its old value. */
  lemma {:induction false} PutAllGet<V>(d: Dict<V>, items: Dict<V>, k: string)
    ensures Get(PutAll(d, items), k) == if Lookup(items, k).Some? then Lookup(items, k) else Get(d, k)
    decreases |items|
  {
    if items != [] {
      PutAllGet(Put(d, items[0].0, items[0].1), items[1..], k);
      PutGet(d, items[0].0, items[0].1, k);
    }
  }

  lemma {:induction false} PutAllKeys<V>(d: Dict<V>, items: Dict<V>)
    ensures Keys(PutAll(d, items)) == Keys(d) + Keys(items)
    decreases |items|
  {
    if items != [] {
      PutKeys(d, items[0].0, items[0].1);
      PutAllKeys(Put(d, items[0].0, items[0].1), items[1..]);
      assert Keys(items) == {items[0].0} + Keys(items[1..]) by {
        forall x | x in Keys(items) ensures x in {items[0].0} + Keys(items[1..]) {
          var j :| 0 <= j < |items| && items[j].0 == x;
          if j > 0 { assert items[1..][j - 1].0 == x; }
        }
        forall x | x in Keys(items[1..]) ensures x in Keys(items) {
          var j :| 0 <= j < |items[1..]| && items[1..][j].0 == x;
          assert items[j + 1].0 == x;
        }
      }
    }
  }

  lemma {:induction false} PutAllDistinct<V>(d: Dict<V>, items: Dict<V>)
    requires Distinct(d)
    ensures Distinct(PutAll(d, items))
    decreases |items|
  {
    if items != [] {
      PutDistinct(d, items[0].0, items[0].1);
      PutAllDistinct(Put(d, items[0].0, items[0].1), items[1..]);
    }
  }

  /** Replaying assignments the dict already agrees with changes nothing. */
  lemma {:induction false} PutAllSame<V>(d: Dict<V>, items: Dict<V>)
    requires forall i :: 0 <= i < |items| ==> Get(d, items[i].0) == Some(items[i].1)
    ensures PutAll(d, items) == d
    decreases |items|
  {
    if items != [] {
      PutSame(d, items[0].0, items[0].1);
      PutAllSame(d, items[1..]);
    }
  }

  /** Assigning items whose keys are new and distinct appends them in order. */
  lemma {:induction false} PutAllFresh<V>(d: Dict<V>, items: Dict<V>)
    requires Distinct(d + items)
    ensures PutAll(d, items) == d + items
    decreases |items|
  {
    if items != [] {
      assert (d + items)[|d|] == items[0];
      assert forall j :: 0 <= j < |d| ==> (d + items)[j] == d[j];
      PutFresh(d, items[0].0, items[0].1);
      assert d + items == (d + [items[0]]) + items[1..];
      PutAllFresh(d + [items[0]], items[1..]);
    }
  }

  /** The last item with key `k` decides `Lookup`. */
  lemma {:induction false} LookupLast<V>(items: Dict<V>, i: nat, k: string)
    requires i < |items| && items[i].0 == k
    requires forall j :: i < j < |items| ==> items[j].0 != k
    ensures Lookup(items, k) == Some(items[i].1)
    decreases |items|
  {
    if i == 0 {
      LookupAbsent(items[1..], k);
    } else {
      LookupLast(items[1..], i - 1, k);
    }
  }

  lemma {:induction false} LookupAbsent<V>(items: Dict<V>, k: string)
    requires forall j :: 0 <= j < |items| ==> items[j].0 != k
    ensures Lookup(items, k) == None
    decreases |items|
  {
    if items != [] {
      LookupAbsent(items[1..], k);
    }
  }

  /** In a dict with distinct keys every item is what `Lookup` finds. */
  lemma LookupDistinct<V>(items: Dict<V>, i: nat)
    requires Distinct(items) && i < |items|
    ensures Lookup(items, items[i].0) == Some(items[i].1)
  {
    LookupLast(items, i, items[i].0);
  }

  /** The same keys in the same order, each value passed through `g`. */
  function MapValues<V, W>(d: Dict<V>, g: V -> W): (r: Dict<W>)
    ensures |r| == |d|
    ensures forall i :: 0 <= i < |d| ==> r[i] == (d[i].0, g(d[i].1))
  {
    seq(|d|, i requires 0 <= i < |d| => (d[i].0, g(d[i].1)))
  }

  function MapOption<V, W>(o: Option<V>, g: V -> W): Option<W> {
    match o
    case None => None
    case Some(v) => Some(g(v))
  }

  /** Mapping the values keeps every key's position, so a look-up maps its value. */
  lemma GetMapValues<V, W>(d: Dict<V>, g: V -> W, k: string)
    ensures Get(MapValues(d, g), k) == MapOption(Get(d, k), g)
  {
    var r := MapValues(d, g);
    var i := IndexOf(d, k);
    var j := IndexOf(r, k);
    if i >= 0 {
      assert r[i].0 == k;
    }
    if j >= 0 {
      assert d[j].0 == k;
    }
    assert i == j;
  }

  /** Assigning one key after mapping the values leaves every other key's mapped value. */
  lemma PutMapValuesOthers<V, W>(d: Dict<V>, g: V -> W, k: string, v: W)
    ensures forall k' :: k' != k ==> Get(Put(MapValues(d, g), k, v), k') == MapOption(Get(d, k'), g)
  {
    forall k' | k' != k ensures Get(Put(MapValues(d, g), k, v), k') == MapOption(Get(d, k'), g) {
      PutGet(MapValues(d, g), k, v, k');
      GetMapValues(d, g, k');
    }
  }

  lemma {:induction false} LookupMapValues<V, W>(d: Dict<V>, g: V -> W, k: string)
    ensures Lookup(MapValues(d, g), k) == MapOption(Lookup(d, k), g)
    decreases |d|
  {
    if d != [] {
      assert MapValues(d, g)[1..] == MapValues(d[1..], g);
      LookupMapValues(d[1..], g, k);
    }
  }

  lemma MapValuesKeys<V, W>(d: Dict<V>, g: V -> W)
    ensures Keys(MapValues(d, g)) == Keys(d)
    ensures Distinct(d) ==> Distinct(MapValues(d, g))
  {
    var r := MapValues(d, g);
    forall x | x in Keys(r) ensures x in Keys(d) {
      var j :| 0 <= j < |r| && r[j].0 == x;
      assert d[j].0 == x;
    }
    forall x | x in Keys(d) ensures x in Keys(r) {
      var j :| 0 <= j < |d| && d[j].0 == x;
      assert r[j].0 == x;
    }
  }

  /** In a dict with distinct keys, the last item for a key is its only item. */
  lemma LookupIsGet<V>(d: Dict<V>, k: string)
    requires Distinct(d)
    ensures Lookup(d, k) == Get(d, k)
  {
    var i := IndexOf(d, k);
    if i < 0 {
      LookupAbsent(d, k);
    } else {
      LookupLast(d, i, k);
    }
  }

  /** Items with other keys do not affect what `Lookup` finds for `k`. */
  lemma {:induction false} LookupUpdateOther<V>(d: Dict<V>, j: nat, x: (string, V), k: string)
    requires j < |d| && d[j].0 != k && x.0 != k
    ensures Lookup(d[j := x], k) == Lookup(d, k)
    decreases |d|
  {
    if j > 0 {
      assert d[j := x][1..] == d[1..][j - 1 := x];
      LookupUpdateOther(d[1..], j - 1, x, k);
    } else {
      assert d[j := x][1..] == d[1..];
    }
  }

  lemma {:induction false} LookupAppendOther<V>(d: Dict<V>, x: (string, V), k: string)
    requires x.0 != k
    ensures Lookup(d + [x], k) == Lookup(d, k)
    decreases |d|
  {
    if d == [] {
      assert Lookup([x], k) == Lookup([x][1..], k);
    } else {
      assert (d + [x])[1..] == d[1..] + [x];
      LookupAppendOther(d[1..], x, k);
    }
  }
}
