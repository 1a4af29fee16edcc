/**
 * The tag writer of main.py (`tag_music_file`, `compute`) and the tag store
 * it works on. A file's tags are a Python dict from key to a list of
 * strings; the files on disk are a map from path to their tags and whether
 * they can be written.
 */
module Tagging {
  import opened Wrappers
  import opened Text
  import opened Dicts

  type Tags = Dict<seq<string>>

  /** One file's tag section, and whether opening it for writing succeeds. */
  datatype TagFile = TagFile(tags: Tags, writable: bool)

  type Store = map<string, TagFile>

  /** An incoming metadata value: a plain string or a list of strings. */
  datatype TagValue = Str(s: string) | Items(items: seq<string>)

  /** `', '.join(value)` for a list; a plain string is kept. */
  function Flatten(v: TagValue): (r: string)
    ensures v.Str? ==> r == v.s
    ensures v.Items? && |v.items| == 1 ==> r == v.items[0]
    ensures v.Items? && |v.items| == 0 ==> r == ""
  {
    match v
    case Str(s) => s
    case Items(xs) => Join(xs, ", ")
  }

  function OneElement(v: TagValue): seq<string> {
    [Flatten(v)]
  }

  function AsItems(v: seq<string>): TagValue {
    Items(v)
  }

  /** The items of a dict with every key lower-cased, in order. */
  function LowerKeys<V>(d: Dict<V>): (r: Dict<V>)
    ensures |r| == |d|
    ensures forall i :: 0 <= i < |d| ==> r[i] == (Lower(d[i].0), d[i].1)
  {
    seq(|d|, i requires 0 <= i < |d| => (Lower(d[i].0), d[i].1))
  }

  /** `{key.lower(): value for key, value in d.items()}` */
  function Normalize<V>(d: Dict<V>): Dict<V> {
    PutAll([], LowerKeys(d))
  }

  predicate AllLower<V>(d: Dict<V>) {
    forall k :: k in Keys(d) ==> IsLower(k)
  }

  /**
   * The tags `tag_music_file` leaves: the lower-cased existing tags, then for
   * each lower-cased incoming key the one-element list of its flattened value.
   */
  function Merge(tags: Tags, metadata: Dict<TagValue>): Tags {
    PutAll(Normalize(tags), MapValues(Normalize(metadata), OneElement))
  }

  /** The assignment loop of `tag_music_file`, on the tags read from the file. */
  method TagMusicFile(tags: Tags, metadata: Dict<TagValue>) returns (written: Tags)
    ensures written == Merge(tags, metadata)
  {
    var updates := Normalize(metadata);
    written := Normalize(tags);
    var i := 0;
    while i < |updates|
      invariant 0 <= i <= |updates|
      invariant PutAll(written, MapValues(updates[i..], OneElement)) == Merge(tags, metadata)
    {
      var (key, value) := updates[i];
      var flat := Flatten(value);
      assert MapValues(updates[i..], OneElement)[1..] == MapValues(updates[i + 1..], OneElement);
      written := Put(written, key, [flat]);
      i := i + 1;
    }
  }

  /** The dict comprehension keeps one item per lower-cased key, and the last item wins. */
  lemma NormalizeGet<V>(d: Dict<V>, k: string)
    ensures Get(Normalize(d), k) == Lookup(LowerKeys(d), k)
  {
    PutAllGet([], LowerKeys(d), k);
  }

  lemma NormalizeShape<V>(d: Dict<V>)
    ensures Distinct(Normalize(d)) && AllLower(Normalize(d))
    ensures Keys(Normalize(d)) == Keys(LowerKeys(d))
  {
    PutAllDistinct([], LowerKeys(d));
    PutAllKeys([], LowerKeys(d));
    forall k | k in Keys(LowerKeys(d)) ensures IsLower(k) {
      var i :| 0 <= i < |d| && LowerKeys(d)[i].0 == k;
      LowerIsLower(d[i].0);
    }
  }

  /** The later of two items whose keys differ only in case decides the value. */
  lemma LaterKeyWins<V>(d: Dict<V>, i: nat, k: string)
    requires i < |d| && Lower(d[i].0) == k
    requires forall j :: i < j < |d| ==> Lower(d[j].0) != k
    ensures Get(Normalize(d), k) == Some(d[i].1)
  {
    NormalizeGet(d, k);
    LookupLast(LowerKeys(d), i, k);
  }

  /**
   * What a merge leaves under a key: the flattened value of the last
   * incoming item whose key lower-cases to it, else the lower-cased existing
   * value.
   */
  lemma MergeGet(tags: Tags, metadata: Dict<TagValue>, k: string)
    ensures Get(Merge(tags, metadata), k)
         == if Lookup(LowerKeys(metadata), k).Some?
            then Some([Flatten(Lookup(LowerKeys(metadata), k).value)])
            else Get(Normalize(tags), k)
  {
    var updates := Normalize(metadata);
    PutAllGet(Normalize(tags), MapValues(updates, OneElement), k);
    LookupMapValues(updates, OneElement, k);
    NormalizeShape(metadata);
    LookupIsGet(updates, k);
    NormalizeGet(metadata, k);
  }

  /** Every key of the merged tags is lower-case, and none occurs twice. */
  lemma MergeShape(tags: Tags, metadata: Dict<TagValue>)
    ensures AllLower(Merge(tags, metadata)) && Distinct(Merge(tags, metadata))
    ensures Keys(Merge(tags, metadata)) == Keys(LowerKeys(tags)) + Keys(LowerKeys(metadata))
  {
    var updates := MapValues(Normalize(metadata), OneElement);
    NormalizeShape(tags);
    NormalizeShape(metadata);
    MapValuesKeys(Normalize(metadata), OneElement);
    PutAllKeys(Normalize(tags), updates);
    PutAllDistinct(Normalize(tags), updates);
  }

  /** An updated key holds the one-element list of the last incoming value for it. */
  lemma MergeUpdated(tags: Tags, metadata: Dict<TagValue>, i: nat)
    requires i < |metadata|
    requires forall j :: i < j < |metadata| ==> Lower(metadata[j].0) != Lower(metadata[i].0)
    ensures Get(Merge(tags, metadata), Lower(metadata[i].0)) == Some([Flatten(metadata[i].1)])
  {
    var k := Lower(metadata[i].0);
    LookupLast(LowerKeys(metadata), i, k);
    MergeGet(tags, metadata, k);
  }

  /** A key no incoming item names keeps its (lower-cased-key) existing value. */
  lemma MergeKept(tags: Tags, metadata: Dict<TagValue>, k: string)
    requires forall j :: 0 <= j < |metadata| ==> Lower(metadata[j].0) != k
    ensures Get(Merge(tags, metadata), k) == Get(Normalize(tags), k)
  {
    LookupAbsent(LowerKeys(metadata), k);
    MergeGet(tags, metadata, k);
  }

  /** A dict whose keys are distinct and lower-case is its own normal form. */
  lemma NormalizeNormal<V>(d: Dict<V>)
    requires Distinct(d) && AllLower(d)
    ensures Normalize(d) == d
  {
    forall i | 0 <= i < |d| ensures LowerKeys(d)[i] == d[i] {
      assert d[i].0 in Keys(d);
    }
    assert LowerKeys(d) == d;
    assert [] + d == d;
    PutAllFresh([], d);
  }

  /** Merging the same metadata a second time changes nothing. */
  lemma MergeIdempotent(tags: Tags, metadata: Dict<TagValue>)
    ensures Merge(Merge(tags, metadata), metadata) == Merge(tags, metadata)
  {
    var once := Merge(tags, metadata);
    var updates := MapValues(Normalize(metadata), OneElement);
    MergeShape(tags, metadata);
    NormalizeNormal(once);
    NormalizeShape(metadata);
    MapValuesKeys(Normalize(metadata), OneElement);
    forall i | 0 <= i < |updates| ensures Get(once, updates[i].0) == Some(updates[i].1) {
      PutAllGet(Normalize(tags), updates, updates[i].0);
      LookupDistinct(updates, i);
    }
    PutAllSame(once, updates);
  }

  /** `get_metadata`: the file's tags, or an empty dict when it cannot be read. */
  function ReadTags(store: Store, path: string): (tags: Tags)
    ensures path in store ==> tags == store[path].tags
    ensures path !in store ==> tags == []
  {
    if path in store then store[path].tags else []
  }

  /** `tag_music_file` on the store: a file that cannot be opened for writing is left alone. */
  function WriteTags(store: Store, path: string, metadata: Dict<TagValue>): (r: Store)
    ensures r.Keys == store.Keys
    ensures forall p :: p in store && p != path ==> r[p] == store[p]
    ensures path in store && store[path].writable ==> r[path] == TagFile(Merge(store[path].tags, metadata), true)
    ensures !(path in store && store[path].writable) ==> r == store
  {
    if path in store && store[path].writable then store[path := TagFile(Merge(store[path].tags, metadata), true)]
    else store
  }

  /** The metadata `compute` hands on: the file's tags plus `BPM` as a plain string. */
  function WithBpm(tags: Tags, bpm: string): (r: Dict<TagValue>)
    ensures Get(r, "BPM") == Some(Str(bpm))
    ensures Keys(r) == Keys(tags) + {"BPM"}
    ensures forall k :: k != "BPM" ==> Get(r, k) == MapOption(Get(tags, k), AsItems)
  {
    MapValuesKeys(tags, AsItems);
    PutMapValuesOthers(tags, AsItems, "BPM", Str(bpm));
    PutGet(MapValues(tags, AsItems), "BPM", Str(bpm), "BPM");
    PutKeys(MapValues(tags, AsItems), "BPM", Str(bpm));
    Put(MapValues(tags, AsItems), "BPM", Str(bpm))
  }

  /** `compute(file_path, bpm)` with the BPM already rounded and formatted. */
  function Compute(store: Store, path: string, bpm: string): (r: Store)
    ensures ReadTags(store, path) == [] ==> r == store
    ensures r.Keys == store.Keys
    ensures forall p :: p in store && p != path ==> r[p] == store[p]
  {
    var metadata := ReadTags(store, path);
    if metadata == [] then store
    else WriteTags(store, path, WithBpm(metadata, bpm))
  }

  /**
   * After `compute` on a readable, writable file with tags, `bpm` holds the
   * new value, unless a key that lower-cases to `bpm` follows an existing
   * `BPM`: that later key's old value wins the dict comprehension.
   */
  lemma ComputeSetsBpm(store: Store, path: string, bpm: string)
    requires path in store && store[path].writable && store[path].tags != []
    requires forall i, j :: 0 <= i < j < |store[path].tags| && store[path].tags[i].0 == "BPM" ==>
      Lower(store[path].tags[j].0) != "bpm"
    ensures Get(Compute(store, path, bpm)[path].tags, "bpm") == Some([bpm])
  {
    var tags := store[path].tags;
    var items := MapValues(tags, AsItems);
    var md := WithBpm(tags, bpm);
    assert Lower("BPM") == "bpm";
    var j := IndexOf(items, "BPM");
    var pos := if j < 0 then |items| else j;
    assert pos < |md| && md[pos] == ("BPM", Str(bpm));
    forall l | pos < l < |md| ensures Lower(md[l].0) != "bpm" {
      assert md[l] == items[l] && items[l].0 == tags[l].0;
      assert tags[j].0 == "BPM";
    }
    MergeUpdated(tags, md, pos);
  }

  /**
   * Every other tag of such a file is rewritten as the one-element list of
   * its values joined with ", ": `compute` flattens multi-valued tags.
   */
  lemma ComputeFlattensOthers(store: Store, path: string, bpm: string, k: string)
    requires path in store && store[path].writable && store[path].tags != []
    requires k != "bpm"
    ensures Get(Compute(store, path, bpm)[path].tags, k)
         == MapOption(Get(Normalize(store[path].tags), k), (v: seq<string>) => [Join(v, ", ")])
  {
    var tags := store[path].tags;
    var items := MapValues(tags, AsItems);
    var md := WithBpm(tags, bpm);
    assert Lower("BPM") == "bpm";
    var j := IndexOf(items, "BPM");
    if j < 0 {
      assert LowerKeys(md) == LowerKeys(items) + [("bpm", Str(bpm))];
      LookupAppendOther(LowerKeys(items), ("bpm", Str(bpm)), k);
    } else {
      assert LowerKeys(md) == LowerKeys(items)[j := ("bpm", Str(bpm))];
      LookupUpdateOther(LowerKeys(items), j, ("bpm", Str(bpm)), k);
    }
    assert LowerKeys(items) == MapValues(LowerKeys(tags), AsItems);
    LookupMapValues(LowerKeys(tags), AsItems, k);
    MergeGet(tags, md, k);
    NormalizeGet(tags, k);
  }
}
