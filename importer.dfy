/**
 * mixxx_tempo_extractor.py: copies BPM, key and descriptive fields from the
 * rows of a Mixxx library database into the tags of the files the rows
 * point at, 20 rows per page. The database is the sequence of its library
 * rows; `is_wsl()`, `os.path.isfile` and the terminate flag are inputs.
 */
module Importer {
  import opened Wrappers
  import opened Text
  import opened Dicts
  import opened Tagging

  /** A library row joined with its track location; `bpm` is already `str(round(bpm, 2))`. */
  datatype Row = Row(location: string, bpm: string, key: string, artist: string, title: string,
                     genre: string, album: string, year: string)

  /** The string rewrite of `process_path`: under WSL, `\` becomes `/`, then `C:` becomes `/mnt/c`. */
  function Rewrite(path: string, wsl: bool): string {
    if wsl then ReplaceAll(ReplaceAll(path, "\\", "/"), "C:", "/mnt/c") else path
  }

  /**
   * Outside WSL the path is left alone; under WSL no backslash and no `C:`
   * survives, and a path without a drive `C:` only has its backslashes
   * turned into slashes.
   */
  lemma RewriteFacts(path: string, wsl: bool)
    ensures !wsl ==> Rewrite(path, wsl) == path
    ensures wsl ==> '\\' !in Rewrite(path, wsl)
    ensures wsl ==> !Contains(Rewrite(path, wsl), "C:")
    ensures wsl && !Contains(path, "C:") ==> Rewrite(path, wsl) == ReplaceAll(path, "\\", "/")
  {
    if wsl {
      var slashed := ReplaceAll(path, "\\", "/");
      ReplaceAllRemovesChar(path, '\\', "/");
      var r := Rewrite(path, wsl);
      DriveReplaced(slashed);
      forall i ensures !OccursAt(r, "C:", i) {
        if 0 <= i && i + 2 <= |r| {
          assert r[i..i + 2][0] == r[i] && r[i..i + 2][1] == r[i + 1];
        }
      }
      ContainsIff(r, "C:");
      if '\\' in Rewrite(path, wsl) {
        ReplaceAllChars(slashed, "C:", "/mnt/c", '\\');
      }
      if !Contains(path, "C:") {
        ReplacePreservesAbsence(path);
        ReplaceAllAbsent(slashed, "C:", "/mnt/c");
      }
    }
  }

  /** No `C` is directly followed by `:`. */
  predicate NoDrive(t: string) {
    forall i :: 0 <= i < |t| - 1 ==> !(t[i] == 'C' && t[i + 1] == ':')
  }

  /** Replacing `C:` by `/mnt/c` leaves none behind: the replacement holds no `C` and ends in `c`. */
  lemma {:induction false} DriveReplaced(s: string)
    ensures NoDrive(ReplaceAll(s, "C:", "/mnt/c"))
    decreases |s|
  {
    var r := ReplaceAll(s, "C:", "/mnt/c");
    if |s| < 2 {
      assert r == s;
    } else if s[..2] == "C:" {
      var tail := ReplaceAll(s[2..], "C:", "/mnt/c");
      DriveReplaced(s[2..]);
      assert r == "/mnt/c" + tail;
      forall i | 0 <= i < |r| - 1 ensures !(r[i] == 'C' && r[i + 1] == ':') {
        if i >= 6 {
          assert r[i] == tail[i - 6] && r[i + 1] == tail[i - 5];
        } else {
          assert r[i] == "/mnt/c"[i];
        }
      }
    } else {
      var tail := ReplaceAll(s[1..], "C:", "/mnt/c");
      DriveReplaced(s[1..]);
      assert r == [s[0]] + tail;
      assert s[..2] == [s[0], s[1]];
      assert |tail| > 0 && tail[0] == if |s| >= 3 && s[1..][..2] == "C:" then '/' else s[1];
      forall i | 0 <= i < |r| - 1 ensures !(r[i] == 'C' && r[i + 1] == ':') {
        if i >= 1 {
          assert r[i] == tail[i - 1] && r[i + 1] == tail[i];
        }
      }
    }
  }

  /** Turning backslashes into slashes creates no `C:`. */
  lemma {:induction false} ReplacePreservesAbsence(s: string)
    requires !Contains(s, "C:")
    ensures !Contains(ReplaceAll(s, "\\", "/"), "C:")
    decreases |s|
  {
    if |s| >= 1 {
      ReplacePreservesAbsence(s[1..]);
      var tail := ReplaceAll(s[1..], "\\", "/");
      var head := if s[..1] == "\\" then "/" else [s[0]];
      assert ReplaceAll(s, "\\", "/") == head + tail;
      if |tail| >= 1 && s[0] == 'C' {
        assert s[1] != ':';
        assert tail[0] == (if s[1] == '\\' then '/' else s[1]);
      }
      assert (head + tail)[1..] == tail;
    }
  }

  /** `process_path(path)`: the rewritten path when it names a file, else None. */
  function ProcessPath(path: string, wsl: bool, isFile: string -> bool): (r: Option<string>)
    ensures r.Some? <==> isFile(Rewrite(path, wsl))
    ensures r.Some? ==> r.value == Rewrite(path, wsl)
  {
    var p := Rewrite(path, wsl);
    if isFile(p) then Some(p) else None
  }

  lemma WslExample()
    ensures Rewrite("C:\\a", true) == "/mnt/c/a"
  {
    assert "C:\\a"[..1] == "C" && "C:\\a"[1..] == ":\\a";
    assert ":\\a"[1..] == "\\a" && "\\a"[1..] == "a" && "a"[1..] == "";
    assert ReplaceAll("a", "\\", "/") == "a";
    assert ReplaceAll("\\a", "\\", "/") == "/a";
    assert ReplaceAll(":\\a", "\\", "/") == ":/a";
    assert ReplaceAll("C:\\a", "\\", "/") == "C:/a";
    assert "C:/a"[..2] == "C:" && "C:/a"[2..] == "/a";
    assert ReplaceAll("a", "C:", "/mnt/c") == "a";
    assert "/a"[..2] != "C:" && "/a"[1..] == "a";
    assert ReplaceAll("/a", "C:", "/mnt/c") == "/a";
  }

  /** The eight assignments `main` makes to a row's metadata, in order. */
  function RowItems(row: Row): Tags {
    [("BPM", [row.bpm]), ("KEY", [row.key]), ("ARTIST", [row.artist]), ("TITLE", [row.title]),
     ("ALBUMARTIST", [row.artist]), ("GENRE", [row.genre]), ("ALBUM", [row.album]), ("YEAR", [row.year])]
  }

  /** The keys `main` overwrites. */
  const RowKeys: set<string> := {"BPM", "KEY", "ARTIST", "TITLE", "ALBUMARTIST", "GENRE", "ALBUM", "YEAR"}

  /** The importer's `tag_music_file`: each key assigned verbatim, without case folding. */
  method TagMusicFile(tags: Tags, metadata: Tags) returns (written: Tags)
    ensures written == PutAll(tags, metadata)
  {
    written := tags;
    for i := 0 to |metadata|
      invariant PutAll(written, metadata[i..]) == PutAll(tags, metadata)
    {
      assert metadata[i..][1..] == metadata[i + 1..];
      var (key, value) := metadata[i];
      written := Put(written, key, value);
    }
  }

  /** `tag_music_file` on the store: a file that cannot be opened for writing is left alone. */
  function WriteVerbatim(store: Store, path: string, metadata: Tags): (r: Store)
    ensures r.Keys == store.Keys
    ensures forall p :: p in store && p != path ==> r[p] == store[p]
    ensures path in store && store[path].writable ==> r[path] == TagFile(PutAll(store[path].tags, metadata), true)
    ensures !(path in store && store[path].writable) ==> r == store
  {
    if path in store && store[path].writable then store[path := TagFile(PutAll(store[path].tags, metadata), true)]
    else store
  }

  /** The body of the inner `for i in data` loop of `main`. */
  function ApplyRow(store: Store, row: Row, wsl: bool, isFile: string -> bool): (r: Store)
    ensures ProcessPath(row.location, wsl, isFile).None? ==> r == store
    ensures ProcessPath(row.location, wsl, isFile).Some? && ReadTags(store, ProcessPath(row.location, wsl, isFile).value) == []
            ==> r == store
    ensures r.Keys == store.Keys
  {
    match ProcessPath(row.location, wsl, isFile)
    case None => store
    case Some(path) =>
      var metadata := ReadTags(store, path);
      if metadata == [] then store
      else WriteVerbatim(store, path, PutAll(metadata, RowItems(row)))
  }

  /** No row of `rows` resolves to `p`. */
  predicate Untouched(rows: seq<Row>, p: string, wsl: bool, isFile: string -> bool) {
    forall j :: 0 <= j < |rows| ==> ProcessPath(rows[j].location, wsl, isFile) != Some(p)
  }

  /** The rows applied one after the other; the import never adds or removes a file. */
  function ApplyRows(store: Store, rows: seq<Row>, wsl: bool, isFile: string -> bool): (r: Store)
    ensures r.Keys == store.Keys
    decreases |rows|
  {
    if rows == [] then store
    else ApplyRow(ApplyRows(store, rows[..|rows| - 1], wsl, isFile), rows[|rows| - 1], wsl, isFile)
  }

  /** A file no row resolves to keeps its tags through the whole import. */
  lemma {:induction false} ApplyRowsUntouched(store: Store, rows: seq<Row>, wsl: bool, isFile: string -> bool, p: string)
    requires p in store && Untouched(rows, p, wsl, isFile)
    ensures ApplyRows(store, rows, wsl, isFile)[p] == store[p]
    decreases |rows|
  {
    if rows != [] {
      var n := |rows| - 1;
      assert Untouched(rows[..n], p, wsl, isFile) by {
        forall j | 0 <= j < n ensures ProcessPath(rows[..n][j].location, wsl, isFile) != Some(p) {
          assert rows[..n][j] == rows[j];
        }
      }
      ApplyRowsUntouched(store, rows[..n], wsl, isFile, p);
      assert ProcessPath(rows[n].location, wsl, isFile) != Some(p);
    }
  }

  lemma {:induction false} ApplyRowsAppend(store: Store, a: seq<Row>, b: seq<Row>, wsl: bool, isFile: string -> bool)
    ensures ApplyRows(store, a + b, wsl, isFile) == ApplyRows(ApplyRows(store, a, wsl, isFile), b, wsl, isFile)
    decreases |b|
  {
    if b == [] {
      assert a + b == a;
    } else {
      var n := |b| - 1;
      assert (a + b)[..|a + b| - 1] == a + b[..n];
      ApplyRowsAppend(store, a, b[..n], wsl, isFile);
    }
  }

  /** The inner `for i in data` loop over one page of rows. */
  method TagPage(store: Store, data: seq<Row>, wsl: bool, isFile: string -> bool) returns (r: Store)
    ensures r == ApplyRows(store, data, wsl, isFile)
  {
    r := store;
    for j := 0 to |data|
      invariant r == ApplyRows(store, data[..j], wsl, isFile)
    {
      assert data[..j + 1][..j] == data[..j];
      var row := data[j];
      var path := ProcessPath(row.location, wsl, isFile);
      if path.None? {
        continue;
      }
      var metadata := ReadTags(r, path.value);
      if metadata != [] {
        var update := PutAll(metadata, RowItems(row));
        if path.value in r && r[path.value].writable {
          var written := TagMusicFile(r[path.value].tags, update);
          r := r[path.value := TagFile(written, true)];
        }
      }
    }
    assert data[..|data|] == data;
  }

  function Min(a: int, b: int): int {
    if a <= b then a else b
  }

  /** How many pages the loop starts, from page `k` on: it stops once `count >= total` or the flag is set. */
  function PagesRun(total: nat, cancelAt: nat -> bool, k: nat): (n: nat)
    ensures n >= k
    ensures 20 * n >= total || cancelAt(n)
    ensures forall j :: k <= j < n ==> 20 * j < total && !cancelAt(j)
    decreases total - 20 * k
  {
    if 20 * k >= total || cancelAt(k) then k else PagesRun(total, cancelAt, k + 1)
  }

  datatype ImportResult = InvalidPath | Finished(count: nat, terminated: bool)

  /**
   * `main(database_path)`. `cancelAt(k)` is the terminate flag when the loop
   * head is evaluated for the k-th time (counting from 0); the final status
   * reads it once more, after the last check.
   */
  method Import(databasePath: string, wsl: bool, isFile: string -> bool, rows: seq<Row>,
                cancelAt: nat -> bool, disk: Store)
    returns (result: ImportResult, store: Store)
    ensures ProcessPath(databasePath, wsl, isFile).None? ==> result == InvalidPath && store == disk
    ensures ProcessPath(databasePath, wsl, isFile).Some? ==>
      var n := PagesRun(|rows|, cancelAt, 0);
      && result == Finished(20 * n, cancelAt(n))
      && store == ApplyRows(disk, rows[..Min(20 * n, |rows|)], wsl, isFile)
  {
    store := disk;
    var processedPath := ProcessPath(databasePath, wsl, isFile);
    if processedPath.None? {
      return InvalidPath, store;
    }
    var count := 0;
    var total := |rows|;
    var offset := 0;
    var limit := 20;
    ghost var k := 0;
    while count < total && !cancelAt(offset / 20)
      invariant offset == 20 * k && count == offset
      invariant forall j :: 0 <= j < k ==> 20 * j < total && !cancelAt(j)
      invariant 20 * k < total + 20
      invariant store == ApplyRows(disk, rows[..Min(offset, total)], wsl, isFile)
      decreases total - count
    {
      var lo := Min(offset, total);
      var hi := Min(offset + limit, total);
      var data := rows[lo..hi];
      store := TagPage(store, data, wsl, isFile);
      assert rows[..hi] == rows[..lo] + data;
      ApplyRowsAppend(disk, rows[..lo], data, wsl, isFile);
      offset := offset + limit;
      count := offset;
      k := k + 1;
    }
    assert offset / 20 == k;
    PagesRunUnique(total, cancelAt, k);
    return Finished(count, cancelAt(offset / 20)), store;
  }

  /** The page count is the first page index at which the loop head fails. */
  lemma PagesRunUnique(total: nat, cancelAt: nat -> bool, n: nat)
    requires 20 * n >= total || cancelAt(n)
    requires forall j :: 0 <= j < n ==> 20 * j < total && !cancelAt(j)
    ensures PagesRun(total, cancelAt, 0) == n
  {
  }

  /** Without termination the loop runs ceil(total / 20) pages. */
  lemma PagesWithoutTermination(total: nat, cancelAt: nat -> bool)
    requires forall k :: !cancelAt(k)
    ensures PagesRun(total, cancelAt, 0) == (total + 19) / 20
  {
    var n := (total + 19) / 20;
    assert 20 * n >= total;
    assert forall j :: 0 <= j < n ==> 20 * j < total;
    PagesRunUnique(total, cancelAt, n);
  }

  /** The reported count is 20 per page: it reaches the total and may pass it by up to 19. */
  lemma CountBounds(total: nat, cancelAt: nat -> bool)
    requires forall k :: !cancelAt(k)
    ensures var count := 20 * PagesRun(total, cancelAt, 0);
      count >= total && count < total + 20
  {
    PagesWithoutTermination(total, cancelAt);
  }

  /** A library of 25 rows is reported as "40 of 25". */
  lemma CountExceedsTotal(cancelAt: nat -> bool)
    requires forall k :: !cancelAt(k)
    ensures 20 * PagesRun(25, cancelAt, 0) == 40
  {
    PagesWithoutTermination(25, cancelAt);
  }

  /** A flag already set at the first loop head stops the import before any page. */
  lemma TerminatedBeforeStart(total: nat, cancelAt: nat -> bool)
    requires cancelAt(0)
    ensures PagesRun(total, cancelAt, 0) == 0
  {
  }

  lemma RowItemsShape(row: Row)
    ensures Keys(RowItems(row)) == RowKeys && Distinct(RowItems(row))
  {
    var items := RowItems(row);
    assert items[0].0 == "BPM" && items[1].0 == "KEY" && items[2].0 == "ARTIST" && items[3].0 == "TITLE";
    assert items[4].0 == "ALBUMARTIST" && items[5].0 == "GENRE" && items[6].0 == "ALBUM" && items[7].0 == "YEAR";
  }

  /** The row's metadata: the eight keys take the row's values, every other key keeps the file's. */
  lemma RowMetadataGet(tags: Tags, row: Row, k: string)
    ensures Get(PutAll(tags, RowItems(row)), k)
         == if k in RowKeys then Lookup(RowItems(row), k) else Get(tags, k)
  {
    var items := RowItems(row);
    RowItemsShape(row);
    PutAllGet(tags, items, k);
    if k in RowKeys {
      var i :| 0 <= i < |items| && items[i].0 == k;
      LookupDistinct(items, i);
    } else {
      LookupAbsent(items, k);
    }
  }

  /** Writing back a dict that extends the file's own tags leaves exactly that dict's values. */
  lemma WriteBackGet(tags: Tags, metadata: Tags, k: string)
    requires Distinct(metadata) && Keys(tags) <= Keys(metadata)
    ensures Get(PutAll(tags, metadata), k) == Get(metadata, k)
  {
    PutAllGet(tags, metadata, k);
    LookupIsGet(metadata, k);
    if Get(tags, k).Some? {
      assert tags[IndexOf(tags, k)].0 in Keys(tags);
    }
  }

  /**
   * A resolved row whose file has tags gets BPM, KEY, ARTIST, TITLE,
   * ALBUMARTIST, GENRE, ALBUM and YEAR as one-element lists (ALBUMARTIST
   * the artist), and keeps every other tag; no other file changes.
   */
  lemma RowTagged(store: Store, row: Row, wsl: bool, isFile: string -> bool, path: string)
    requires ProcessPath(row.location, wsl, isFile) == Some(path)
    requires path in store && store[path].writable && store[path].tags != [] && Distinct(store[path].tags)
    ensures var after := ApplyRow(store, row, wsl, isFile)[path].tags;
      && Get(after, "BPM") == Some([row.bpm])
      && Get(after, "KEY") == Some([row.key])
      && Get(after, "ARTIST") == Some([row.artist])
      && Get(after, "TITLE") == Some([row.title])
      && Get(after, "ALBUMARTIST") == Some([row.artist])
      && Get(after, "GENRE") == Some([row.genre])
      && Get(after, "ALBUM") == Some([row.album])
      && Get(after, "YEAR") == Some([row.year])
      && (forall k :: k !in RowKeys ==> Get(after, k) == Get(store[path].tags, k))
      && Keys(after) == Keys(store[path].tags) + RowKeys
    ensures forall p :: p in store && p != path ==> ApplyRow(store, row, wsl, isFile)[p] == store[p]
  {
    var tags := store[path].tags;
    var items := RowItems(row);
    var metadata := PutAll(tags, items);
    var after := PutAll(tags, metadata);
    assert ApplyRow(store, row, wsl, isFile)[path].tags == after;
    RowItemsShape(row);
    PutAllDistinct(tags, items);
    PutAllKeys(tags, items);
    PutAllKeys(tags, metadata);
    forall k ensures Get(after, k) == if k in RowKeys then Lookup(items, k) else Get(tags, k) {
      WriteBackGet(tags, metadata, k);
      RowMetadataGet(tags, row, k);
    }
    LookupDistinct(items, 0);
    LookupDistinct(items, 1);
    LookupDistinct(items, 2);
    LookupDistinct(items, 3);
    LookupDistinct(items, 4);
    LookupDistinct(items, 5);
    LookupDistinct(items, 6);
    LookupDistinct(items, 7);
  }

  /** No case folding: an existing lower-case `bpm` stays beside a new `BPM`. */
  lemma NoCaseFolding(before: string, after: string)
    ensures PutAll([("bpm", [before])], [("BPM", [after])]) == [("bpm", [before]), ("BPM", [after])]
  {
    PutFresh([("bpm", [before])], "BPM", [after]);
  }
}
