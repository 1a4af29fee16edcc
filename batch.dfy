/**
 * `App.process_files` of main.py: every candidate file of the chosen
 * directory is checked, decoded, run through the beat loop and, when more
 * than one beat was found, handed to `compute` to write its BPM; each failure is recorded in
 * `failed_files` and the loop goes on with the next file.
 */
module Batch {
  import opened Wrappers
  import opened Text
  import Windowing
  import Scan
  import opened BeatLoop
  import opened Tagging

  /**
   * What the environment does with one file when it is processed:
   * `has_permission`, the second `ensure_local`, the sample rate aubio
   * reports (None when creating the source or tracker raises), and the
   * block stream.
   */
  datatype FileProbe = FileProbe(permitted: bool, local: bool, sampleRate: Option<int>, stream: seq<Step>)

  /** A stream that opens ends within its sequence of steps, for the beat task's hop. */
  predicate ProbeEnds(p: FileProbe) {
    p.sampleRate.Some? ==> Terminates(p.stream, Windowing.BeatHop(p.sampleRate.value))
  }

  datatype Outcome =
    | PermissionDenied
    | NotLocal
    | AubioError
    | LoopError    // an exception from the reader or the tracker
    | NoBeats
    | Accepted(beats: seq<real>)   // `compute` is called; it may still write nothing

  /** How processing one file ends. */
  function Analyse(p: FileProbe): (r: Outcome)
    requires ProbeEnds(p)
    ensures r == PermissionDenied <==> !p.permitted
    ensures r == NotLocal <==> p.permitted && !p.local
    ensures r == AubioError <==> p.permitted && p.local && p.sampleRate.None?
    ensures r.Accepted? ==>
      && p.sampleRate.Some? && |r.beats| > 1
      && var c := Collect(p.stream, Windowing.BeatHop(p.sampleRate.value));
         c.Collected? && c.beats == r.beats
  {
    if !p.permitted then PermissionDenied
    else if !p.local then NotLocal
    else if p.sampleRate.None? then AubioError
    else match Collect(p.stream, Windowing.BeatHop(p.sampleRate.value))
      case Raised => LoopError
      case Collected(beats, _) => if |beats| > 1 then Accepted(beats) else NoBeats
  }

  /** The last two parts of list `xs`, as Python's `xs[-2:]`. */
  function LastTwo(xs: seq<string>): (r: seq<string>)
    ensures |xs| >= 1 ==> |r| >= 1
    ensures |r| <= 2
  {
    if |xs| <= 2 then xs else xs[|xs| - 2..]
  }

  /** `'\\'.join(path.split('\\')[-2:])`: the parent folder and the file name. */
  function ShortPath(path: string): string {
    Join(LastTwo(Split(path, '\\')), "\\")
  }

  /** What one file adds to `failed_files`. */
  function FailureEntry(path: string, o: Outcome): (r: seq<string>)
    ensures |r| <= 1
  {
    match o
    case PermissionDenied => [path]
    case NotLocal => [path]
    case AubioError => [path]
    case LoopError => [ShortPath(path)]
    case NoBeats => [ShortPath(path)]
    case Accepted(_) => []
  }

  /** `failed_files` after processing `paths`, in order. */
  function Failures(paths: seq<string>, probe: string -> FileProbe): (r: seq<string>)
    requires forall p :: ProbeEnds(probe(p))
    ensures forall e :: e in r ==> exists p :: p in paths && (e == p || e == ShortPath(p))
    decreases |paths|
  {
    if paths == [] then []
    else
      var tail := Failures(paths[1..], probe);
      assert forall p :: p in paths[1..] ==> p in paths;
      assert paths[0] in paths;
      FailureEntry(paths[0], Analyse(probe(paths[0]))) + tail
  }

  /** The tag store after processing `paths`, one file after the other. */
  function StoreAfter(store: Store, paths: seq<string>, probe: string -> FileProbe, bpmText: seq<real> -> string): (r: Store)
    requires forall p :: ProbeEnds(probe(p))
    ensures r.Keys == store.Keys
    ensures forall p :: p in store && p !in paths ==> r[p] == store[p]
    decreases |paths|
  {
    if paths == [] then store
    else
      var o := Analyse(probe(paths[0]));
      var next := if o.Accepted? then Compute(store, paths[0], bpmText(o.beats)) else store;
      StoreAfter(next, paths[1..], probe, bpmText)
  }

  /** One step of `Failures` and `StoreAfter`, from position `i`. */
  lemma RunStep(store: Store, paths: seq<string>, i: nat, probe: string -> FileProbe, bpmText: seq<real> -> string)
    requires forall p :: ProbeEnds(probe(p))
    requires i < |paths|
    ensures var o := Analyse(probe(paths[i]));
      && Failures(paths[i..], probe) == FailureEntry(paths[i], o) + Failures(paths[i + 1..], probe)
      && StoreAfter(store, paths[i..], probe, bpmText)
         == StoreAfter(if o.Accepted? then Compute(store, paths[i], bpmText(o.beats)) else store, paths[i + 1..], probe, bpmText)
  {
    assert paths[i..][1..] == paths[i + 1..];
  }

  /** One iteration of the loop of `process_files` keeps its two invariants. */
  lemma LoopStep(failed: seq<string>, entry: seq<string>, store: Store, next: Store, paths: seq<string>, i: nat,
                 probe: string -> FileProbe, bpmText: seq<real> -> string)
    requires forall p :: ProbeEnds(probe(p))
    requires i < |paths|
    requires entry == FailureEntry(paths[i], Analyse(probe(paths[i])))
    requires next == if Analyse(probe(paths[i])).Accepted?
                     then Compute(store, paths[i], bpmText(Analyse(probe(paths[i])).beats)) else store
    ensures (failed + entry) + Failures(paths[i + 1..], probe) == failed + Failures(paths[i..], probe)
    ensures StoreAfter(next, paths[i + 1..], probe, bpmText) == StoreAfter(store, paths[i..], probe, bpmText)
  {
    RunStep(store, paths, i, probe, bpmText);
    assert (failed + entry) + Failures(paths[i + 1..], probe) == failed + (entry + Failures(paths[i + 1..], probe));
  }

  /** Each file adds at most one entry. */
  lemma {:induction false} FailuresBound(paths: seq<string>, probe: string -> FileProbe)
    requires forall p :: ProbeEnds(probe(p))
    ensures |Failures(paths, probe)| <= |paths|
    decreases |paths|
  {
    if paths != [] {
      FailuresBound(paths[1..], probe);
    }
  }

  /** Isolation: the entries of a batch are those of its parts, in order. */
  lemma {:induction false} FailuresAppend(a: seq<string>, b: seq<string>, probe: string -> FileProbe)
    requires forall p :: ProbeEnds(probe(p))
    ensures Failures(a + b, probe) == Failures(a, probe) + Failures(b, probe)
    decreases |a|
  {
    if a == [] {
      assert a + b == b;
    } else {
      assert (a + b)[1..] == a[1..] + b;
      FailuresAppend(a[1..], b, probe);
    }
  }

  /**
   * A file gets no entry exactly when its outcome is Accepted, that is, all
   * checks pass and more than one beat was collected. `compute` may still
   * leave an accepted file unchanged when it has no tags or cannot be written.
   */
  lemma FailureIffNotAccepted(path: string, p: FileProbe)
    requires ProbeEnds(p)
    ensures FailureEntry(path, Analyse(p)) == [] <==> Analyse(p).Accepted?
    ensures Analyse(p).Accepted? ==> |Analyse(p).beats| > 1
    ensures Analyse(p).Accepted? <==>
      p.permitted && p.local && p.sampleRate.Some? &&
      var c := Collect(p.stream, Windowing.BeatHop(p.sampleRate.value));
      c.Collected? && |c.beats| > 1
  {
  }

  /** An accepted file without tags gets neither a failure entry nor a BPM. */
  lemma AcceptedUntaggedUnchanged(store: Store, path: string, p: FileProbe, bpmText: seq<real> -> string)
    requires ProbeEnds(p) && Analyse(p).Accepted? && ReadTags(store, path) == []
    ensures FailureEntry(path, Analyse(p)) == []
    ensures Compute(store, path, bpmText(Analyse(p).beats)) == store
  {
  }

  /**
   * Permission, locality and aubio failures record the full path; an
   * exception in the loop and a file without beats record the short one.
   */
  lemma FailureEntryForm(path: string, p: FileProbe)
    requires ProbeEnds(p)
    ensures (!p.permitted || !p.local || p.sampleRate.None?) ==> FailureEntry(path, Analyse(p)) == [path]
    ensures Analyse(p) == LoopError || Analyse(p) == NoBeats ==> FailureEntry(path, Analyse(p)) == [ShortPath(path)]
  {
  }

  /** The short form is a suffix of the path, cut right after a backslash. */
  lemma ShortPathSuffix(path: string) returns (k: nat)
    ensures k <= |path| && ShortPath(path) == path[k..]
    ensures k > 0 ==> path[k - 1] == '\\'
  {
    var parts := Split(path, '\\');
    JoinSplit(path, '\\');
    if |parts| <= 2 {
      k := 0;
    } else {
      var cut := |parts| - 2;
      JoinSplitAt(parts, "\\", cut);
      k := |Join(parts[..cut], "\\") + "\\"|;
      assert path == (Join(parts[..cut], "\\") + "\\") + Join(parts[cut..], "\\");
    }
  }

  /** The short form keeps at most one backslash, and every one a path with at most one has. */
  lemma ShortPathSeparators(path: string)
    ensures CountChar(ShortPath(path), '\\') == if CountChar(path, '\\') <= 1 then CountChar(path, '\\') else 1
    ensures CountChar(path, '\\') <= 1 ==> ShortPath(path) == path
  {
    var parts := Split(path, '\\');
    JoinSplit(path, '\\');
    JoinCount(parts, '\\');
    var last := LastTwo(parts);
    assert forall k :: 0 <= k < |last| ==> '\\' !in last[k];
    JoinCount(last, '\\');
  }

  lemma ShortPathExample()
    ensures ShortPath("m\\a\\s") == "a\\s"
  {
    var e: seq<string> := [""];
    assert Split("", '\\') == e && e[1..] == [];
    assert ['s'] + "" == "s" && ['\\'] + "s" == "\\s" && ['a'] + "\\s" == "a\\s";
    assert ['\\'] + "a\\s" == "\\a\\s" && ['m'] + "\\a\\s" == "m\\a\\s";
    SplitNonSeparator('s', "", '\\');
    assert Split("s", '\\') == ["s"];
    SplitSeparator("s", '\\');
    assert Split("\\s", '\\') == ["", "s"];
    assert ['a'] + "" == "a" && ['m'] + "" == "m";
    SplitNonSeparator('a', "\\s", '\\');
    assert Split("a\\s", '\\') == ["a", "s"];
    SplitSeparator("a\\s", '\\');
    assert Split("\\a\\s", '\\') == ["", "a", "s"];
    SplitNonSeparator('m', "\\a\\s", '\\');
    assert Split("m\\a\\s", '\\') == ["m", "a", "s"];
  }

  /**
   * The body of the per-file loop of `process_files`: the entry it appends
   * to `failed_files`, the store after it, and whether it reaches the
   * progress update (the early `continue`s skip it).
   */
  method ProcessFile(store: Store, path: string, p: FileProbe, bpmText: seq<real> -> string)
    returns (entry: seq<string>, next: Store, advanced: bool)
    requires ProbeEnds(p)
    ensures entry == FailureEntry(path, Analyse(p))
    ensures next == if Analyse(p).Accepted? then Compute(store, path, bpmText(Analyse(p).beats)) else store
    ensures advanced <==> p.permitted && p.local && p.sampleRate.Some?
  {
    next := store;
    advanced := false;
    if !p.permitted {
      return [path], next, advanced;
    }
    if !p.local {
      return [path], next, advanced;
    }
    if p.sampleRate.None? {
      return [path], next, advanced;
    }
    advanced := true;
    var sizes := Windowing.WindowAndHopSizes(p.sampleRate.value, "beat");
    var hop := sizes.value.hop;
    var collected := CollectBeats(p.stream, hop);
    if collected.Raised? {
      entry := [ShortPath(path)];
    } else if |collected.beats| > 1 {
      entry := [];
      var metadata := ReadTags(store, path);
      if metadata != [] {
        var update := WithBpm(metadata, bpmText(collected.beats));
        if path in store && store[path].writable {
          var written := TagMusicFile(store[path].tags, update);
          next := store[path := TagFile(written, true)];
        }
      }
    } else {
      entry := [ShortPath(path)];
    }
  }

  /** The batch tool's state that `process_files` updates. */
  class App {
    var directory: string
    var failedFiles: seq<string>
    var progressValue: nat
    var progressMaximum: nat
    var store: Store   // the tags of the files on disk

    constructor (disk: Store)
      ensures directory == "" && failedFiles == [] && progressValue == 0 && progressMaximum == 0
      ensures store == disk
    {
      directory := "";
      failedFiles := [];
      progressValue := 0;
      progressMaximum := 0;
      store := disk;
    }

    /**
     * `process_files`. `walk` is what walking `directory` yields, `probe`
     * what the environment does with each file, `bpmText` the rounded
     * median BPM of a beat list, as text.
     */
    method ProcessFiles(walk: seq<Scan.Entry>, normPath: string -> string, ensureLocal: string -> bool,
                        probe: string -> FileProbe, bpmText: seq<real> -> string)
      requires forall p :: ProbeEnds(probe(p))
      modifies this
      ensures directory == old(directory)
      ensures old(directory) == "" ==>
        failedFiles == old(failedFiles) && store == old(store) &&
        progressValue == old(progressValue) && progressMaximum == old(progressMaximum)
      ensures old(directory) != "" ==>
        var paths := Scan.Candidates(walk, normPath, ensureLocal);
        && failedFiles == Failures(paths, probe)
        && store == StoreAfter(old(store), paths, probe, bpmText)
        && progressValue == |paths| && progressMaximum == |paths|
    {
      if directory == "" {
        return;
      }
      var mp3Paths := Scan.ProcessDirectory(walk, normPath, ensureLocal);
      var totalFiles := |mp3Paths|;
      progressMaximum := totalFiles;
      failedFiles := [];
      ghost var start := store;
      for i := 0 to totalFiles
        invariant failedFiles + Failures(mp3Paths[i..], probe) == Failures(mp3Paths, probe)
        invariant StoreAfter(store, mp3Paths[i..], probe, bpmText) == StoreAfter(start, mp3Paths, probe, bpmText)
        invariant progressMaximum == totalFiles && directory == old(directory)
      {
        var path := mp3Paths[i];
        var entry, next, advanced := ProcessFile(store, path, probe(path), bpmText);
        LoopStep(failedFiles, entry, store, next, mp3Paths, i, probe, bpmText);
        failedFiles := failedFiles + entry;
        store := next;
        if !advanced {
          continue;
        }
        progressValue := i + 1;
      }
      assert mp3Paths[totalFiles..] == [];
      progressValue := totalFiles;
    }
  }
}
