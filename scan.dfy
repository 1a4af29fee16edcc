/**
 * `process_directory` of main.py: the candidate MP3 files of a directory
 * tree. The walk is given as the (root, name) pairs `os.walk` would yield, in
 * its order; `os.path.normpath` and `ensure_local` are oracles.
 */
module Scan {
  import opened Text
  import Seqs

  datatype Entry = Entry(root: string, name: string)

  /** Names containing any of these (case-sensitively) are skipped. */
  const SkipFiles: seq<string> := ["desktop", "Thumbs", "order", "Videos - Shortcut"]

  /** The file-name test: an `.mp3` extension in any case and no skip word. */
  predicate IsCandidateName(name: string) {
    EndsWith(Lower(name), ".mp3") && ContainsNone(name, SkipFiles)
  }

  /** `not any(word in name for word in words)` */
  predicate ContainsNone(name: string, words: seq<string>)
    decreases |words|
  {
    words == [] || (!Contains(name, words[0]) && ContainsNone(name, words[1..]))
  }

  lemma {:induction false} ContainsNoneAt(name: string, words: seq<string>, k: nat)
    requires ContainsNone(name, words) && k < |words|
    ensures !Contains(name, words[k])
    decreases k
  {
    if k > 0 {
      ContainsNoneAt(name, words[1..], k - 1);
    }
  }

  lemma {:induction false} ContainsNoneAll(name: string, words: seq<string>)
    requires forall k :: 0 <= k < |words| ==> !Contains(name, words[k])
    ensures ContainsNone(name, words)
    decreases |words|
  {
    if words != [] {
      ContainsNoneAll(name, words[1..]);
    }
  }

  predicate IsSeparator(c: char) {
    c == '\\' || c == '/'
  }

  /**
   * `os.path.join(root, name)` with Windows rules: a backslash is inserted
   * unless the part of `root` after a drive letter is empty or already ends
   * in a separator.
   */
  function JoinPath(root: string, name: string): (p: string)
    ensures EndsWith(p, name)
    ensures |root| <= |p| <= |root| + 1 + |name| && p[..|root|] == root
    ensures p == root + name || p == root + "\\" + name
  {
    var rest := if |root| >= 2 && root[1] == ':' then root[2..] else root;
    var sep := if rest != [] && !IsSeparator(rest[|rest| - 1]) then "\\" else "";
    assert (root + sep + name)[|root + sep + name| - |name|..] == name;
    root + sep + name
  }

  function FullPath(e: Entry, normPath: string -> string): string {
    normPath(JoinPath(e.root, e.name))
  }

  predicate Keep(e: Entry, normPath: string -> string, ensureLocal: string -> bool) {
    IsCandidateName(e.name) && ensureLocal(FullPath(e, normPath))
  }

  /** The paths `process_directory` returns, in walk order. */
  function Candidates(walk: seq<Entry>, normPath: string -> string, ensureLocal: string -> bool): seq<string> {
    Seqs.FilterMap(walk, e => Keep(e, normPath, ensureLocal), e => FullPath(e, normPath))
  }

  /** The loop of `process_directory`, appending to `all_files`. */
  method ProcessDirectory(walk: seq<Entry>, normPath: string -> string, ensureLocal: string -> bool)
    returns (allFiles: seq<string>)
    ensures allFiles == Candidates(walk, normPath, ensureLocal)
  {
    allFiles := [];
    var i := 0;
    while i < |walk|
      invariant 0 <= i <= |walk|
      invariant allFiles == Candidates(walk[..i], normPath, ensureLocal)
    {
      var e := walk[i];
      assert walk[..i + 1][..i] == walk[..i];
      if IsCandidateName(e.name) {
        var fullPath := FullPath(e, normPath);
        if ensureLocal(fullPath) {
          allFiles := allFiles + [fullPath];
        }
      }
      i := i + 1;
    }
    assert walk[..|walk|] == walk;
  }

  /**
   * The candidates are a subsequence of the walk: `idx` picks, in increasing
   * order, exactly the entries whose name passes the test and whose path is
   * local.
   */
  lemma CandidatesSubsequence(walk: seq<Entry>, normPath: string -> string, ensureLocal: string -> bool)
    returns (idx: seq<nat>)
    ensures |idx| == |Candidates(walk, normPath, ensureLocal)|
    ensures forall k :: 0 <= k < |idx| ==>
      idx[k] < |walk| && Candidates(walk, normPath, ensureLocal)[k] == FullPath(walk[idx[k]], normPath)
    ensures forall k, k' :: 0 <= k < k' < |idx| ==> idx[k] < idx[k']
    ensures forall j :: 0 <= j < |walk| ==>
      (j in idx <==> IsCandidateName(walk[j].name) && ensureLocal(FullPath(walk[j], normPath)))
  {
    idx := Seqs.FilterMapIndices(walk, e => Keep(e, normPath, ensureLocal), e => FullPath(e, normPath));
  }

  /** Every kept name is an `.mp3` name in any case, and free of every skip word. */
  lemma CandidateNames(name: string)
    requires IsCandidateName(name)
    ensures |name| >= 4 && Lower(name[|name| - 4..]) == ".mp3"
    ensures forall k :: 0 <= k < |SkipFiles| ==> !Contains(name, SkipFiles[k])
  {
    assert Lower(name)[|name| - 4..] == Lower(name[|name| - 4..]);
    forall k | 0 <= k < |SkipFiles| ensures !Contains(name, SkipFiles[k]) {
      ContainsNoneAt(name, SkipFiles, k);
    }
  }

  /** The skip test is case-sensitive while the extension test is not. */
  lemma ThumbsSkipped()
    ensures !IsCandidateName("Thumbs.mp3")
    ensures IsCandidateName("thumbs.mp3")
  {
    assert "Thumbs.mp3"[..6] == "Thumbs";
    assert Lower("thumbs.mp3") == "thumbs.mp3";
    NoSkipWord("thumbs.mp3", ['d', 'T', 'o', 'V']);
  }

  lemma ExtensionCaseIgnored()
    ensures IsCandidateName("Song.MP3")
    ensures !IsCandidateName("Song.wav")
  {
    assert Lower("Song.MP3") == "song.mp3";
    assert Lower("Song.wav") == "song.wav";
    NoSkipWord("Song.MP3", ['d', 'T', 'r', 'V']);
  }

  /** A name lacking one given letter of each skip word contains none of them. */
  lemma NoSkipWord(name: string, missing: seq<char>)
    requires |missing| == |SkipFiles|
    requires forall k :: 0 <= k < |SkipFiles| ==> missing[k] in SkipFiles[k] && missing[k] !in name
    ensures ContainsNone(name, SkipFiles)
  {
    forall k | 0 <= k < |SkipFiles| ensures !Contains(name, SkipFiles[k]) {
      MissingChar(name, SkipFiles[k], missing[k]);
    }
    ContainsNoneAll(name, SkipFiles);
  }
}
