# BPM tagger: a Dafny model of its control and data logic

BPM_tagger is two desktop tools. `main.py` walks a directory of MP3 files,
runs each through the aubio beat tracker, and writes the median tempo
into the file's tags under `BPM`. `mixxx_tempo_extractor.py` reads a Mixxx
DJ library database 20 rows at a time and copies each track's BPM, key and
descriptive fields into the tags of the file the row points at.

This project models the logic between the library calls:

- the window/hop policy;
- the candidate-file filter;
- the beat-collection loop and its "more than one beat" gate;
- the per-file failure bookkeeping of `App.process_files`;
- the case-normalising tag merge of `main.py`;
- for the importer: its WSL path rewrite, its verbatim tag writes and its
  page loop.

Every library call is an input, and the model is proved against what the two
files promise:

- the directory walk is a sequence of (root, name) pairs;
- `os.path.normpath`, `ensure_local`, `has_permission` and `os.path.isfile`
  are oracle functions;
- the decoder and tracker are a sequence of blocks;
- taglib is an in-memory store of tag dicts;
- the database is a sequence of rows;
- the terminate flag is its value at each loop head.

Modules, one per concern:

- `Wrappers` holds Option and Result.
- `Text` holds the Python string operations used, ASCII `lower` included.
- `Dicts` models Python dicts as insertion-ordered item sequences, with
  `d[k] = v` semantics. Insertion order decides which of two keys that
  differ only in case wins.
- `Seqs` provides filter-and-map with a subsequence lemma.
- `Windowing` is `set_window_and_hop_sizes`.
- `Scan` is `process_directory`.
- `BeatLoop` is the `while True` beat loop.
- `Tagging` holds `tag_music_file`, `compute` and the tag store.
- `Batch` holds `App.process_files` as a class whose `ProcessFiles` updates
  `failedFiles`, the progress fields and the store.
- `Importer` is `mixxx_tempo_extractor.py`.

Behaviour of the code that the model follows:

- `process_files` checks no cancellation flag between files. The thread's
  stop event is only checked between whole runs of `process_files`.
- A failed ffmpeg conversion is not recorded as such. `convert_mp3_to_wav`
  swallows the exception and its result is ignored. The failure shows up when
  aubio opens the temporary file, and that records the full path.
- A failed tag write is logged by `tag_music_file` and never added to
  `failed_files`.
- The progress value is not advanced by files that hit an early `continue`
  (permission, locality, aubio failures). It is set to the total after the loop.
- No success count is returned. Only `failed_files` is kept.
- An MP3 with no tags at all gets neither a BPM nor a failure entry.
  `compute` writes only when `get_metadata` returned something.

## Model

| member | source | states |
|---|---|---|
| Windowing.WindowAndHopSizes | main.py:90-105 | fails exactly for a task other than pitch/onset/beat/mfcc; the window is the task's full size at 44100 Hz and above and half of it below; the hop is window/4 for pitch and mfcc, window/2 for onset and beat |
| Windowing.BeatSizes | main.py:97-99 | task beat gives (2048, 1024) at rates of at least 44100 and (1024, 512) below |
| Windowing.OnsetSizes | main.py:94-96 | task onset gives (1024, 512) at rates of at least 44100 and (512, 256) below |
| Windowing.OnlyThresholdMatters | main.py:90-105 | two rates on the same side of 44100 give the same result for every task |
| Windowing.BeatHop | main.py:254-255 | the beat loop's read size is 1024 at rates of at least 44100 and 512 below |
| Scan.JoinPath | main.py:68 | the joined path is the root and the name, with either nothing or one backslash between them |
| Scan.IsCandidateName | main.py:67 | the name test: the lower-cased name ends in .mp3 and the name contains none of desktop, Thumbs, order, Videos - Shortcut (its consequences are the CandidateNames and ThumbsSkipped lemmas) |
| Scan.ProcessDirectory | main.py:62-74 | the loop appends exactly the candidate paths, in walk order |
| Scan.CandidatesSubsequence | main.py:65-71 | the result is a subsequence of the walk's full paths; an entry is kept iff its name passes the test and its path is local |
| Scan.CandidateNames | main.py:64-67 | a kept name ends in .mp3 in some case and contains none of the four skip words |
| Scan.ThumbsSkipped | main.py:64-67 | the skip words match case-sensitively: Thumbs.mp3 is skipped, thumbs.mp3 is kept |
| Scan.ExtensionCaseIgnored | main.py:67 | the extension test ignores case: Song.MP3 is kept, Song.wav is not |
| BeatLoop.FirstStop | main.py:271-278 | the position of the first block that raised or read less than a hop, with no such block before it |
| BeatLoop.Collect | main.py:267-278 | reference definition of the loop: the exception escapes if the first stopping step raised, otherwise the fired times and summed reads of the blocks through it |
| BeatLoop.CollectBeats | main.py:267-278 | the loop stops at the first short block or exception; beats and total_frames are those of the consumed blocks |
| BeatLoop.CollectedBeats | main.py:271-278 | every consumed block but the last read a full hop; the beats are the times of exactly the fired consumed blocks, in order |
| BeatLoop.CollectedFrames | main.py:276-278 | total_frames is at least a hop per block before the last plus the last block's read |
| BeatLoop.BeatCount | main.py:273-275 | no more beats than consumed blocks |
| Tagging.Flatten | main.py:55-56 | a plain string is kept; a one-element list becomes its element; an empty list the empty string |
| Tagging.Normalize | main.py:51-53 | reference definition of the dict comprehension: the items with lower-cased keys, put in order so that a later key replaces an earlier one (shape in NormalizeShape) |
| Tagging.Merge | main.py:51-57 | reference definition of what tag_music_file leaves: the lower-cased existing tags with each lower-cased incoming key set to its flattened value (MergeGet, MergeShape, MergeIdempotent) |
| Tagging.TagMusicFile | main.py:49-60 | the assignment loop leaves the merge of the lower-cased tags with the flattened lower-cased metadata |
| Tagging.LaterKeyWins | main.py:51-53 | when keys differ only in case, the later item's value is what the lower-cased dict holds |
| Tagging.NormalizeShape | main.py:51-53 | the lower-cased dict has distinct lower-case keys, one per lower-cased input key |
| Tagging.MergeGet | main.py:51-58 | a key holds the flattened last incoming value for it, else its lower-cased existing value |
| Tagging.MergeShape | main.py:51-57 | after the merge every key is lower-case and distinct; keys are the existing and incoming ones, lower-cased |
| Tagging.MergeUpdated | main.py:54-57 | an updated key maps to the one-element list of its last incoming value, flattened |
| Tagging.MergeKept | main.py:53 | a key no incoming item names keeps its existing value under its lower-cased key |
| Tagging.MergeIdempotent | main.py:51-58 | merging the same metadata twice gives the same tags as merging it once |
| Tagging.ReadTags | main.py:37-47 | a readable file yields exactly its tags, an unreadable one an empty dict |
| Tagging.WriteTags | main.py:49-60 | a writable file's tags become the merge; an unwritable file and all other files are unchanged |
| Tagging.WithBpm | main.py:109-111 | the metadata handed on holds BPM as the new plain string, every other key keeps the file's value as a list, and its keys are exactly the file's keys plus BPM |
| Tagging.Compute | main.py:107-112 | nothing is written when the existing metadata is empty; no other file changes |
| Tagging.ComputeSetsBpm | main.py:107-112 | after compute on a writable file with tags, bpm holds the new value, unless a bpm-like key follows an existing BPM |
| Tagging.ComputeFlattensOthers | main.py:109-112 | compute rewrites every other tag as one ", "-joined value under its lower-cased key |
| Batch.FailureEntry | main.py:233-300 | each file adds at most one entry to failed_files |
| Batch.Analyse | main.py:233-291 | permission denial, non-locality and an aubio failure are each reported exactly when the earlier checks passed and this one fails; an accepted file was decoded and its collected beats, more than one, are the ones reported |
| Batch.ShortPath | main.py:291 | reference definition: the last two backslash-separated parts joined by a backslash (ShortPathSuffix, ShortPathSeparators) |
| Batch.Failures | main.py:231-306 | every entry of failed_files is a processed path or its short form |
| Batch.StoreAfter | main.py:231-306 | a batch adds or removes no file and leaves every file outside it unchanged |
| Batch.ProcessFile | main.py:231-305 | one iteration appends the file's failure entry, runs compute on it only when more than one beat was found, and reaches the progress update only past the permission, locality and aubio checks |
| Batch.App.constructor | main.py:191-192 | a new app has no directory and no failed files |
| Batch.App.ProcessFiles | main.py:221-308 | without a directory nothing changes; otherwise failed_files lists every candidate's entry in order, the store goes through compute file by file, and progress ends at the total |
| Batch.FailuresBound | main.py:231-300 | failed_files has at most one entry per candidate |
| Batch.FailuresAppend | main.py:231-306 | isolation: the entries of a batch are those of its parts, concatenated |
| Batch.FailureIffNotAccepted | main.py:284-291 | a file gets no entry iff its outcome is Accepted, i.e. all checks pass, the loop finished and more than one beat was collected; compute may still leave an accepted file without tags, or an unwritable one, unchanged |
| Batch.FailureEntryForm | main.py:233-300 | permission, locality and aubio failures record the full path; loop exceptions and beatless files the short path |
| Batch.AcceptedUntaggedUnchanged | main.py:107-112 | an accepted file without tags gets neither a failure entry nor a BPM |
| Batch.ShortPathSuffix | main.py:291 | the short path is a suffix of the path, cut at the start or right after a backslash |
| Batch.ShortPathSeparators | main.py:291 | the short path keeps at most one backslash, and equals a path that has at most one |
| Batch.ShortPathExample | main.py:291 | m\a\s is shortened to a\s |
| Importer.RewriteFacts | mixxx_tempo_extractor.py:61-64 | outside WSL the path is unchanged; under WSL no backslash and no C: remains, and without C: only the backslashes are changed to slashes |
| Importer.Rewrite | mixxx_tempo_extractor.py:63 | reference definition of the rewrite: under WSL backslashes become slashes and then C: becomes /mnt/c (RewriteFacts) |
| Importer.ProcessPath | mixxx_tempo_extractor.py:61-64 | returns the rewritten path iff it is a file, else None |
| Importer.WslExample | mixxx_tempo_extractor.py:63 | C:\a becomes /mnt/c/a under WSL |
| Importer.TagMusicFile | mixxx_tempo_extractor.py:113-120 | the loop assigns every given key verbatim, in order |
| Importer.WriteBackGet | mixxx_tempo_extractor.py:115-117 | writing back a dict that extends the file's tags leaves exactly that dict's values |
| Importer.NoCaseFolding | mixxx_tempo_extractor.py:113-118 | an existing bpm key stays beside a written BPM key |
| Importer.WriteVerbatim | mixxx_tempo_extractor.py:113-120 | a writable file's tags become its old tags with every given key assigned verbatim, in order; an unwritable file and every other file are unchanged |
| Importer.ApplyRow | mixxx_tempo_extractor.py:144-159 | a row whose location does not resolve, or resolves to a file with no tags, changes nothing; no file is added |
| Importer.TagPage | mixxx_tempo_extractor.py:144-159 | the inner loop applies the page's rows one after another |
| Importer.ApplyRows | mixxx_tempo_extractor.py:144-159 | the import never adds or removes a file |
| Importer.ApplyRowsUntouched | mixxx_tempo_extractor.py:144-159 | a file that no row resolves to keeps its tags through the whole import |
| Importer.ApplyRowsAppend | mixxx_tempo_extractor.py:143-159 | applying rows page by page equals applying all of them in sequence |
| Importer.PagesRun | mixxx_tempo_extractor.py:142 | the loop runs pages while count < total and the flag is clear, and stops at the first head where either fails |
| Importer.Import | mixxx_tempo_extractor.py:122-167 | an invalid database path returns before any query; otherwise count is 20 per page run and exactly the first min(20n, total) rows are applied, in order, so a started page always finishes |
| Importer.PagesRunUnique | mixxx_tempo_extractor.py:142 | the page count is the first index at which the loop head fails |
| Importer.PagesWithoutTermination | mixxx_tempo_extractor.py:137-161 | without termination the loop runs ceil(total/20) pages |
| Importer.CountBounds | mixxx_tempo_extractor.py:160-161 | without termination the final count is at least the total and under total + 20 |
| Importer.CountExceedsTotal | mixxx_tempo_extractor.py:160-164 | a library of 25 rows is reported as 40 of 25 |
| Importer.TerminatedBeforeStart | mixxx_tempo_extractor.py:142 | a flag set at the first loop head stops before any page |
| Importer.RowItemsShape | mixxx_tempo_extractor.py:151-158 | the eight written keys are distinct and exactly BPM, KEY, ARTIST, TITLE, ALBUMARTIST, GENRE, ALBUM, YEAR |
| Importer.RowMetadataGet | mixxx_tempo_extractor.py:150-158 | the row metadata holds the row's values under the eight keys and the file's values elsewhere |
| Importer.RowItems | mixxx_tempo_extractor.py:151-158 | reference definition of the eight assignments in order, ALBUMARTIST taking the artist (RowItemsShape) |
| Importer.RowTagged | mixxx_tempo_extractor.py:149-159 | a resolved row on a file with tags sets the eight keys to one-element lists, ALBUMARTIST to the artist, and keeps every other key; no other file changes |

## Left out

- aubio and ffmpeg are foreign code. The decode and tracking steps are the
  `FileProbe` input: the sample rate aubio reports (or its failure) and the
  block stream. `convert_mp3_to_wav`, the temporary WAV file and its deletion
  are not modelled.
- Batch.FailuresAppend: that files are isolated from each other is an
  assumption of the probe abstraction, since a probe depends on the path
  alone. Every file is decoded into the same temporary WAV path. If deleting
  that file fails after a loop exception, for example while the aubio source
  still holds it open on Windows, the next file whose conversion fails could
  be analysed from the previous file's audio. The model does not capture
  this.
- The floating-point BPM reduction is not modelled: `np.diff`, `60.0 /
  intervals`, `np.median` and `round(bpm, 2)`. The formatted BPM is the
  oracle `bpmText`, and only the more-than-one-beat gate is modelled. Beat
  times are carried as `real` values and never computed with.
- The beat stream is required to reach a block shorter than the hop, or an
  exception. The real decoder always does; a stream that never ends is not
  modelled.
- taglib, `os.walk`, `os.access`, `os.path.exists`, `os.path.isfile` and
  `os.path.normpath` are oracles or the in-memory store. taglib's own key
  handling when it saves is not modelled: the store keeps what was written.
- `Scan.JoinPath` follows Windows join rules for a drive letter and for
  separators. UNC paths are not modelled.
- `Text.Lower` lower-cases ASCII letters only. Python's full Unicode
  lower-casing is not modelled.
- Tagging.ComputeSetsBpm: stated only for files where no bpm-like key
  comes after an existing `BPM`. Such a later key keeps its old value, as
  the dict comprehension dictates.
- The GUI, threads and logging are not modelled: Tk widgets, `TextHandler`,
  log lines, message boxes, `process_files_thread`, `stop_events`,
  `on_closing`, `run_with_gui` and `choose_directory`.
  `check_dependencies` and the ffmpeg path lookup are startup I/O.
- `get_metadata` is modelled only as the tag dict it returns. Its artist,
  title, bpm and key extractions are unused by the callers modelled here.
- SQLAlchemy, the engine, the session and the ORM classes are library
  plumbing. A row is the library record joined with its location, with
  `bpm` already formatted as `str(round(float(bpm), 2))`. A row without a
  track location raises an exception in the source that ends the import;
  the model requires every row to carry a location. NULL columns are not
  modelled. Rows are paged in the sequence's order.
- The progress percentage is floating-point and only shown on screen. The
  final "Done" or "Process terminated" label reads the flag once more after
  the loop; the model takes that value as `cancelAt(n)`.
- Exceptions raised by taglib inside either tool's `tag_music_file` are
  modelled only as "the file cannot be opened for writing" (`writable`).
