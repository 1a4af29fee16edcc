/**
 * The windowing policy of main.py: the analysis window and hop sizes for a
 * sample rate and a task name. The window depends only on whether the rate
 * reaches 44100 Hz; the hop is a fixed fraction of the window.
 */
module Windowing {
  import opened Wrappers

  datatype Sizes = Sizes(win: nat, hop: nat)

  datatype WindowError = UnknownTask

  const HighRate: int := 44100

  predicate KnownTask(task: string) {
    task == "pitch" || task == "onset" || task == "beat" || task == "mfcc"
  }

  /** The window a known task uses at a rate of at least 44100 Hz. */
  function FullWindow(task: string): nat {
    if task == "onset" then 1024 else if task == "beat" then 2048 else 4096
  }

  /** How many hops make one window for a known task. */
  function HopsPerWindow(task: string): nat {
    if task == "pitch" || task == "mfcc" then 4 else 2
  }

  /** `set_window_and_hop_sizes(sample_rate, task)` */
  function WindowAndHopSizes(sampleRate: int, task: string): (r: Result<Sizes, WindowError>)
    ensures r.Failure? <==> !KnownTask(task)
    ensures r.Success? ==> r.value.win == (if sampleRate >= HighRate then FullWindow(task) else FullWindow(task) / 2)
    ensures r.Success? ==> r.value.hop * HopsPerWindow(task) == r.value.win && r.value.hop > 0
  {
    if task == "pitch" then
      var win := if sampleRate >= 44100 then 4096 else 2048;
      Success(Sizes(win, win / 4))
    else if task == "onset" then
      var win := if sampleRate >= 44100 then 1024 else 512;
      Success(Sizes(win, win / 2))
    else if task == "beat" then
      var win := if sampleRate >= 44100 then 2048 else 1024;
      Success(Sizes(win, win / 2))
    else if task == "mfcc" then
      var win := if sampleRate >= 44100 then 4096 else 2048;
      Success(Sizes(win, win / 4))
    else
      Failure(UnknownTask)
  }

  lemma BeatSizes(sampleRate: int)
    ensures WindowAndHopSizes(sampleRate, "beat")
         == Success(if sampleRate >= 44100 then Sizes(2048, 1024) else Sizes(1024, 512))
  {
  }

  lemma OnsetSizes(sampleRate: int)
    ensures WindowAndHopSizes(sampleRate, "onset")
         == Success(if sampleRate >= 44100 then Sizes(1024, 512) else Sizes(512, 256))
  {
  }

  /** Two rates on the same side of 44100 Hz get the same sizes for every task. */
  lemma OnlyThresholdMatters(rate1: int, rate2: int, task: string)
    requires (rate1 >= HighRate) == (rate2 >= HighRate)
    ensures WindowAndHopSizes(rate1, task) == WindowAndHopSizes(rate2, task)
  {
  }

  /** The hop the beat tracker reads with; the "beat" task never fails. */
  function BeatHop(sampleRate: int): (hop: nat)
    ensures hop == (if sampleRate >= HighRate then 1024 else 512)
  {
    WindowAndHopSizes(sampleRate, "beat").value.hop
  }
}
