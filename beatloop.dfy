/**
 * The beat-collection loop of `App.process_files`: hop-sized blocks are read
 * and fed to the tempo tracker until a block shorter than the hop arrives.
 * The decoder and tracker are a given sequence of steps: a block (how many
 * samples were read, whether the tracker fired, the tracker's last beat
 * time) or a raised exception.
 */
module BeatLoop {
  import Seqs

  datatype Step = Block(read: nat, fired: bool, time: real) | Raise

  /** The loop ends at this step: it raised, or it read less than a hop. */
  predicate Stops(s: Step, hop: nat) {
    s.Raise? || s.read < hop
  }

  /** The stream reaches a step at which the loop ends. */
  predicate Terminates(stream: seq<Step>, hop: nat) {
    exists i :: 0 <= i < |stream| && Stops(stream[i], hop)
  }

  /** The position of the step that ends the loop. */
  function FirstStop(stream: seq<Step>, hop: nat): (n: nat)
    requires Terminates(stream, hop)
    ensures n < |stream| && Stops(stream[n], hop)
    ensures forall j :: 0 <= j < n ==> !Stops(stream[j], hop)
    decreases |stream|
  {
    if Stops(stream[0], hop) then 0
    else
      assert Terminates(stream[1..], hop) by {
        var i :| 0 <= i < |stream| && Stops(stream[i], hop);
        assert stream[1..][i - 1] == stream[i];
      }
      1 + FirstStop(stream[1..], hop)
  }

  predicate Fired(s: Step) {
    s.Block? && s.fired
  }

  function TimeOf(s: Step): real {
    if s.Block? then s.time else 0.0
  }

  /** The beat times of the fired blocks, in order. */
  function FiredTimes(blocks: seq<Step>): seq<real> {
    Seqs.FilterMap(blocks, Fired, TimeOf)
  }

  /** Samples read over the blocks. */
  function SumReads(blocks: seq<Step>): nat
    decreases |blocks|
  {
    if blocks == [] then 0
    else SumReads(blocks[..|blocks| - 1]) + (if blocks[|blocks| - 1].Block? then blocks[|blocks| - 1].read else 0)
  }

  datatype Collected = Collected(beats: seq<real>, totalFrames: nat) | Raised

  /**
   * What the loop produces: it consumes the stream up to and including the
   * first stopping step; if that step raised, the exception escapes,
   * otherwise the beats and sample count of the consumed blocks.
   */
  function Collect(stream: seq<Step>, hop: nat): Collected
    requires Terminates(stream, hop)
  {
    var n := FirstStop(stream, hop);
    if stream[n].Raise? then Raised
    else Collected(FiredTimes(stream[..n + 1]), SumReads(stream[..n + 1]))
  }

  /** The `while True` loop with `beats.append` and `total_frames += read`. */
  method CollectBeats(stream: seq<Step>, hop: nat) returns (r: Collected)
    requires Terminates(stream, hop)
    ensures r == Collect(stream, hop)
  {
    var beats: seq<real> := [];
    var totalFrames: nat := 0;
    var i := 0;
    while true
      invariant 0 <= i <= FirstStop(stream, hop)
      invariant beats == FiredTimes(stream[..i]) && totalFrames == SumReads(stream[..i])
      decreases FirstStop(stream, hop) - i
    {
      var step := stream[i];
      if step.Raise? {
        return Raised;
      }
      assert stream[..i + 1][..i] == stream[..i];
      if step.fired {
        beats := beats + [step.time];
      }
      totalFrames := totalFrames + step.read;
      if step.read < hop {
        return Collected(beats, totalFrames);
      }
      i := i + 1;
    }
  }

  /**
   * The collected beats are the times of exactly the fired blocks among the
   * consumed ones, in stream order; every consumed block but the last read a
   * full hop.
   */
  lemma CollectedBeats(stream: seq<Step>, hop: nat) returns (idx: seq<nat>)
    requires Terminates(stream, hop) && Collect(stream, hop).Collected?
    ensures var n := FirstStop(stream, hop);
      && stream[n].Block? && stream[n].read < hop
      && (forall j :: 0 <= j < n ==> stream[j].Block? && stream[j].read >= hop)
      && |idx| == |Collect(stream, hop).beats|
      && (forall k :: 0 <= k < |idx| ==> idx[k] <= n && Collect(stream, hop).beats[k] == stream[idx[k]].time)
      && (forall k, k' :: 0 <= k < k' < |idx| ==> idx[k] < idx[k'])
      && (forall j :: 0 <= j <= n ==> (j in idx <==> stream[j].fired))
  {
    var n := FirstStop(stream, hop);
    var consumed := stream[..n + 1];
    idx := Seqs.FilterMapIndices(consumed, Fired, TimeOf);
    assert forall j :: 0 <= j <= n ==> consumed[j] == stream[j];
  }

  /** Blocks that each read at least a hop add up to at least a hop per block. */
  lemma {:induction false} SumReadsFull(blocks: seq<Step>, hop: nat)
    requires forall j :: 0 <= j < |blocks| ==> blocks[j].Block? && blocks[j].read >= hop
    ensures SumReads(blocks) >= hop * |blocks|
    decreases |blocks|
  {
    if blocks != [] {
      var n := |blocks| - 1;
      assert forall j :: 0 <= j < n ==> blocks[..n][j] == blocks[j];
      SumReadsFull(blocks[..n], hop);
    }
  }

  /** There are no more beats than consumed blocks. */
  lemma BeatCount(stream: seq<Step>, hop: nat)
    requires Terminates(stream, hop) && Collect(stream, hop).Collected?
    ensures |Collect(stream, hop).beats| <= FirstStop(stream, hop) + 1
  {
    Seqs.FilterMapLength(stream[..FirstStop(stream, hop) + 1], Fired, TimeOf);
  }

  /** `total_frames` counts at least a full hop for every block before the last. */
  lemma CollectedFrames(stream: seq<Step>, hop: nat)
    requires Terminates(stream, hop) && Collect(stream, hop).Collected?
    ensures Collect(stream, hop).totalFrames >= hop * FirstStop(stream, hop) + stream[FirstStop(stream, hop)].read
  {
    var n := FirstStop(stream, hop);
    var consumed := stream[..n + 1];
    assert consumed[..n] == stream[..n];
    SumReadsFull(stream[..n], hop);
  }
}
