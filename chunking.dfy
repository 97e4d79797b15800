/** The batch splitter `chunkArray` of src/utils.ts. */
module Chunking {
  import opened Arith

  /** The concatenation of all chunks, in order. */
  function Flatten<T>(chunks: seq<seq<T>>): seq<T> {
    if chunks == [] then [] else chunks[0] + Flatten(chunks[1..])
  }

  /**
   * `a` cut into consecutive groups of `step` elements, the last one possibly
   * shorter. An empty input has no chunk, whatever the step.
   */
  function Chunks<T>(a: seq<T>, step: nat): seq<seq<T>>
    requires step > 0 || a == []
    decreases |a|
  {
    if a == [] then []
    else if |a| <= step then [a]
    else [a[..step]] + Chunks(a[step..], step)
  }

  /**
   * The loop of `chunkArray`: each pass pushes `a.slice(i, i + step)` and advances
   * `i` by `step`. An empty input never enters the loop and gives no chunk for
   * any step; a non-empty input with a step that is not positive loops forever,
   * so a positive step is demanded only there.
   */
  method ChunkArray<T>(a: seq<T>, step: nat) returns (result: seq<seq<T>>)
    requires step > 0 || a == []
    ensures result == Chunks(a, step)
    ensures Flatten(result) == a
    ensures a == [] ==> result == []
    ensures step > 0 ==> |result| == CeilDiv(|a|, step)
  {
    result := [];
    var i := 0;
    while i < |a|
      invariant i <= |a| ==> result + Chunks(a[i..], step) == Chunks(a, step)
      invariant i > |a| ==> result == Chunks(a, step)
      decreases |a| - i
    {
      var end := Min(i + step, |a|);
      var chunk := a[i..end];
      if end == |a| {
        assert a[end..] == [] && chunk == a[i..];
      } else {
        assert a[i..][..step] == chunk && a[i..][step..] == a[end..];
      }
      assert Chunks(a[i..], step) == [chunk] + Chunks(a[end..], step);
      result := result + [chunk];
      i := i + step;
    }
    if i == |a| {
      assert a[i..] == [];
    }
    if step > 0 {
      FlattenChunks(a, step);
      ChunkCount(a, step);
    }
  }

  /** Flattening the chunks gives back the input exactly. */
  lemma {:induction false} FlattenChunks<T>(a: seq<T>, step: nat)
    requires step > 0
    ensures Flatten(Chunks(a, step)) == a
    decreases |a|
  {
    if |a| > step {
      FlattenChunks(a[step..], step);
      assert a == a[..step] + a[step..];
    }
  }

  /** There are `ceil(|a| / step)` chunks; in particular no chunk at all for an empty input. */
  lemma {:induction false} ChunkCount<T>(a: seq<T>, step: nat)
    requires step > 0
    ensures |Chunks(a, step)| == CeilDiv(|a|, step)
    decreases |a|
  {
    if a == [] {
      CeilDivUnique(0, step, 0);
    } else if |a| <= step {
      CeilDivUnique(|a|, step, 1);
    } else {
      ChunkCount(a[step..], step);
      var c := CeilDiv(|a| - step, step);
      assert c > 0;
      assert (c + 1) * step == c * step + step;
      assert (c - 1) * step == c * step - step;
      CeilDivUnique(|a|, step, c + 1);
    }
  }

  /** Every chunk is non-empty and holds at most `step` elements; all but the last hold exactly `step`. */
  lemma {:induction false} ChunkSizes<T>(a: seq<T>, step: nat, k: nat)
    requires step > 0
    requires k < |Chunks(a, step)|
    ensures 0 < |Chunks(a, step)[k]| <= step
    ensures k < |Chunks(a, step)| - 1 ==> |Chunks(a, step)[k]| == step
    decreases |a|
  {
    if |a| > step && k > 0 {
      ChunkSizes(a[step..], step, k - 1);
    }
  }

  /** Chunk `k` is the slice of `a` from `k * step`, clamped at the end: the order of elements is kept. */
  lemma {:induction false} ChunkAt<T>(a: seq<T>, step: nat, k: nat)
    requires step > 0
    requires k < |Chunks(a, step)|
    ensures k * step < |a|
    ensures Chunks(a, step)[k] == a[k * step .. Min(k * step + step, |a|)]
    decreases |a|
  {
    if k > 0 {
      assert |a| > step && Chunks(a, step)[k] == Chunks(a[step..], step)[k - 1];
      ChunkAt(a[step..], step, k - 1);
      var j := (k - 1) * step;
      MulStep(k, step);
      var e := Min(j + step, |a| - step);
      assert step + e == Min(k * step + step, |a|);
      assert a[step..][j..e] == a[step + j..step + e];
    }
  }
}
