/** `download`: the streamed response body is copied chunk by chunk into the
    destination file while a progress bar counts the bytes written. The HTTP
    stream is given as the sequence of chunks `r.iter_content(CHUNK)` yields. */
module Download {
  import opened Bytes

  /** The chunks that pass `if chunk:`, in order. */
  function NonEmpty(chunks: seq<seq<byte>>): (r: seq<seq<byte>>)
    ensures forall k :: 0 <= k < |r| ==> |r[k]| > 0
  {
    if chunks == [] then []
    else if |chunks[|chunks| - 1]| == 0 then NonEmpty(chunks[..|chunks| - 1])
    else NonEmpty(chunks[..|chunks| - 1]) + [chunks[|chunks| - 1]]
  }

  /** Dropping empty chunks changes no byte of the result. */
  lemma {:induction false} ConcatNonEmpty(chunks: seq<seq<byte>>)
    ensures Concat(NonEmpty(chunks)) == Concat(chunks)
  {
    if chunks != [] {
      var init, last := chunks[..|chunks| - 1], chunks[|chunks| - 1];
      ConcatNonEmpty(init);
      if |last| > 0 {
        ConcatAppend(NonEmpty(init), [last]);
        assert Concat([last]) == Concat([]) + last;
      }
    }
  }

  /** The destination file, opened with mode `'wb'`: its contents, and the
      sequence of `write` calls made on it. */
  class OutFile {
    var data: seq<byte>
    ghost var writes: seq<seq<byte>>

    ghost predicate Valid()
      reads this
    {
      data == Concat(writes)
    }

    /** `dest.open('wb')` truncates the file. */
    constructor Open()
      ensures Valid() && data == [] && writes == []
    {
      data := [];
      writes := [];
    }

    /** `fh.write(chunk)` appends the chunk. */
    method Write(chunk: seq<byte>)
      requires Valid()
      modifies this
      ensures Valid()
      ensures data == old(data) + chunk
      ensures writes == old(writes) + [chunk]
    {
      data := data + chunk;
      writes := writes + [chunk];
      assert writes[..|writes| - 1] == old(writes);
    }
  }

  /** The progress bar: its declared total and its counter `n`. */
  class ProgressBar {
    const total: int
    var n: nat

    /** `tqdm(total=total_bytes, ...)` starts counting at zero. */
    constructor (total: int)
      ensures this.total == total && n == 0
    {
      this.total := total;
      n := 0;
    }

    /** `bar.update(k)` advances the counter by `k`. */
    method Update(k: nat)
      modifies this
      ensures n == old(n) + k
    {
      n := n + k;
    }
  }

  /** The chunk loop of `download`: every non-empty chunk is written, in
      order, and the bar advances by its length. The file ends up holding the
      whole body and the bar's count equals the file's length; the declared
      `totalBytes` is shown on the bar only and never limits what is written. */
  method Download(chunks: seq<seq<byte>>, totalBytes: int) returns (fh: OutFile, bar: ProgressBar)
    ensures fresh(fh) && fresh(bar) && fh.Valid()
    ensures fh.writes == NonEmpty(chunks)
    ensures fh.data == Concat(chunks)
    ensures bar.n == |fh.data| == TotalLength(chunks) && bar.total == totalBytes
  {
    fh := new OutFile.Open();
    bar := new ProgressBar(totalBytes);
    for i := 0 to |chunks|
      invariant fh.Valid()
      invariant fh.writes == NonEmpty(chunks[..i])
      invariant bar.n == |fh.data|
      invariant bar.total == totalBytes
    {
      var chunk := chunks[i];
      assert chunks[..i + 1][..i] == chunks[..i];
      if |chunk| > 0 {
        fh.Write(chunk);
        bar.Update(|chunk|);
      }
    }
    assert chunks[..|chunks|] == chunks;
    ConcatNonEmpty(chunks);
    ConcatLength(chunks);
  }
}
