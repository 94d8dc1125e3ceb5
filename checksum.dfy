/** `sha256sum` and the digest comparison of `main`. The hash function itself
    is not part of this model: `sha256sum` is modelled up to the sequence of
    `h.update` calls it makes, and the comparison takes the hex digest it
    returns as given. */
module Checksum {
  import opened Ascii
  import opened Bytes

  /** `f.read(size)` at offset `pos`. A read comes back empty exactly at the
      end of the file, and a short read means the end was reached: the stop
      condition `iter(lambda: f.read(CHUNK), b"")` relies on both. */
  function Read(file: seq<byte>, pos: nat, size: nat): (chunk: seq<byte>)
    requires pos <= |file|
    ensures 0 < size ==> (chunk == [] <==> pos == |file|)
    ensures |chunk| < size ==> pos + |chunk| == |file|
  {
    if pos + size <= |file| then file[pos..pos + size] else file[pos..]
  }

  /** The loop of `sha256sum`: the file is read in `CHUNK`-sized pieces until a
      read comes back empty, and each piece is passed to `h.update`. The
      pieces, in order, are exactly the file; all are non-empty and all but
      the last are full, so the streamed digest is the digest of the file. */
  method HashUpdates(file: seq<byte>) returns (updates: seq<seq<byte>>)
    ensures Concat(updates) == file
    ensures forall k :: 0 <= k < |updates| ==> 0 < |updates[k]| <= CHUNK
    ensures forall k :: 0 <= k < |updates| - 1 ==> |updates[k]| == CHUNK
  {
    var pos := 0;
    updates := [];
    while true
      invariant pos <= |file|
      invariant Concat(updates) == file[..pos]
      invariant forall k :: 0 <= k < |updates| ==> 0 < |updates[k]| <= CHUNK
      invariant forall k :: 0 <= k < |updates| - 1 ==> |updates[k]| == CHUNK
      invariant updates != [] && |updates[|updates| - 1]| < CHUNK ==> pos == |file|
      decreases |file| - pos
    {
      var chunk := Read(file, pos, CHUNK);
      if chunk == [] {
        break;
      }
      assert (updates + [chunk])[..|updates|] == updates;
      assert file[..pos + |chunk|] == file[..pos] + chunk;
      updates := updates + [chunk];
      pos := pos + |chunk|;
    }
    assert file[..pos] == file;
  }

  /** The test of line 75, negated: the computed and the expected digest are
      equal once both are lower-cased. */
  predicate Accepts(actual: string, expected: string)
    ensures Accepts(actual, expected) ==> |actual| == |expected|
    ensures actual == expected ==> Accepts(actual, expected)
  {
    Lower(actual) == Lower(expected)
  }

  /** Acceptance, stated character by character: the digests have the same
      length and at every position hold the same character or the two cases
      of one letter. So a difference in letter case alone never rejects, and
      any other difference always does. */
  lemma AcceptsIff(actual: string, expected: string)
    ensures Accepts(actual, expected) <==>
      |actual| == |expected| && forall i :: 0 <= i < |actual| ==> CaseVariants(actual[i], expected[i])
  {
    assert |Lower(actual)| == |actual| && |Lower(expected)| == |expected|;
    if |actual| == |expected| {
      forall i | 0 <= i < |actual|
        ensures Lower(actual)[i] == Lower(expected)[i] <==> CaseVariants(actual[i], expected[i])
      {
        LowerCharEqual(actual[i], expected[i]);
      }
      if forall i :: 0 <= i < |actual| ==> CaseVariants(actual[i], expected[i]) {
        assert Lower(actual) == Lower(expected);
      }
    }
  }

  /** Accepting is an equivalence on digests: reflexive, symmetric and transitive. */
  lemma AcceptsEquivalence(a: string, b: string, c: string)
    ensures Accepts(a, a)
    ensures Accepts(a, b) ==> Accepts(b, a)
    ensures Accepts(a, b) && Accepts(b, c) ==> Accepts(a, c)
  {
  }

  /** Re-casing either digest never changes the decision. */
  lemma AcceptsIgnoresCase(actual: string, expected: string)
    ensures Accepts(Lower(actual), expected) == Accepts(actual, expected)
    ensures Accepts(actual, Lower(expected)) == Accepts(actual, expected)
  {
    LowerIdempotent(actual);
    LowerIdempotent(expected);
  }

  /** An upper-case hex digest matches its lower-case spelling. */
  lemma AcceptsMixedCaseExample()
    ensures Accepts("AB12", "ab12")
    ensures !Accepts("ab12", "ab13")
  {
    assert Lower("AB12") == "ab12";
    assert Lower("ab12") == "ab12";
    assert Lower("ab13")[3] == '3';
  }
}
