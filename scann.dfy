// The anisotropic quantizer of the ScaNN index (pkg/scann/anisotropic.go):
// like the product quantizer, but the subvectors may differ in width, so
// their widths are kept in subvectorDims and written to the serialized form
// after the header. The rotation the source declares is never enabled and
// is not modelled; k-means and the Euclidean distance are parameters.
module Scann {
  import opened Wrappers
  import opened CodebookIO
  import opened CodebookOps

  /** Train's split: dim / m dimensions for every subvector and one more for each of the first dim % m. */
  function SplitDims(dim: nat, m: nat): (dims: seq<nat>)
    requires m > 0
    ensures |dims| == m
  {
    seq(m, i requires 0 <= i < m => dim / m + if i < dim % m then 1 else 0)
  }

  function Min(a: nat, b: nat): nat
  {
    if a <= b then a else b
  }

  lemma {:induction false} SplitPrefix(dim: nat, m: nat, k: nat)
    requires 0 < m && k <= m
    ensures Sum(SplitDims(dim, m)[..k]) == Times(k, dim / m) + Min(k, dim % m)
    decreases k
  {
    if k > 0 {
      SplitPrefix(dim, m, k - 1);
      SumStep(SplitDims(dim, m), k - 1);
      TimesStep(k - 1, dim / m);
    }
  }

  /**
   * The split uses every dimension once, and the widths are balanced: they
   * never grow from one subvector to the next and differ by at most one.
   */
  lemma SplitDimsSum(dim: nat, m: nat)
    requires m > 0
    ensures Sum(SplitDims(dim, m)) == dim
    ensures forall i, j :: 0 <= i < j < m ==> SplitDims(dim, m)[j] <= SplitDims(dim, m)[i] <= SplitDims(dim, m)[j] + 1
  {
    SplitPrefix(dim, m, m);
    assert SplitDims(dim, m)[..m] == SplitDims(dim, m);
    assert Times(m, dim / m) + dim % m == dim;
  }

  /** The subvector widths as header words. */
  function DimWords(dims: seq<nat>): (ws: seq<Word>)
    ensures |ws| == |dims|
  {
    seq(|dims|, i requires 0 <= i < |dims| => U32(dims[i]))
  }

  /**
   * Decode as the source writes it: the segment of a valid code goes at an
   * offset that only the valid codes before it have advanced, so after an
   * invalid code the later centroids land one subvector too early.
   */
  function Packed(cbs: Codebooks, codes: seq<byte>, dims: seq<nat>): (p: seq<Word>)
    requires |cbs| >= |dims| && |codes| >= |dims|
    ensures |p| <= Sum(dims)
  {
    if dims == [] then []
    else
      var s := |dims| - 1;
      Packed(cbs, codes, dims[..s]) + if codes[s] as int < |cbs[s]| then Segment(cbs[s], codes[s], dims[s]) else []
  }

  function DecodedAsWritten(cbs: Codebooks, codes: seq<byte>, dims: seq<nat>, total: nat): seq<Word>
    requires |cbs| >= |dims| && |codes| >= |dims| && Sum(dims) <= total
  {
    Packed(cbs, codes, dims) + Zeros(total - |Packed(cbs, codes, dims)|)
  }

  lemma PackedStep(cbs: Codebooks, codes: seq<byte>, dims: seq<nat>, s: nat)
    requires |cbs| >= |dims| && |codes| >= |dims| && s < |dims|
    ensures Packed(cbs, codes, dims[..s + 1]) ==
      Packed(cbs, codes, dims[..s]) + if codes[s] as int < |cbs[s]| then Segment(cbs[s], codes[s], dims[s]) else []
  {
    assert dims[..s + 1][..s] == dims[..s];
  }

  /** The vector after s passes of the as-written loop: the segments of the valid codes so far, then zeros. */
  ghost function PackedUpTo(cbs: Codebooks, codes: seq<byte>, dims: seq<nat>, total: nat, s: nat): seq<Word>
    requires |cbs| >= |dims| && |codes| >= |dims| && s <= |dims| && Sum(dims[..s]) <= total
  {
    Packed(cbs, codes, dims[..s]) + Zeros(total - |Packed(cbs, codes, dims[..s])|)
  }

  /** Pass s of the as-written loop; the offset is the length of what is packed so far. */
  lemma PackedNext(cbs: Codebooks, codes: seq<byte>, dims: seq<nat>, total: nat, s: nat, vec: seq<Word>)
    requires |cbs| >= |dims| && |codes| >= |dims| && Sum(dims) <= total && s < |dims|
    requires Sum(dims[..s]) <= total && vec == PackedUpTo(cbs, codes, dims, total, s)
    ensures Sum(dims[..s + 1]) == Sum(dims[..s]) + dims[s] <= Sum(dims)
    ensures |vec| == total
    ensures |Packed(cbs, codes, dims[..s])| <= Sum(dims[..s])
    ensures codes[s] as int >= |cbs[s]| ==>
      Packed(cbs, codes, dims[..s + 1]) == Packed(cbs, codes, dims[..s]) && PackedUpTo(cbs, codes, dims, total, s + 1) == vec
    ensures codes[s] as int < |cbs[s]| ==>
      |Packed(cbs, codes, dims[..s + 1])| == |Packed(cbs, codes, dims[..s])| + dims[s] &&
      Step(vec, |Packed(cbs, codes, dims[..s])|, cbs[s], codes[s], dims[s]) == PackedUpTo(cbs, codes, dims, total, s + 1)
  {
    SubvectorFits(dims, s);
    PackedStep(cbs, codes, dims, s);
    if codes[s] as int < |cbs[s]| {
      var done := Packed(cbs, codes, dims[..s]);
      var next := Packed(cbs, codes, dims[..s + 1]);
      assert next == done + Segment(cbs[s], codes[s], dims[s]);
      assert vec == done + Zeros(total - |done|);
      assert PackedUpTo(cbs, codes, dims, total, s + 1) == next + Zeros(total - |next|);
      PlaceStep(done, total - |done|, cbs[s], codes[s], dims[s], next, total - |next|);
    }
  }

  /** The as-written Decode loop: the offset moves only past the segments of valid codes. */
  method PackSegments(cbs: Codebooks, codes: seq<byte>, dims: seq<nat>, total: nat) returns (vec: seq<Word>)
    requires |cbs| >= |dims| && |codes| >= |dims| && Sum(dims) <= total
    ensures vec == DecodedAsWritten(cbs, codes, dims, total)
  {
    vec := Zeros(total);
    assert dims[..0] == [];
    var offset := 0;
    for sv := 0 to |dims|
      invariant offset == |Packed(cbs, codes, dims[..sv])| <= Sum(dims[..sv]) <= Sum(dims)
      invariant vec == PackedUpTo(cbs, codes, dims, total, sv)
    {
      PackedNext(cbs, codes, dims, total, sv, vec);
      var code := codes[sv];
      if code as int >= |cbs[sv]| {
        assert vec == PackedUpTo(cbs, codes, dims, total, sv + 1);
        continue;
      }
      var svDim := dims[sv];
      ghost var before := vec;
      vec := CopyInto(vec, offset, cbs[sv][code], svDim);
      assert vec == Step(before, offset, cbs[sv], code, svDim);
      assert vec == PackedUpTo(cbs, codes, dims, total, sv + 1);
      offset := offset + svDim;
    }
    TakeAll(dims);
  }

  /**
   * Two one-dimensional subvectors, codebooks [[7]] and [[9]], codes 5 and
   * 0: code 5 has no centroid, and the source puts centroid [9] of the
   * second subvector in the first dimension, where the intended decoding
   * has a zero, and leaves the second dimension zero.
   */
  lemma DecodeOffsetCounterexample()
    ensures DecodedAsWritten([[[7]], [[9]]], [5 as byte, 0], [1, 1], 2) == [9, 0]
    ensures Decoded([[[7]], [[9]]], [5 as byte, 0], [1, 1], 2) == [0, 9]
  {
    var cbs: Codebooks := [[[7]], [[9]]];
    var codes: seq<byte> := [5, 0];
    var dims: seq<nat> := [1, 1];
    assert dims[..1] == [1] && dims[..1][..0] == [];
    assert Segment(cbs[1], codes[1], 1) == [9];
    assert Packed(cbs, codes, dims[..1]) == [];
    assert Packed(cbs, codes, dims) == [9];
    var segs := Segments(cbs, codes, dims);
    assert Segment(cbs[0], codes[0], 1) == Zeros(1) == [0];
    assert Overlay(Zeros(1), [9]) == [9];
    assert segs[0] == [0] && segs[1] == [9];
    assert segs == [[0], [9]];
    JoinStep(segs, 0);
    JoinStep(segs, 1);
    assert segs[..0] == [] && segs[..2] == segs;
  }

  class AnisotropicQuantizer {
    var dim: int
    var numSubvectors: int
    var bitsPerCode: int
    var subvectorDims: seq<nat>
    var codebooks: Codebooks

    /** NewAnisotropicQuantizer: no subvector widths and no codebooks until Train or Deserialize. */
    constructor (dim: int, numSubvectors: int, bitsPerCode: int)
      ensures this.dim == dim && this.numSubvectors == numSubvectors && this.bitsPerCode == bitsPerCode
      ensures subvectorDims == [] && codebooks == []
    {
      this.dim := dim;
      this.numSubvectors := numSubvectors;
      this.bitsPerCode := bitsPerCode;
      subvectorDims := [];
      codebooks := [];
    }

    /** The first m widths, the ones Encode, Decode and Serialize use. */
    function Dims(): (r: seq<nat>)
      reads this
      requires 0 <= numSubvectors <= |subvectorDims|
      ensures |r| == numSubvectors && r <= subvectorDims
      ensures numSubvectors == |subvectorDims| ==> r == subvectorDims
    {
      subvectorDims[..numSubvectors]
    }

    /** After Train's split the widths Encode uses add up to dim, so every slice lies inside the vector. */
    lemma TrainedDimsCover()
      requires dim >= 0 && numSubvectors > 0 && subvectorDims == SplitDims(dim, numSubvectors)
      ensures Sum(Dims()) == dim
    {
      SplitDimsSum(dim, numSubvectors);
    }

    /**
     * Train: rejects an empty training set and a first vector of another
     * dimension, splits the dimensions (SplitDims), then learns a codebook of
     * 1 << b codes per subvector into fresh codebooks. A zero or negative
     * subvector count panics in the division or in make, and so does a
     * training vector shorter than dim.
     */
    method Train(vectors: seq<seq<Word>>, kmeans: KMeans) returns (r: Outcome)
      requires |vectors| > 0 && |vectors[0]| == dim ==> numSubvectors > 0 && bitsPerCode >= 0 && AllAtLeast(vectors, dim)
      modifies this`subvectorDims, this`codebooks
      ensures |vectors| == 0 ==> r == Fail("no training data provided") && unchanged(this)
      ensures |vectors| > 0 && |vectors[0]| != dim ==> r == Fail("dimension mismatch") && unchanged(this)
      ensures |vectors| > 0 && |vectors[0]| == dim ==>
        subvectorDims == SplitDims(dim, numSubvectors) && |codebooks| == numSubvectors &&
        AllAtLeast(vectors, Sum(subvectorDims)) &&
        Trained(vectors, subvectorDims, Shl1(bitsPerCode), kmeans, seq(numSubvectors, _ => []), codebooks, r)
    {
      if |vectors| == 0 {
        return Fail("no training data provided");
      }
      if |vectors[0]| != dim {
        return Fail("dimension mismatch");
      }
      SplitSubvectors();
      SplitDimsSum(dim, numSubvectors);
      var numCodes := Shl1(bitsPerCode);
      r, codebooks := LearnCodebooks(vectors, subvectorDims, numCodes, kmeans, seq(numSubvectors, _ => []));
    }

    /** Train's first step: dim / m dimensions per subvector, one more for each of the first dim % m. */
    method SplitSubvectors()
      requires dim >= 0 && numSubvectors > 0
      modifies this`subvectorDims
      ensures subvectorDims == SplitDims(dim, numSubvectors)
    {
      subvectorDims := seq(numSubvectors, _ => 0);
      var baseDim := dim / numSubvectors;
      var remainder := dim % numSubvectors;
      for i := 0 to numSubvectors
        invariant |subvectorDims| == numSubvectors
        invariant forall k :: 0 <= k < i ==> subvectorDims[k] == SplitDims(dim, numSubvectors)[k]
      {
        subvectorDims := subvectorDims[i := baseDim];
        if i < remainder {
          subvectorDims := subvectorDims[i := subvectorDims[i] + 1];
        }
      }
    }

    /**
     * GetBytesPerVector: one byte per subvector, which is also the
     * denominator of GetCompressionRatio (CompressionRatio(dim, m)).
     */
    function BytesPerVector(): (r: int)
      reads this
      ensures 0 <= numSubvectors <= |subvectorDims| ==> r == |Dims()|
    {
      numSubvectors
    }

    /**
     * Encode: nothing for a vector of another dimension; otherwise one code
     * per subvector, the nearest centroid of its codebook under `dist`.
     * Widths adding up to more than dim make the slicing panic.
     */
    method Encode(vec: seq<Word>, dist: Distance) returns (r: Option<seq<byte>>)
      requires |vec| == dim ==>
        0 <= numSubvectors <= |subvectorDims| && numSubvectors <= |codebooks| && Sum(Dims()) <= dim
      ensures |vec| != dim ==> r == None
      ensures |vec| == dim ==> r.Some? && |r.value| == BytesPerVector()
      ensures |vec| == dim ==>
        r.Some? && forall s :: 0 <= s < numSubvectors ==> r.value[s] == EncodedAt(vec, codebooks, Dims(), dist, s)
    {
      if |vec| != dim {
        return None;
      }
      var codes := EncodeSubvectors(vec, codebooks, Dims(), dist);
      return Some(codes);
    }

    /**
     * Decode as written: nothing for a code count other than m; otherwise
     * dim dimensions where an invalid code is skipped without moving the
     * offset, so it does not keep its subvector's place.
     */
    method DecodeAsWritten(codes: seq<byte>) returns (r: Option<seq<Word>>)
      requires |codes| == numSubvectors ==>
        0 <= numSubvectors <= |subvectorDims| && numSubvectors <= |codebooks| && 0 <= Sum(Dims()) <= dim
      ensures |codes| != numSubvectors ==> r == None
      ensures |codes| == numSubvectors ==> r == Some(DecodedAsWritten(codebooks, codes, Dims(), dim))
    {
      if |codes| != numSubvectors {
        return None;
      }
      var vec := PackSegments(codebooks, codes, Dims(), dim);
      return Some(vec);
    }

    /**
     * Decode with the offset advanced past every subvector, valid code or
     * not: each centroid lands at its subvector's dimensions (DecodedAt).
     */
    method Decode(codes: seq<byte>) returns (r: Option<seq<Word>>)
      requires |codes| == numSubvectors ==>
        0 <= numSubvectors <= |subvectorDims| && numSubvectors <= |codebooks| && 0 <= Sum(Dims()) <= dim
      ensures |codes| != numSubvectors ==> r == None
      ensures |codes| == numSubvectors ==> r == Some(Decoded(codebooks, codes, Dims(), dim))
    {
      if |codes| != numSubvectors {
        return None;
      }
      var vec := PlaceSegments(codebooks, codes, Dims(), dim);
      return Some(vec);
    }

    /**
     * Serialize: the header words dim, m, b, then the m widths, then the
     * codebooks, into a buffer whose size is summed subvector by subvector.
     */
    method Serialize() returns (data: seq<byte>)
      requires 0 <= numSubvectors <= |subvectorDims| && bitsPerCode >= 0
      requires Covers(codebooks, Dims(), NumCodes(bitsPerCode))
      ensures data == Words([U32(dim), U32(numSubvectors), U32(bitsPerCode)] + DimWords(Dims()) +
        Layout(codebooks, Dims(), NumCodes(bitsPerCode)))
      ensures |data| == 12 + 4 * numSubvectors + 4 * Sum(Sizes(Dims(), NumCodes(bitsPerCode)))
    {
      var numCodes := NumCodes(bitsPerCode);
      var dims := Dims();
      ghost var sizes := Sizes(dims, numCodes);
      var headerSize := 12 + numSubvectors * 4;
      var codebookSize := 0;
      for sv := 0 to numSubvectors
        invariant codebookSize == 4 * Sum(sizes[..sv])
      {
        SumStep(sizes, sv);
        codebookSize := codebookSize + numCodes * subvectorDims[sv] * 4;
      }
      assert sizes[..numSubvectors] == sizes;
      LayoutLength(codebooks, dims, numCodes);
      var buf := new byte[headerSize + codebookSize];
      var header := [U32(dim), U32(numSubvectors), U32(bitsPerCode)] + DimWords(dims);
      var offset := WriteWords(buf, 0, header);
      offset := WriteCodebooks(buf, offset, codebooks, dims, numCodes);
      Appended([], header, Layout(codebooks, dims, numCodes));
      assert buf[..] == buf[..offset];
      data := buf[..];
    }

    /**
     * Deserialize as written: the widths are read with no check that the
     * data holds them, so data with room for fewer than m widths panics.
     */
    method DeserializeAsWritten(data: seq<byte>) returns (r: Outcome)
      requires |data| >= 12 ==> 12 + 4 * WordAt(data, 4) <= |data|
      requires |data| >= 12 && WordAt(data, 8) == 63 ==> WordAt(data, 4) == 0
      modifies this
      ensures |data| < 12 ==> r == Fail("data too short") && unchanged(this)
      ensures |data| >= 12 ==>
        dim == WordAt(data, 0) && numSubvectors == WordAt(data, 4) && bitsPerCode == WordAt(data, 8) &&
        subvectorDims == RowAt(data, 12, numSubvectors) &&
        codebooks == CodebooksAt(data, 12 + 4 * numSubvectors, subvectorDims, NumCodes(bitsPerCode)) &&
        (r.Pass? <==> 12 + 4 * numSubvectors + 4 * Sum(Sizes(subvectorDims, NumCodes(bitsPerCode))) <= |data|) &&
        (r.Fail? ==> r.error == "unexpected end of data")
    {
      if |data| < 12 {
        return Fail("data too short");
      }
      dim := WordAt(data, 0);
      numSubvectors := WordAt(data, 4);
      bitsPerCode := WordAt(data, 8);
      var numCodes := NumCodes(bitsPerCode);
      var dims, _ := ReadWords(data, 12, numSubvectors);
      subvectorDims := dims;
      var ok;
      codebooks, ok := ReadCodebooks(data, 12 + 4 * numSubvectors, subvectorDims, numCodes);
      if !ok {
        return Fail("unexpected end of data");
      }
      return Pass;
    }

    /**
     * Deserialize with the widths checked like the codebook words: data
     * that ends inside the widths is reported as ending early, and the
     * codebooks are then left as they were.
     */
    method Deserialize(data: seq<byte>) returns (r: Outcome)
      requires |data| >= 12 && WordAt(data, 8) == 63 ==> WordAt(data, 4) == 0
      modifies this
      ensures |data| < 12 ==> r == Fail("data too short") && unchanged(this)
      ensures |data| >= 12 ==>
        dim == WordAt(data, 0) && numSubvectors == WordAt(data, 4) && bitsPerCode == WordAt(data, 8) &&
        subvectorDims == RowAt(data, 12, numSubvectors)
      ensures |data| >= 12 && 12 + 4 * WordAt(data, 4) > |data| ==>
        r == Fail("unexpected end of data") && codebooks == old(codebooks)
      ensures |data| >= 12 && 12 + 4 * WordAt(data, 4) <= |data| ==>
        codebooks == CodebooksAt(data, 12 + 4 * numSubvectors, subvectorDims, NumCodes(bitsPerCode)) &&
        (r.Pass? <==> 12 + 4 * numSubvectors + 4 * Sum(Sizes(subvectorDims, NumCodes(bitsPerCode))) <= |data|) &&
        (r.Fail? ==> r.error == "unexpected end of data")
    {
      if |data| < 12 {
        return Fail("data too short");
      }
      dim := WordAt(data, 0);
      numSubvectors := WordAt(data, 4);
      bitsPerCode := WordAt(data, 8);
      var numCodes := NumCodes(bitsPerCode);
      var dims, dimsOk := ReadWords(data, 12, numSubvectors);
      subvectorDims := dims;
      if !dimsOk {
        return Fail("unexpected end of data");
      }
      var ok;
      codebooks, ok := ReadCodebooks(data, 12 + 4 * numSubvectors, subvectorDims, numCodes);
      if !ok {
        return Fail("unexpected end of data");
      }
      return Pass;
    }
  }

  /** The header and the widths read back from the front of the serialized words. */
  lemma HeaderRoundTrip(header: seq<Word>, layout: seq<Word>, dim: nat, dims: seq<nat>, b: nat)
    requires dim < 0x1_0000_0000 && |dims| < 0x1_0000_0000 && b < 0x1_0000_0000
    requires forall i :: 0 <= i < |dims| ==> dims[i] < 0x1_0000_0000
    requires header == [U32(dim), U32(|dims|), U32(b)] + DimWords(dims)
    ensures var data := Words(header + layout);
      |data| >= 12 + 4 * |dims| &&
      WordAt(data, 0) == dim && WordAt(data, 4) == |dims| && WordAt(data, 8) == b &&
      RowAt(data, 12, |dims|) == dims
  {
    var data := Words(header + layout);
    WordsFront(header, layout);
    var front := RowAt(data, 0, |header|);
    assert WordAt(data, 0) == front[0] && WordAt(data, 4) == front[1] && WordAt(data, 8) == front[2];
    forall j | 0 <= j < |dims|
      ensures RowAt(data, 12, |dims|)[j] == dims[j]
    {
      assert RowAt(data, 12, |dims|)[j] == front[3 + j] == header[3 + j];
    }
  }

  /**
   * Serialize then Deserialize: the header gives back dim, m and b, the
   * widths come back, the read does not run out, and the codebooks read are
   * the first 1 << b centroids of each codebook cut to its width.
   */
  lemma SerializeRoundTrip(cbs: Codebooks, dim: nat, dims: seq<nat>, b: nat)
    requires dim < 0x1_0000_0000 && |dims| < 0x1_0000_0000 && b < 63
    requires forall i :: 0 <= i < |dims| ==> dims[i] < 0x1_0000_0000
    requires Covers(cbs, dims, NumCodes(b))
    ensures var data := Words([U32(dim), U32(|dims|), U32(b)] + DimWords(dims) + Layout(cbs, dims, NumCodes(b)));
      |data| >= 12 + 4 * |dims| &&
      WordAt(data, 0) == dim && WordAt(data, 4) == |dims| && WordAt(data, 8) == b &&
      RowAt(data, 12, |dims|) == dims &&
      12 + 4 * |dims| + 4 * Sum(Sizes(dims, NumCodes(b))) <= |data| &&
      CodebooksAt(data, 12 + 4 * |dims|, dims, NumCodes(b)) == Trim(cbs, dims, NumCodes(b))
  {
    var n := NumCodes(b);
    var header := [U32(dim), U32(|dims|), U32(b)] + DimWords(dims);
    var layout := Layout(cbs, dims, n);
    var data := Words(header + layout);
    HeaderRoundTrip(header, layout, dim, dims, b);
    WordsAppend(header, layout);
    var prefix := Words(header);
    assert data == prefix + Words(layout);
    assert |prefix| == 12 + 4 * |dims|;
    CodebooksRoundTrip(prefix, cbs, dims, n);
  }

  /**
   * Saving one quantizer and loading the bytes into another gives the
   * second the first one's dim, m, b and widths, and its codebooks as read
   * back; codebooks of exactly the announced shape come back unchanged.
   */
  method SaveAndLoad(q: AnisotropicQuantizer, into: AnisotropicQuantizer) returns (r: Outcome)
    requires 0 <= q.dim < 0x1_0000_0000 && 0 <= q.numSubvectors <= |q.subvectorDims| && q.numSubvectors < 0x1_0000_0000
    requires 0 <= q.bitsPerCode < 63
    requires forall i :: 0 <= i < q.numSubvectors ==> q.subvectorDims[i] < 0x1_0000_0000
    requires Covers(q.codebooks, q.Dims(), NumCodes(q.bitsPerCode))
    requires q != into
    modifies into
    ensures r == Pass
    ensures into.dim == q.dim && into.numSubvectors == q.numSubvectors && into.bitsPerCode == q.bitsPerCode
    ensures into.subvectorDims == q.Dims()
    ensures into.codebooks == Trim(q.codebooks, q.Dims(), NumCodes(q.bitsPerCode))
    ensures Exact(q.codebooks, q.Dims(), NumCodes(q.bitsPerCode)) ==> into.codebooks == q.codebooks
  {
    var data := q.Serialize();
    ghost var dims, n, cbs := q.Dims(), NumCodes(q.bitsPerCode), q.codebooks;
    assert |dims| == q.numSubvectors;
    SerializeRoundTrip(cbs, q.dim, dims, q.bitsPerCode);
    assert WordAt(data, 4) == |dims| && WordAt(data, 8) == q.bitsPerCode;
    assert RowAt(data, 12, |dims|) == dims;
    assert CodebooksAt(data, 12 + 4 * |dims|, dims, n) == Trim(cbs, dims, n);
    r := into.Deserialize(data);
    assert q.Dims() == dims && q.codebooks == cbs;
    assert into.subvectorDims == dims && into.numSubvectors == |dims| && NumCodes(into.bitsPerCode) == n;
    assert into.codebooks == Trim(cbs, dims, n);
    if Exact(cbs, dims, n) {
      TrimExact(cbs, dims, n);
    }
  }

  /**
   * Twelve header bytes announcing one subvector and nothing after them:
   * the source's length check lets them through to the unchecked read of
   * the width, while the checked Deserialize reports the end of the data.
   */
  method ShortWidthsRejected(q: AnisotropicQuantizer) returns (r: Outcome)
    modifies q
    ensures r == Fail("unexpected end of data")
  {
    var data := Words([0, 1, 0]);
    WordAtWords([], [0, 1, 0], 1);
    WordAtWords([], [0, 1, 0], 2);
    assert |data| >= 12 && !(12 + 4 * WordAt(data, 4) <= |data|);
    r := q.Deserialize(data);
  }
}
