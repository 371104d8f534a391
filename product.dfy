// The product quantizer (internal/quantization/product.go): a vector of
// m * d dimensions is cut into m subvectors of d dimensions, each replaced
// by the number of its nearest centroid in a codebook of 1 << b centroids.
// The quantizer object keeps m, b, d and the codebooks and updates them in
// Train and Deserialize. The configuration (verbosity, distance metric and
// k-means settings) becomes the `kmeans` and `dist` parameters.
module ProductQuantization {
  import opened Wrappers
  import opened CodebookIO
  import opened CodebookOps
  import Strconv

  /** Sequences of one repeated width add up to that many widths. */
  lemma {:induction false} SumConst(s: seq<nat>, d: nat)
    requires forall i :: 0 <= i < |s| ==> s[i] == d
    ensures Sum(s) == Times(|s|, d)
    decreases |s|
  {
    if s != [] {
      SumConst(s[..|s| - 1], d);
      TimesStep(|s| - 1, d);
    }
  }

  /** The product quantizer's subvector widths: m times d. */
  function Uniform(m: nat, d: nat): (dims: seq<nat>)
    ensures |dims| == m && Sum(dims) == Times(m, d)
    ensures forall s :: 0 <= s < m ==> dims[s] == d && Sum(dims[..s]) == Times(s, d)
  {
    var dims := seq(m, _ => d);
    SumConst(dims, d);
    forall s | 0 <= s < m
      ensures Sum(dims[..s]) == Times(s, d)
    {
      SumConst(dims[..s], d);
    }
    dims
  }

  /** The header words: numSubvectors, bitsPerCode, subvectorDim, each as a uint32. */
  function Header(m: int, b: int, d: int): seq<Word>
  {
    [U32(m), U32(b), U32(d)]
  }

  /** The codebook bytes of GetMemoryUsage: m codebooks of 1 << b centroids of d float32s. */
  function CodebookBytes(m: nat, b: nat, d: nat): int
  {
    m * Shl1(b) * d * 4
  }

  lemma ProductAssoc(m: int, n: int, d: int)
    ensures m * n * d * 4 == 4 * (m * (n * d))
  {
  }

  /** The codebook section of m codebooks of n centroids of d words has m * n * d words. */
  lemma UniformSizes(m: nat, d: nat, n: nat)
    ensures Sum(Sizes(Uniform(m, d), n)) == Times(m, Times(n, d))
  {
    var sizes := Sizes(Uniform(m, d), n);
    SumConst(sizes, Times(n, d));
  }

  /** Serialize's codebook size m * n * d * 4 is four bytes per word of the codebook section. */
  lemma LayoutBytes(cbs: Codebooks, m: nat, d: nat, n: nat)
    requires Covers(cbs, Uniform(m, d), n)
    ensures m * n * d * 4 == 4 * |Layout(cbs, Uniform(m, d), n)|
  {
    LayoutLength(cbs, Uniform(m, d), n);
    UniformSizes(m, d, n);
    ProductAssoc(m, n, d);
  }

  /** The codebook bytes GetMemoryUsage reports are four per word of the serialized codebook section. */
  lemma CodebookBytesSerialized(cbs: Codebooks, m: nat, b: nat, d: nat)
    requires b < 63 && Covers(cbs, Uniform(m, d), NumCodes(b))
    ensures CodebookBytes(m, b, d) == 4 * |Layout(cbs, Uniform(m, d), NumCodes(b))|
  {
    LayoutBytes(cbs, m, d, NumCodes(b));
  }

  /**
   * Serialize then Deserialize: the header gives back m, b and d, the read
   * does not run out, and the codebooks read are the first 1 << b centroids
   * of each codebook cut to d words (the codebooks themselves when they
   * have exactly that shape, TrimExact).
   */
  lemma SerializeRoundTrip(cbs: Codebooks, m: nat, b: nat, d: nat)
    requires m < 0x1_0000_0000 && b < 63 && d < 0x1_0000_0000
    requires Covers(cbs, Uniform(m, d), NumCodes(b))
    ensures var data := Words(Header(m, b, d) + Layout(cbs, Uniform(m, d), NumCodes(b)));
      |data| >= 12 && WordAt(data, 0) == m && WordAt(data, 4) == b && WordAt(data, 8) == d &&
      12 + 4 * Times(m, Times(NumCodes(b), d)) <= |data| &&
      CodebooksAt(data, 12, Uniform(m, d), NumCodes(b)) == Trim(cbs, Uniform(m, d), NumCodes(b))
  {
    var dims := Uniform(m, d);
    var n := NumCodes(b);
    var header := Header(m, b, d);
    var layout := Layout(cbs, dims, n);
    var data := Words(header + layout);
    WordsAppend(header, layout);
    WordsFront(header, layout);
    var front := RowAt(data, 0, 3);
    assert WordAt(data, 0) == front[0] && WordAt(data, 4) == front[1] && WordAt(data, 8) == front[2];
    CodebooksRoundTrip(Words(header), cbs, dims, n);
    UniformSizes(m, d, n);
  }

  /** The error Train reports when the vector length is not a multiple of m. */
  function NotDivisible(dimensions: nat, m: nat): string
  {
    "dimensions (" + Strconv.NatToString(dimensions) + ") must be divisible by numSubvectors (" +
    Strconv.NatToString(m) + ")"
  }

  class ProductQuantizer {
    var numSubvectors: nat
    var bitsPerCode: int
    var subvectorDim: nat
    var codebooks: Codebooks

    /** One codebook per subvector. */
    ghost predicate Valid()
      reads this
    {
      |codebooks| == numSubvectors
    }

    /** NewProductQuantizer: m empty codebooks and no subvector width yet; make panics on a negative m. */
    constructor (numSubvectors: nat, bitsPerCode: int)
      ensures Valid()
      ensures this.numSubvectors == numSubvectors && this.bitsPerCode == bitsPerCode
      ensures subvectorDim == 0 && codebooks == seq(numSubvectors, _ => [])
    {
      this.numSubvectors := numSubvectors;
      this.bitsPerCode := bitsPerCode;
      subvectorDim := 0;
      codebooks := seq(numSubvectors, _ => []);
    }

    /**
     * Train: rejects an empty training set and a dimension that is not a
     * multiple of m, then sets the subvector width to dimension / m and
     * learns one codebook of 1 << b codes per subvector. The loop is
     * LearnCodebooks, whose running offset is sv * subvectorDim here.
     * A remainder modulo zero panics, and so does slicing a training
     * vector shorter than the first.
     */
    method Train(vectors: seq<seq<Word>>, kmeans: KMeans) returns (r: Outcome)
      requires Valid()
      requires |vectors| > 0 ==> numSubvectors > 0
      requires |vectors| > 0 && numSubvectors > 0 && |vectors[0]| % numSubvectors == 0 ==>
        bitsPerCode >= 0 && AllAtLeast(vectors, |vectors[0]|)
      modifies this`subvectorDim, this`codebooks
      ensures Valid()
      ensures |vectors| == 0 ==> r == Fail("no training data provided") && unchanged(this)
      ensures |vectors| > 0 && |vectors[0]| % numSubvectors != 0 ==>
        r == Fail(NotDivisible(|vectors[0]|, numSubvectors)) && unchanged(this)
      ensures |vectors| > 0 && |vectors[0]| % numSubvectors == 0 ==>
        subvectorDim == |vectors[0]| / numSubvectors &&
        AllAtLeast(vectors, Sum(Uniform(numSubvectors, subvectorDim))) &&
        Trained(vectors, Uniform(numSubvectors, subvectorDim), Shl1(bitsPerCode), kmeans, old(codebooks), codebooks, r)
    {
      if |vectors| == 0 {
        return Fail("no training data provided");
      }
      var dimensions := |vectors[0]|;
      if dimensions % numSubvectors != 0 {
        return Fail(NotDivisible(dimensions, numSubvectors));
      }
      subvectorDim := dimensions / numSubvectors;
      var numCodes := Shl1(bitsPerCode);
      assert Times(numSubvectors, subvectorDim) == dimensions;
      r, codebooks := LearnCodebooks(vectors, Uniform(numSubvectors, subvectorDim), numCodes, kmeans, codebooks);
    }

    /**
     * Encode: code s is the nearest centroid of codebook s to dimensions
     * [s * d, (s + 1) * d) of the vector, ties going to the lower code.
     * Slicing past the end of a shorter vector panics.
     */
    method Encode(vector: seq<Word>, dist: Distance) returns (codes: seq<byte>)
      requires Valid() && Times(numSubvectors, subvectorDim) <= |vector|
      ensures |codes| == numSubvectors
      ensures forall s :: 0 <= s < numSubvectors ==>
        codes[s] == EncodedAt(vector, codebooks, Uniform(numSubvectors, subvectorDim), dist, s)
    {
      codes := EncodeSubvectors(vector, codebooks, Uniform(numSubvectors, subvectorDim), dist);
    }

    /**
     * Decode: nothing for a code count other than m; otherwise m * d
     * dimensions with each valid code's centroid copied to its subvector
     * and zeros where a code has no centroid (DecodedAt).
     */
    method Decode(codes: seq<byte>) returns (r: Option<seq<Word>>)
      requires Valid()
      ensures |codes| != numSubvectors ==> r == None
      ensures |codes| == numSubvectors ==>
        r == Some(Decoded(codebooks, codes, Uniform(numSubvectors, subvectorDim), Times(numSubvectors, subvectorDim)))
    {
      if |codes| != numSubvectors {
        return None;
      }
      var vector := PlaceSegments(codebooks, codes, Uniform(numSubvectors, subvectorDim), numSubvectors * subvectorDim);
      return Some(vector);
    }

    /** GetMemoryUsage: the codebook bytes and one byte per subvector for each encoded vector. */
    function MemoryUsage(): (r: (int, nat))
      reads this
      requires bitsPerCode >= 0
      ensures bitsPerCode < 63 ==>
        r.0 == 4 * Sum(Sizes(Uniform(numSubvectors, subvectorDim), NumCodes(bitsPerCode)))
      ensures r.1 == numSubvectors
    {
      var n := Shl1(bitsPerCode);
      if bitsPerCode < 63 then
        UniformSizes(numSubvectors, subvectorDim, n);
        ProductAssoc(numSubvectors, n, subvectorDim);
        (CodebookBytes(numSubvectors, bitsPerCode, subvectorDim), numSubvectors)
      else (CodebookBytes(numSubvectors, bitsPerCode, subvectorDim), numSubvectors)
    }

    /**
     * Serialize: the header words, then every codebook's first 1 << b
     * centroids word by word, each word one PutUint32 at the moving offset, into a buffer of 12 bytes plus the codebook
     * bytes of GetMemoryUsage. A negative shift panics, and so does a
     * codebook with fewer centroids or shorter centroids than the header
     * announces.
     */
    method Serialize() returns (data: seq<byte>)
      requires bitsPerCode >= 0 && Covers(codebooks, Uniform(numSubvectors, subvectorDim), NumCodes(bitsPerCode))
      ensures data == Words(Header(numSubvectors, bitsPerCode, subvectorDim) +
        Layout(codebooks, Uniform(numSubvectors, subvectorDim), NumCodes(bitsPerCode)))
      ensures bitsPerCode < 63 ==> |data| == 12 + MemoryUsage().0
    {
      var n := NumCodes(bitsPerCode);
      var dims := Uniform(numSubvectors, subvectorDim);
      ghost var layout := Layout(codebooks, dims, n);
      LayoutBytes(codebooks, numSubvectors, subvectorDim, n);
      var buf := new byte[12 + numSubvectors * n * subvectorDim * 4];
      var header := Header(numSubvectors, bitsPerCode, subvectorDim);
      var offset := WriteWords(buf, 0, header);
      offset := WriteCodebooks(buf, offset, codebooks, dims, n);
      Appended([], header, layout);
      assert buf[..] == buf[..offset];
      data := buf[..];
      if bitsPerCode < 63 {
        CodebookBytesSerialized(codebooks, numSubvectors, bitsPerCode, subvectorDim);
      }
    }

    /**
     * Deserialize: rejects fewer than 12 bytes; otherwise takes m, b and d
     * from the header and reads the codebooks after it, reporting when the
     * data ends before the last word. make panics on the negative code
     * count of b = 63 once there is a codebook to make.
     */
    method Deserialize(data: seq<byte>) returns (r: Outcome)
      requires Valid()
      requires |data| >= 12 && WordAt(data, 4) == 63 ==> WordAt(data, 0) == 0
      modifies this
      ensures Valid()
      ensures |data| < 12 ==> r == Fail("data too short") && unchanged(this)
      ensures |data| >= 12 ==>
        numSubvectors == WordAt(data, 0) && bitsPerCode == WordAt(data, 4) && subvectorDim == WordAt(data, 8) &&
        codebooks == CodebooksAt(data, 12, Uniform(numSubvectors, subvectorDim), NumCodes(bitsPerCode)) &&
        (r.Pass? <==> 12 + 4 * Times(numSubvectors, Times(NumCodes(bitsPerCode), subvectorDim)) <= |data|) &&
        (r.Fail? ==> r.error == "unexpected end of data")
    {
      if |data| < 12 {
        return Fail("data too short");
      }
      numSubvectors := WordAt(data, 0);
      bitsPerCode := WordAt(data, 4);
      subvectorDim := WordAt(data, 8);
      var numCodes := NumCodes(bitsPerCode);
      var ok;
      codebooks, ok := ReadCodebooks(data, 12, Uniform(numSubvectors, subvectorDim), numCodes);
      UniformSizes(numSubvectors, subvectorDim, numCodes);
      if !ok {
        return Fail("unexpected end of data");
      }
      return Pass;
    }
  }

  /**
   * Saving one quantizer and loading the bytes into another gives the
   * second the first one's m, b and d and its codebooks as read back;
   * codebooks of exactly 1 << b centroids of d words come back unchanged,
   * so both quantizers encode every vector alike.
   */
  method SaveAndLoad(q: ProductQuantizer, into: ProductQuantizer) returns (r: Outcome)
    requires q.numSubvectors < 0x1_0000_0000 && 0 <= q.bitsPerCode < 63 && q.subvectorDim < 0x1_0000_0000
    requires Covers(q.codebooks, Uniform(q.numSubvectors, q.subvectorDim), NumCodes(q.bitsPerCode))
    requires q != into && into.Valid()
    modifies into
    ensures r == Pass
    ensures into.numSubvectors == q.numSubvectors && into.bitsPerCode == q.bitsPerCode && into.subvectorDim == q.subvectorDim
    ensures into.codebooks == Trim(q.codebooks, Uniform(q.numSubvectors, q.subvectorDim), NumCodes(q.bitsPerCode))
    ensures Exact(q.codebooks, Uniform(q.numSubvectors, q.subvectorDim), NumCodes(q.bitsPerCode)) ==>
      into.codebooks == q.codebooks
  {
    var data := q.Serialize();
    SerializeRoundTrip(q.codebooks, q.numSubvectors, q.bitsPerCode, q.subvectorDim);
    r := into.Deserialize(data);
    if Exact(q.codebooks, Uniform(q.numSubvectors, q.subvectorDim), NumCodes(q.bitsPerCode)) {
      TrimExact(q.codebooks, Uniform(q.numSubvectors, q.subvectorDim), NumCodes(q.bitsPerCode));
    }
  }
}
