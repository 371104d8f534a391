// Training, encoding and decoding steps shared by the product quantizer
// (internal/quantization/product.go) and the anisotropic quantizer
// (pkg/scann/anisotropic.go). Subvector s covers dims[s] dimensions starting
// at Sum(dims[..s]); the product quantizer's subvectors all have the same
// width, the anisotropic quantizer's may differ by one. k-means and the
// distance functions are float computations and enter as parameters.
module CodebookOps {
  import opened Wrappers
  import opened CodebookIO
  import Strconv

  /** KMeansPlusPlus: training subvectors and a number of codes to a codebook, or an error message. */
  type KMeans = (seq<seq<Word>>, int) -> Result<Codebook>

  /** A distance between a subvector and a centroid. */
  type Distance = (seq<Word>, seq<Word>) -> real

  /** math.MaxFloat32, where the nearest-centroid scan starts. */
  const MaxFloat32: real := 340282346638528859811704183484516925440.0

  /** Subvector s ends within the first Sum(dims) dimensions. */
  lemma SubvectorFits(dims: seq<nat>, s: nat)
    requires s < |dims|
    ensures Sum(dims[..s]) + dims[s] == Sum(dims[..s + 1]) <= Sum(dims)
  {
    SumStep(dims, s);
    SumMono(dims, s + 1, |dims|);
    assert dims[..|dims|] == dims;
  }

  // Training.

  ghost predicate AllAtLeast(vectors: seq<seq<Word>>, len: nat)
  {
    forall i :: 0 <= i < |vectors| ==> |vectors[i]| >= len
  }

  /** The training subvectors: dimensions [start, start + width) of every vector. */
  function Slices(vectors: seq<seq<Word>>, start: nat, width: nat): (r: seq<seq<Word>>)
    requires AllAtLeast(vectors, start + width)
    ensures |r| == |vectors|
  {
    seq(|vectors|, i requires 0 <= i < |vectors| => vectors[i][start..start + width])
  }

  /** Copies dimensions [start, start + width) of every training vector into a new row each. */
  method ExtractSubvectors(vectors: seq<seq<Word>>, start: nat, width: nat) returns (sub: seq<seq<Word>>)
    requires AllAtLeast(vectors, start + width)
    ensures sub == Slices(vectors, start, width)
    ensures forall i :: 0 <= i < |vectors| ==> |sub[i]| == width && forall j :: 0 <= j < width ==> sub[i][j] == vectors[i][start + j]
  {
    sub := seq(|vectors|, _ => []);
    for i := 0 to |vectors|
      invariant |sub| == |vectors|
      invariant forall k :: 0 <= k < i ==> sub[k] == vectors[k][start..start + width]
    {
      sub := sub[i := vectors[i][start..start + width]];
    }
  }

  /** What k-means gives for subvector s. */
  function Learned(vectors: seq<seq<Word>>, dims: seq<nat>, numCodes: int, kmeans: KMeans, s: nat): Result<Codebook>
    requires s < |dims| && AllAtLeast(vectors, Sum(dims))
  {
    SubvectorFits(dims, s);
    kmeans(Slices(vectors, Sum(dims[..s]), dims[s]), numCodes)
  }

  /** Subvectors 0 .. k-1 trained without error, and cbs holds their codebooks. */
  ghost predicate LearnedUpTo(vectors: seq<seq<Word>>, dims: seq<nat>, numCodes: int, kmeans: KMeans, cbs: Codebooks, k: nat)
    requires k <= |dims| <= |cbs| && AllAtLeast(vectors, Sum(dims))
  {
    forall s :: 0 <= s < k ==> Learned(vectors, dims, numCodes, kmeans, s).Ok? && cbs[s] == Learned(vectors, dims, numCodes, kmeans, s).value
  }

  /**
   * Training stopped at subvector k: the ones before it are learned, k-means
   * failed on k with the error reported, and k and the later codebooks are
   * those of `start`.
   */
  ghost predicate FailedAt(vectors: seq<seq<Word>>, dims: seq<nat>, numCodes: int, kmeans: KMeans, start: Codebooks, cbs: Codebooks, k: nat, error: string)
    requires |start| == |dims| == |cbs| && AllAtLeast(vectors, Sum(dims))
  {
    k < |dims| && LearnedUpTo(vectors, dims, numCodes, kmeans, cbs, k) &&
    Learned(vectors, dims, numCodes, kmeans, k).Err? &&
    error == KMeansFailed(k, Learned(vectors, dims, numCodes, kmeans, k).error) &&
    cbs[k..] == start[k..]
  }

  /**
   * The outcome of training from `start`: success exactly when k-means
   * succeeds on every subvector, with all codebooks learned; otherwise the
   * first failure is reported as in FailedAt.
   */
  ghost predicate Trained(vectors: seq<seq<Word>>, dims: seq<nat>, numCodes: int, kmeans: KMeans, start: Codebooks, cbs: Codebooks, r: Outcome)
    requires |start| == |dims| == |cbs| && AllAtLeast(vectors, Sum(dims))
  {
    (r.Pass? <==> forall s :: 0 <= s < |dims| ==> Learned(vectors, dims, numCodes, kmeans, s).Ok?) &&
    (r.Pass? ==> LearnedUpTo(vectors, dims, numCodes, kmeans, cbs, |dims|)) &&
    (r.Fail? ==> exists k :: FailedAt(vectors, dims, numCodes, kmeans, start, cbs, k, r.error))
  }

  /** The error Train reports when k-means fails on subvector s. */
  function KMeansFailed(s: nat, e: string): string
  {
    "k-means failed for subvector " + Strconv.NatToString(s) + ": " + e
  }

  /**
   * The training loop: k-means on each subvector in turn, storing its
   * codebook; the first failure ends the loop with that subvector's number
   * and leaves it and the later codebooks as they were in `start`.
   */
  method LearnCodebooks(vectors: seq<seq<Word>>, dims: seq<nat>, numCodes: int, kmeans: KMeans, start: Codebooks)
    returns (r: Outcome, cbs: Codebooks)
    requires |start| == |dims| && AllAtLeast(vectors, Sum(dims))
    ensures |cbs| == |dims|
    ensures Trained(vectors, dims, numCodes, kmeans, start, cbs, r)
  {
    cbs := start;
    var offset := 0;
    for s := 0 to |dims|
      invariant |cbs| == |dims| && offset == Sum(dims[..s])
      invariant LearnedUpTo(vectors, dims, numCodes, kmeans, cbs, s)
      invariant cbs[s..] == start[s..]
    {
      SubvectorFits(dims, s);
      var sub := ExtractSubvectors(vectors, offset, dims[s]);
      var res := kmeans(sub, numCodes);
      assert res == Learned(vectors, dims, numCodes, kmeans, s);
      if res.Err? {
        r := Fail(KMeansFailed(s, res.error));
        assert FailedAt(vectors, dims, numCodes, kmeans, start, cbs, s, r.error);
        return;
      }
      ghost var before := cbs;
      cbs := cbs[s := res.value];
      assert cbs[s + 1..] == before[s + 1..] == before[s..][1..];
      offset := offset + dims[s];
    }
    r := Pass;
  }

  // Encoding.

  /**
   * The running minimum of the scan over the distances: the first code
   * whose distance is strictly below every earlier one and MaxFloat32,
   * with that distance; (0, MaxFloat32) when there is none.
   */
  function Scan(ds: seq<real>): (nat, real)
  {
    if ds == [] then (0, MaxFloat32)
    else
      var p := Scan(ds[..|ds| - 1]);
      if ds[|ds| - 1] < p.1 then (|ds| - 1, ds[|ds| - 1]) else p
  }

  /** The scan ends on the first least distance, or on code 0 when no distance is below MaxFloat32. */
  lemma {:induction false} ScanMinimal(ds: seq<real>)
    ensures Scan(ds).1 <= MaxFloat32
    ensures forall i :: 0 <= i < |ds| ==> Scan(ds).1 <= ds[i]
    ensures Scan(ds).1 < MaxFloat32 ==> Scan(ds).0 < |ds| && ds[Scan(ds).0] == Scan(ds).1
    ensures Scan(ds).1 == MaxFloat32 ==> Scan(ds).0 == 0
    ensures forall i :: 0 <= i < Scan(ds).0 ==> Scan(ds).1 < ds[i]
  {
    if ds != [] {
      var front := ds[..|ds| - 1];
      ScanMinimal(front);
      assert forall i :: 0 <= i < |front| ==> ds[i] == front[i];
    }
  }

  function Distances(sub: seq<Word>, cb: Codebook, dist: Distance): (ds: seq<real>)
    ensures |ds| == |cb|
  {
    seq(|cb|, c requires 0 <= c < |cb| => dist(sub, cb[c]))
  }

  /** The scan over a codebook keeping the nearest centroid so far; ties keep the earlier code. */
  method NearestCode(sub: seq<Word>, cb: Codebook, dist: Distance) returns (code: nat)
    ensures code == Scan(Distances(sub, cb, dist)).0
  {
    ghost var ds := Distances(sub, cb, dist);
    var minDist := MaxFloat32;
    code := 0;
    for c := 0 to |cb|
      invariant (code, minDist) == Scan(ds[..c])
    {
      assert ds[..c + 1][..c] == ds[..c];
      var d := dist(sub, cb[c]);
      if d < minDist {
        minDist := d;
        code := c;
      }
    }
    assert ds[..|cb|] == ds;
  }

  /** byte(minCode): Go keeps the low eight bits. */
  function CodeByte(code: nat): byte
  {
    (code % 256) as byte
  }

  /** Code s of an encoding: the nearest centroid of codebook s to subvector s, as a byte. */
  function EncodedAt(vector: seq<Word>, cbs: Codebooks, dims: seq<nat>, dist: Distance, s: nat): byte
    requires s < |dims| <= |cbs| && Sum(dims) <= |vector|
  {
    SubvectorFits(dims, s);
    CodeByte(Scan(Distances(vector[Sum(dims[..s])..Sum(dims[..s]) + dims[s]], cbs[s], dist)).0)
  }

  /** Encode's loop: one code per subvector. */
  method EncodeSubvectors(vector: seq<Word>, cbs: Codebooks, dims: seq<nat>, dist: Distance) returns (codes: seq<byte>)
    requires |dims| <= |cbs| && Sum(dims) <= |vector|
    ensures |codes| == |dims|
    ensures forall s :: 0 <= s < |dims| ==> codes[s] == EncodedAt(vector, cbs, dims, dist, s)
  {
    codes := seq(|dims|, _ => 0);
    var offset := 0;
    for s := 0 to |dims|
      invariant |codes| == |dims| && offset == Sum(dims[..s])
      invariant forall i :: 0 <= i < s ==> codes[i] == EncodedAt(vector, cbs, dims, dist, i)
    {
      SubvectorFits(dims, s);
      var code := NearestCode(vector[offset..offset + dims[s]], cbs[s], dist);
      codes := codes[s := CodeByte(code)];
      offset := offset + dims[s];
    }
  }

  // Decoding.

  function Zeros(n: nat): (z: seq<Word>)
    ensures |z| == n && forall i :: 0 <= i < n ==> z[i] == 0
  {
    seq(n, _ => 0)
  }

  /** Go's copy(dst, src): the first min(|dst|, |src|) words of src over dst. */
  function Overlay(dst: seq<Word>, src: seq<Word>): (r: seq<Word>)
    ensures |r| == |dst|
  {
    seq(|dst|, i requires 0 <= i < |dst| => if i < |src| then src[i] else dst[i])
  }

  /** copy(vec[off:off+w], src) on the whole vector. */
  function CopyInto(vec: seq<Word>, off: nat, src: seq<Word>, w: nat): seq<Word>
    requires off + w <= |vec|
  {
    vec[..off] + Overlay(vec[off..off + w], src) + vec[off + w..]
  }

  /** The w dimensions code `code` decodes to: its centroid over zeros, or zeros for a code with no centroid. */
  function Segment(cb: Codebook, code: byte, w: nat): (seg: seq<Word>)
    ensures |seg| == w
  {
    if code as int < |cb| then Overlay(Zeros(w), cb[code]) else Zeros(w)
  }

  function Segments(cbs: Codebooks, codes: seq<byte>, dims: seq<nat>): (segs: seq<seq<Word>>)
    requires |cbs| >= |dims| && |codes| >= |dims|
    ensures |segs| == |dims| && forall s :: 0 <= s < |dims| ==> |segs[s]| == dims[s]
  {
    seq(|dims|, s requires 0 <= s < |dims| => Segment(cbs[s], codes[s], dims[s]))
  }

  /** A decoded vector of `total` dimensions: each subvector's segment in place, zeros after the last. */
  function Decoded(cbs: Codebooks, codes: seq<byte>, dims: seq<nat>, total: nat): (vec: seq<Word>)
    requires |cbs| >= |dims| && |codes| >= |dims| && Sum(dims) <= total
    ensures |vec| == total
  {
    SegmentsLength(cbs, codes, dims);
    Join(Segments(cbs, codes, dims)) + Zeros(total - Sum(dims))
  }

  /** Rows of the given widths join to the sum of the widths. */
  lemma {:induction false} JoinWidths(parts: seq<seq<Word>>, widths: seq<nat>, k: nat)
    requires |parts| == |widths| && k <= |parts|
    requires forall i :: 0 <= i < |parts| ==> |parts[i]| == widths[i]
    ensures |Join(parts[..k])| == Sum(widths[..k])
    decreases k
  {
    if k > 0 {
      JoinWidths(parts, widths, k - 1);
      JoinStep(parts, k - 1);
      SumStep(widths, k - 1);
    }
  }

  /** The segments before subvector s fill exactly its offset. */
  lemma SegmentsBefore(cbs: Codebooks, codes: seq<byte>, dims: seq<nat>, s: nat)
    requires |cbs| >= |dims| && |codes| >= |dims| && s <= |dims|
    ensures |Join(Segments(cbs, codes, dims)[..s])| == Sum(dims[..s])
  {
    JoinWidths(Segments(cbs, codes, dims), dims, s);
  }

  lemma SegmentsLength(cbs: Codebooks, codes: seq<byte>, dims: seq<nat>)
    requires |cbs| >= |dims| && |codes| >= |dims|
    ensures |Join(Segments(cbs, codes, dims))| == Sum(dims)
  {
    SegmentsBefore(cbs, codes, dims, |dims|);
    assert Segments(cbs, codes, dims)[..|dims|] == Segments(cbs, codes, dims) && dims[..|dims|] == dims;
  }

  lemma SegmentAt(cb: Codebook, code: byte, w: nat, j: nat)
    requires j < w
    ensures Segment(cb, code, w)[j] == if code as int < |cb| && j < |cb[code]| then cb[code][j] else 0
  {
  }

  /** Below Sum(dims) the decoded vector is the joined segments. */
  lemma DecodedFront(cbs: Codebooks, codes: seq<byte>, dims: seq<nat>, total: nat, p: nat)
    requires |cbs| >= |dims| && |codes| >= |dims| && Sum(dims) <= total && p < Sum(dims)
    ensures p < |Join(Segments(cbs, codes, dims))|
    ensures Decoded(cbs, codes, dims, total)[p] == Join(Segments(cbs, codes, dims))[p]
  {
    SegmentsLength(cbs, codes, dims);
  }

  /** Word j of subvector s sits at its offset plus j in the joined segments. */
  lemma JoinedAt(cbs: Codebooks, codes: seq<byte>, dims: seq<nat>, s: nat, j: nat)
    requires |cbs| >= |dims| && |codes| >= |dims| && s < |dims| && j < dims[s]
    ensures Sum(dims[..s]) + j < Sum(dims) && Sum(dims[..s]) + j < |Join(Segments(cbs, codes, dims))|
    ensures Join(Segments(cbs, codes, dims))[Sum(dims[..s]) + j] == Segment(cbs[s], codes[s], dims[s])[j]
  {
    JoinAtWidths(Segments(cbs, codes, dims), dims, s, j);
  }

  /** In rows of the given widths, word j of row s sits at the widths before it plus j. */
  lemma JoinAtWidths(parts: seq<seq<Word>>, widths: seq<nat>, s: nat, j: nat)
    requires |parts| == |widths| && s < |parts| && j < widths[s]
    requires forall i :: 0 <= i < |parts| ==> |parts[i]| == widths[i]
    ensures Sum(widths[..s]) + j < Sum(widths) && Sum(widths[..s]) + j < |Join(parts)|
    ensures Join(parts)[Sum(widths[..s]) + j] == parts[s][j]
  {
    JoinWidths(parts, widths, s);
    JoinWidths(parts, widths, |parts|);
    assert parts[..|parts|] == parts && widths[..|widths|] == widths;
    SubvectorFits(widths, s);
    JoinIndex(parts, s, j);
  }

  /**
   * Decoding places word j of the centroid for codes[s] at dimension
   * Sum(dims[..s]) + j; a missing centroid, or one shorter than its
   * subvector, leaves zeros there.
   */
  lemma DecodedAt(cbs: Codebooks, codes: seq<byte>, dims: seq<nat>, total: nat, s: nat, j: nat)
    requires |cbs| >= |dims| && |codes| >= |dims| && Sum(dims) <= total
    requires s < |dims| && j < dims[s]
    ensures Sum(dims[..s]) + j < total
    ensures Decoded(cbs, codes, dims, total)[Sum(dims[..s]) + j] ==
      if codes[s] as int < |cbs[s]| && j < |cbs[s][codes[s]]| then cbs[s][codes[s]][j] else 0
  {
    JoinedAt(cbs, codes, dims, s, j);
    DecodedFront(cbs, codes, dims, total, Sum(dims[..s]) + j);
    SegmentAt(cbs[s], codes[s], dims[s], j);
  }

  /** The dimensions after the last subvector decode to zero. */
  lemma DecodedTail(cbs: Codebooks, codes: seq<byte>, dims: seq<nat>, total: nat, p: nat)
    requires |cbs| >= |dims| && |codes| >= |dims| && Sum(dims) <= p < total
    ensures Decoded(cbs, codes, dims, total)[p] == 0
  {
    SegmentsLength(cbs, codes, dims);
  }

  /** One pass of Decode's loop body: copy the centroid in when the code has one, else leave the vector. */
  function Step(vec: seq<Word>, off: nat, cb: Codebook, code: byte, w: nat): seq<Word>
    requires off + w <= |vec|
  {
    if code as int < |cb| then CopyInto(vec, off, cb[code], w) else vec
  }

  /** After the segments so far and zeros, a step puts the next segment in front of the zeros. */
  lemma PlaceStep(done: seq<Word>, rest: nat, cb: Codebook, code: byte, w: nat, next: seq<Word>, after: nat)
    requires w <= rest && next == done + Segment(cb, code, w) && after == rest - w
    ensures Step(done + Zeros(rest), |done|, cb, code, w) == next + Zeros(after)
  {
    var v := done + Zeros(rest);
    assert v[..|done|] == done;
    assert v[|done|..|done| + w] == Zeros(w);
    assert v[|done| + w..] == Zeros(after);
    assert Zeros(rest) == Zeros(w) + Zeros(after);
  }

  /** The vector after s passes of Decode's loop: the first s segments, then zeros. */
  ghost function Placed(cbs: Codebooks, codes: seq<byte>, dims: seq<nat>, total: nat, s: nat): seq<Word>
    requires |cbs| >= |dims| && |codes| >= |dims| && s <= |dims| && Sum(dims[..s]) <= total
  {
    Prefix(Segments(cbs, codes, dims), dims, total, s)
  }

  /** The first s rows joined, then zeros up to `total` words. */
  ghost function Prefix(segs: seq<seq<Word>>, dims: seq<nat>, total: nat, s: nat): seq<Word>
    requires s <= |segs| && s <= |dims| && Sum(dims[..s]) <= total
  {
    Join(segs[..s]) + Zeros(total - Sum(dims[..s]))
  }

  /** Pass s of Decode's loop takes the vector after s passes to the vector after s + 1. */
  lemma PlaceNext(cbs: Codebooks, codes: seq<byte>, dims: seq<nat>, total: nat, s: nat, vec: seq<Word>)
    requires |cbs| >= |dims| && |codes| >= |dims| && Sum(dims) <= total && s < |dims|
    requires Sum(dims[..s]) <= total && vec == Placed(cbs, codes, dims, total, s)
    ensures Sum(dims[..s + 1]) == Sum(dims[..s]) + dims[s] <= Sum(dims)
    ensures |vec| == total
    ensures Step(vec, Sum(dims[..s]), cbs[s], codes[s], dims[s]) == Placed(cbs, codes, dims, total, s + 1)
  {
    PrefixNext(Segments(cbs, codes, dims), dims, total, s, cbs[s], codes[s]);
  }

  /** The same step over any rows of the given widths whose row s is that segment. */
  lemma PrefixNext(segs: seq<seq<Word>>, dims: seq<nat>, total: nat, s: nat, cb: Codebook, code: byte)
    requires |segs| == |dims| && s < |dims| && Sum(dims) <= total && Sum(dims[..s]) <= total
    requires forall i :: 0 <= i < |segs| ==> |segs[i]| == dims[i]
    requires segs[s] == Segment(cb, code, dims[s])
    ensures Sum(dims[..s + 1]) == Sum(dims[..s]) + dims[s] <= Sum(dims)
    ensures |Prefix(segs, dims, total, s)| == total
    ensures Step(Prefix(segs, dims, total, s), Sum(dims[..s]), cb, code, dims[s]) == Prefix(segs, dims, total, s + 1)
  {
    JoinNext(segs, dims, s);
    var done, next := Join(segs[..s]), Join(segs[..s + 1]);
    var rest, after := total - Sum(dims[..s]), total - Sum(dims[..s + 1]);
    assert Prefix(segs, dims, total, s) == done + Zeros(rest);
    PlaceStep(done, rest, cb, code, dims[s], next, after);
    assert Prefix(segs, dims, total, s + 1) == next + Zeros(after);
  }

  /** Rows of the given widths: the first s join to the widths before row s, and row s extends them. */
  lemma JoinNext(parts: seq<seq<Word>>, widths: seq<nat>, s: nat)
    requires |parts| == |widths| && s < |parts|
    requires forall i :: 0 <= i < |parts| ==> |parts[i]| == widths[i]
    ensures Sum(widths[..s + 1]) == Sum(widths[..s]) + widths[s] <= Sum(widths)
    ensures |Join(parts[..s])| == Sum(widths[..s])
    ensures Join(parts[..s + 1]) == Join(parts[..s]) + parts[s]
  {
    SubvectorFits(widths, s);
    JoinWidths(parts, widths, s);
    JoinStep(parts, s);
  }

  lemma PlacedNone(cbs: Codebooks, codes: seq<byte>, dims: seq<nat>, total: nat)
    requires |cbs| >= |dims| && |codes| >= |dims| && Sum(dims) <= total
    ensures Sum(dims[..0]) == 0
    ensures Placed(cbs, codes, dims, total, 0) == Zeros(total)
  {
    NothingPlaced(Segments(cbs, codes, dims), dims, total);
  }

  /** No segments joined, then zeros over the whole vector. */
  lemma NothingPlaced(segs: seq<seq<Word>>, dims: seq<nat>, total: nat)
    ensures Sum(dims[..0]) == 0
    ensures Prefix(segs, dims, total, 0) == Zeros(total)
  {
    JoinNone(segs);
    SumNone(dims);
  }

  lemma JoinNone(parts: seq<seq<Word>>)
    ensures Join(parts[..0]) == []
  {
    assert parts[..0] == [];
  }

  lemma SumNone(xs: seq<nat>)
    ensures Sum(xs[..0]) == 0
  {
    assert xs[..0] == [];
  }

  lemma PlacedAll(cbs: Codebooks, codes: seq<byte>, dims: seq<nat>, total: nat)
    requires |cbs| >= |dims| && |codes| >= |dims| && Sum(dims) <= total
    ensures Sum(dims[..|dims|]) <= total
    ensures Placed(cbs, codes, dims, total, |dims|) == Decoded(cbs, codes, dims, total)
  {
    SumAll(dims);
    JoinAll(Segments(cbs, codes, dims));
  }

  lemma SumAll(xs: seq<nat>)
    ensures Sum(xs[..|xs|]) == Sum(xs)
  {
    TakeAll(xs);
  }

  lemma JoinAll(parts: seq<seq<Word>>)
    ensures Join(parts[..|parts|]) == Join(parts)
  {
    TakeAll(parts);
  }

  lemma TakeAll<T>(xs: seq<T>)
    ensures xs[..|xs|] == xs
  {
  }

  /**
   * Decode's loop: a zeroed vector of `total` dimensions, into which the
   * centroid of each valid code is copied at its subvector's offset; an
   * invalid code is skipped, and its subvector is still passed over.
   */
  method PlaceSegments(cbs: Codebooks, codes: seq<byte>, dims: seq<nat>, total: nat) returns (vec: seq<Word>)
    requires |cbs| >= |dims| && |codes| >= |dims| && Sum(dims) <= total
    ensures vec == Decoded(cbs, codes, dims, total)
  {
    vec := Zeros(total);
    PlacedNone(cbs, codes, dims, total);
    var offset := 0;
    for s := 0 to |dims|
      invariant offset == Sum(dims[..s]) <= Sum(dims)
      invariant vec == Placed(cbs, codes, dims, total, s)
    {
      PlaceNext(cbs, codes, dims, total, s, vec);
      ghost var before := vec;
      var code := codes[s];
      if code as int < |cbs[s]| {
        vec := CopyInto(vec, offset, cbs[s][code], dims[s]);
      }
      assert vec == Step(before, offset, cbs[s], code, dims[s]);
      offset := offset + dims[s];
    }
    PlacedAll(cbs, codes, dims, total);
  }

  // Sizes.

  /**
   * GetCompressionRatio on reals: originalDim float32s of four bytes each
   * against one byte per subvector. With no subvectors Go's float32 division
   * gives an infinity or NaN, which is None here.
   */
  function CompressionRatio(originalDim: int, m: int): (ratio: Option<real>)
    ensures ratio.Some? <==> m != 0
    ensures ratio.Some? ==> ratio.value * m as real == (4 * originalDim) as real
  {
    if m == 0 then None else Some((originalDim * 4) as real / m as real)
  }
}
