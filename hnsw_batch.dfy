// Batch insertion into the HNSW index (pkg/hnsw/batch.go): the sequential
// batch and the buffered batch that processes the input in chunks. What each
// item's Insert does depends only on the index's dimension at that moment,
// which the first accepted vector fixes; the folds below follow that
// dimension through a batch, and the methods are proved against them.
module HnswBatch {
  import opened Wrappers
  import opened Strconv
  import opened HnswSelect
  import opened HnswIndex

  datatype BatchInsertResult = BatchInsertResult(totalProcessed: nat, successCount: nat, failureCount: nat,
                                                 errors: seq<string>, vectorIDs: seq<nat>)

  /** Whether Insert accepts `v` when the index has dimension `dim` (0: not fixed yet). */
  predicate Accepts(dim: nat, v: seq<real>)
  {
    |v| > 0 && (dim == 0 || |v| == dim)
  }

  /** The error Insert reports for a vector it refuses. */
  function InsertError(dim: nat, v: seq<real>): string
  {
    if |v| == 0 then EmptyVectorError else MismatchError(dim, |v|)
  }

  /** The index dimension after inserting `vs` one by one, starting from `dim`. */
  function DimAfter(dim: nat, vs: seq<seq<real>>): (d: nat)
    ensures dim > 0 ==> d == dim
  {
    if vs == [] then dim
    else
      var d0 := DimAfter(dim, vs[..|vs| - 1]);
      if Accepts(d0, vs[|vs| - 1]) then |vs[|vs| - 1]| else d0
  }

  /** Which of `vs` Insert accepts, in order. */
  function Accepted(dim: nat, vs: seq<seq<real>>): (r: seq<bool>)
    ensures |r| == |vs|
  {
    if vs == [] then []
    else
      var init := vs[..|vs| - 1];
      Accepted(dim, init) + [Accepts(DimAfter(dim, init), vs[|vs| - 1])]
  }

  function CountTrue(bs: seq<bool>): (n: nat)
    ensures n <= |bs|
  {
    if bs == [] then 0 else CountTrue(bs[..|bs| - 1]) + (if bs[|bs| - 1] then 1 else 0)
  }

  /**
   * The VectorIDs a batch reports: an accepted item gets the next id from the
   * counter `c`, a refused one keeps Go's zero value.
   */
  function ExpectedIds(c: nat, acc: seq<bool>): (r: seq<nat>)
    ensures |r| == |acc|
  {
    seq(|acc|, i requires 0 <= i < |acc| => if acc[i] then c + CountTrue(acc[..i]) else 0)
  }

  /** The message the batch records for item `i`: "vector <i>: <Insert's error>". */
  function ItemError(i: nat, err: string): string
  {
    "vector " + NatToString(i) + ": " + err
  }

  /** The errors of the sequential batch: one per refused item, in order. */
  function BatchErrors(dim: nat, vs: seq<seq<real>>): seq<string>
  {
    if vs == [] then []
    else
      var init := vs[..|vs| - 1];
      var d := DimAfter(dim, init);
      BatchErrors(dim, init) +
        (if Accepts(d, vs[|vs| - 1]) then [] else [ItemError(|init|, InsertError(d, vs[|vs| - 1]))])
  }

  /** The successive `processed` arguments of the progress callback: from + 1, ..., from + n. */
  function Reports(from: nat, n: nat): (r: seq<nat>)
    ensures |r| == n
  {
    if n == 0 then [] else Reports(from, n - 1) + [from + n]
  }

  lemma {:induction false} ReportsValues(from: nat, n: nat)
    ensures forall i :: 0 <= i < n ==> Reports(from, n)[i] == from + i + 1
  {
    if n > 0 {
      ReportsValues(from, n - 1);
    }
  }

  /** The reports of a run of a + b items are those of the first a, then those of the next b. */
  lemma {:induction false} ReportsAppend(a: nat, b: nat)
    ensures Reports(0, a + b) == Reports(0, a) + Reports(a, b)
  {
    if b > 0 {
      ReportsAppend(a, b - 1);
    }
  }

  /** Once the dimension is fixed, exactly the vectors of that length are accepted. */
  lemma {:induction false} AcceptedFixed(dim: nat, vs: seq<seq<real>>)
    requires dim > 0
    ensures forall i :: 0 <= i < |vs| ==> (Accepted(dim, vs)[i] <==> |vs[i]| == dim)
  {
    if vs != [] {
      var init := vs[..|vs| - 1];
      AcceptedFixed(dim, init);
      assert forall i :: 0 <= i < |init| ==> Accepted(dim, vs)[i] == Accepted(dim, init)[i] && vs[i] == init[i];
    }
  }

  lemma {:induction false} CountTrueAppend(a: seq<bool>, b: seq<bool>)
    ensures CountTrue(a + b) == CountTrue(a) + CountTrue(b)
    decreases |b|
  {
    if b == [] {
      assert a + b == a;
    } else {
      var bi := b[..|b| - 1];
      CountTrueAppend(a, bi);
      assert (a + b)[..|a + b| - 1] == a + bi;
    }
  }

  lemma {:induction false} DimAfterAppend(dim: nat, a: seq<seq<real>>, b: seq<seq<real>>)
    ensures DimAfter(dim, a + b) == DimAfter(DimAfter(dim, a), b)
    decreases |b|
  {
    if b == [] {
      assert a + b == a;
    } else {
      var bi := b[..|b| - 1];
      DimAfterAppend(dim, a, bi);
      assert (a + b)[..|a + b| - 1] == a + bi;
    }
  }

  /** Accepting a concatenation is accepting the first part, then the second from the dimension it leaves. */
  lemma {:induction false} AcceptedAppend(dim: nat, a: seq<seq<real>>, b: seq<seq<real>>)
    ensures Accepted(dim, a + b) == Accepted(dim, a) + Accepted(DimAfter(dim, a), b)
    decreases |b|
  {
    if b == [] {
      assert a + b == a;
    } else {
      var bi := b[..|b| - 1];
      AcceptedAppend(dim, a, bi);
      assert (a + b)[..|a + b| - 1] == a + bi;
      DimAfterAppend(dim, a, bi);
    }
  }

  /** The ids of a concatenation: the second part continues from the counter the first part leaves. */
  lemma ExpectedIdsAppend(c: nat, a: seq<bool>, b: seq<bool>)
    ensures ExpectedIds(c, a + b) == ExpectedIds(c, a) + ExpectedIds(c + CountTrue(a), b)
  {
    var l := ExpectedIds(c, a + b);
    var r := ExpectedIds(c, a) + ExpectedIds(c + CountTrue(a), b);
    forall k | 0 <= k < |l| ensures l[k] == r[k] {
      if k < |a| {
        assert (a + b)[..k] == a[..k];
      } else {
        assert (a + b)[..k] == a + b[..k - |a|];
        CountTrueAppend(a, b[..k - |a|]);
      }
    }
  }

  /** Accepted items get strictly increasing, hence distinct, ids in input order. */
  lemma ExpectedIdsIncreasing(c: nat, acc: seq<bool>)
    ensures forall i, j :: 0 <= i < j < |acc| && acc[i] && acc[j] ==> ExpectedIds(c, acc)[i] < ExpectedIds(c, acc)[j]
  {
    forall i, j | 0 <= i < j < |acc| && acc[i] && acc[j] ensures ExpectedIds(c, acc)[i] < ExpectedIds(c, acc)[j] {
      CountTrueGrows(acc, i, j);
    }
  }

  /** An accepted item at i adds one to the count of every longer prefix. */
  lemma CountTrueGrows(acc: seq<bool>, i: nat, j: nat)
    requires i < j <= |acc| && acc[i]
    ensures CountTrue(acc[..i]) < CountTrue(acc[..j])
  {
    var pre, mid, rest := acc[..i], acc[i..j], acc[i + 1..j];
    assert acc[..j] == pre + mid;
    CountTrueAppend(pre, mid);
    assert mid == [true] + rest;
    CountTrueAppend([true], rest);
    assert [true][..0] == [];
  }

  /** One more item: every fold over the prefix extends by that item's outcome. */
  lemma PrefixStep(d0: nat, vs: seq<seq<real>>, i: nat)
    requires i < |vs|
    ensures var p := vs[..i]; var d := DimAfter(d0, p); var a := Accepts(d, vs[i]);
      var q := vs[..i + 1];
      Accepted(d0, q) == Accepted(d0, p) + [a] &&
      DimAfter(d0, q) == (if a then |vs[i]| else d) &&
      BatchErrors(d0, q) == BatchErrors(d0, p) + (if a then [] else [ItemError(i, InsertError(d, vs[i]))])
  {
    var q := vs[..i + 1];
    assert q[..|q| - 1] == vs[..i];
  }

  /** One more outcome: the count and the ids extend by it. */
  lemma IdsStep(c0: nat, acc: seq<bool>, a: bool)
    ensures CountTrue(acc + [a]) == CountTrue(acc) + (if a then 1 else 0)
    ensures ExpectedIds(c0, acc + [a]) == ExpectedIds(c0, acc) + [if a then c0 + CountTrue(acc) else 0]
  {
    CountTrueAppend(acc, [a]);
    ExpectedIdsAppend(c0, acc, [a]);
  }

  /** Index.Insert in the terms of the batch: it succeeds exactly when Accepts holds, and then takes the next id. */
  method InsertItem(idx: Index, v: seq<real>, level: nat, candidates: int -> seq<Candidate>,
                    dist: (seq<real>, seq<real>) -> real) returns (r: Result<nat>)
    requires idx.Valid()
    modifies idx
    ensures idx.Valid()
    ensures r.Ok? <==> Accepts(old(idx.dimension), v)
    ensures r.Err? ==> r.error == InsertError(old(idx.dimension), v)
    ensures r.Err? ==> idx.dimension == old(idx.dimension) && idx.nodeCounter == old(idx.nodeCounter)
    ensures r.Ok? ==> r.value == old(idx.nodeCounter) && idx.nodeCounter == old(idx.nodeCounter) + 1
    ensures r.Ok? ==> idx.dimension == |v|
  {
    r := idx.Insert(v, level, candidates, dist);
  }

  /**
   * What the sequential batch has built after its first i items: the
   * outcomes, counts, ids, errors and reports of those items, and the
   * index's dimension and id counter.
   */
  ghost predicate SeqProgress(d0: nat, c0: nat, vs: seq<seq<real>>, i: int, acc: seq<bool>,
                              successes: nat, failures: nat, ids: seq<nat>, errors: seq<string>,
                              reports: seq<nat>, dim: nat, counter: nat)
  {
    0 <= i <= |vs| && acc == Accepted(d0, vs[..i]) &&
    successes == CountTrue(acc) && successes + failures == i &&
    ids == ExpectedIds(c0, acc) && errors == BatchErrors(d0, vs[..i]) &&
    counter == c0 + successes && dim == DimAfter(d0, vs[..i]) && reports == Reports(0, i)
  }

  /** Item i's outcome `r`, as Insert returns it, extends the progress by one item. */
  lemma SeqProgressStep(d0: nat, c0: nat, vs: seq<seq<real>>, i: nat, acc: seq<bool>,
                        successes: nat, failures: nat, ids: seq<nat>, errors: seq<string>,
                        reports: seq<nat>, dim: nat, counter: nat, r: Result<nat>, dim': nat, counter': nat)
    requires SeqProgress(d0, c0, vs, i, acc, successes, failures, ids, errors, reports, dim, counter) && i < |vs|
    requires r.Ok? <==> Accepts(dim, vs[i])
    requires r.Err? ==> r.error == InsertError(dim, vs[i]) && dim' == dim && counter' == counter
    requires r.Ok? ==> r.value == counter && counter' == counter + 1 && dim' == |vs[i]|
    ensures SeqProgress(d0, c0, vs, i + 1, acc + [r.Ok?],
                        if r.Ok? then successes + 1 else successes, if r.Ok? then failures else failures + 1,
                        ids + [if r.Ok? then r.value else 0],
                        if r.Ok? then errors else errors + [ItemError(i, r.error)],
                        reports + [i + 1], dim', counter')
  {
    if r.Ok? {
      SeqAccept(d0, c0, vs, i, acc, successes, failures, ids, errors, reports, dim, counter);
    } else {
      SeqRefuse(d0, c0, vs, i, acc, successes, failures, ids, errors, reports, dim, counter);
    }
  }

  /** An accepted item takes the next id and the new dimension. */
  lemma SeqAccept(d0: nat, c0: nat, vs: seq<seq<real>>, i: nat, acc: seq<bool>,
                  successes: nat, failures: nat, ids: seq<nat>, errors: seq<string>,
                  reports: seq<nat>, dim: nat, counter: nat)
    requires SeqProgress(d0, c0, vs, i, acc, successes, failures, ids, errors, reports, dim, counter) && i < |vs|
    requires Accepts(dim, vs[i])
    ensures SeqProgress(d0, c0, vs, i + 1, acc + [true], successes + 1, failures, ids + [counter], errors,
                        reports + [i + 1], |vs[i]|, counter + 1)
  {
    PrefixStep(d0, vs, i);
    IdsStep(c0, acc, true);
    var q := vs[..i + 1];
    assert acc + [true] == Accepted(d0, q);
    assert |vs[i]| == DimAfter(d0, q);
    assert errors == BatchErrors(d0, q);
    assert Reports(0, i + 1) == reports + [i + 1];
  }

  /** A refused item records its error and changes neither the dimension nor the counter. */
  lemma SeqRefuse(d0: nat, c0: nat, vs: seq<seq<real>>, i: nat, acc: seq<bool>,
                  successes: nat, failures: nat, ids: seq<nat>, errors: seq<string>,
                  reports: seq<nat>, dim: nat, counter: nat)
    requires SeqProgress(d0, c0, vs, i, acc, successes, failures, ids, errors, reports, dim, counter) && i < |vs|
    requires !Accepts(dim, vs[i])
    ensures SeqProgress(d0, c0, vs, i + 1, acc + [false], successes, failures + 1, ids + [0],
                        errors + [ItemError(i, InsertError(dim, vs[i]))], reports + [i + 1], dim, counter)
  {
    PrefixStep(d0, vs, i);
    IdsStep(c0, acc, false);
    var q := vs[..i + 1];
    assert acc + [false] == Accepted(d0, q);
    assert dim == DimAfter(d0, q);
    assert errors + [ItemError(i, InsertError(dim, vs[i]))] == BatchErrors(d0, q);
    assert Reports(0, i + 1) == reports + [i + 1];
  }

  /**
   * BatchInsertSequential: every item is offered to Insert in order; the
   * result counts every item once, as a success or a failure, keeps each
   * accepted item's id at its own position, and the progress callback sees
   * 1, 2, ..., n. The level and the layer searches of item i are
   * parameters.
   */
  method BatchInsertSequential(idx: Index, vectors: seq<seq<real>>, levelOf: nat -> nat,
                               candidatesOf: nat -> int -> seq<Candidate>, dist: (seq<real>, seq<real>) -> real)
    returns (res: BatchInsertResult, reports: seq<nat>)
    requires idx.Valid()
    modifies idx
    ensures idx.Valid()
    ensures res.totalProcessed == |vectors| && res.successCount + res.failureCount == |vectors|
    ensures res.successCount == CountTrue(Accepted(old(idx.dimension), vectors))
    ensures res.vectorIDs == ExpectedIds(old(idx.nodeCounter), Accepted(old(idx.dimension), vectors))
    ensures res.errors == BatchErrors(old(idx.dimension), vectors)
    ensures idx.nodeCounter == old(idx.nodeCounter) + res.successCount
    ensures idx.dimension == DimAfter(old(idx.dimension), vectors)
    ensures reports == Reports(0, |vectors|)
  {
    ghost var d0 := idx.dimension;
    ghost var c0 := idx.nodeCounter;
    // The result's id slice starts as |vectors| zeros and item i's id is
    // written at position i; building it front to back gives the same slice.
    var ids: seq<nat> := [];
    var errors: seq<string> := [];
    var successes: nat, failures: nat := 0, 0;
    reports := [];
    if |vectors| == 0 {
      return BatchInsertResult(0, 0, 0, errors, ids), reports;
    }
    var i := 0;
    ghost var acc: seq<bool> := [];
    while i < |vectors|
      invariant idx.Valid()
      invariant SeqProgress(d0, c0, vectors, i, acc, successes, failures, ids, errors, reports, idx.dimension, idx.nodeCounter)
    {
      ghost var dim, counter := idx.dimension, idx.nodeCounter;
      var r := InsertItem(idx, vectors[i], levelOf(i), candidatesOf(i), dist);
      SeqProgressStep(d0, c0, vectors, i, acc, successes, failures, ids, errors, reports, dim, counter,
                      r, idx.dimension, idx.nodeCounter);
      if r.Err? {
        errors := errors + [ItemError(i, r.error)];
        failures := failures + 1;
      } else {
        successes := successes + 1;
      }
      ids := ids + [if r.Ok? then r.value else 0];
      reports := reports + [i + 1];
      acc := acc + [r.Ok?];
      i := i + 1;
    }
    assert vectors[..i] == vectors;
    res := BatchInsertResult(|vectors|, successes, failures, errors, ids);
  }

  /** The buffer size BatchInsertWithBuffer uses: 1000 unless a positive size is given. */
  function BufferSize(bufferSize: int): (b: nat)
    ensures b > 0 && (bufferSize > 0 ==> b == bufferSize) && (bufferSize <= 0 ==> b == 1000)
  {
    if bufferSize <= 0 then 1000 else bufferSize
  }

  /** The callback a chunk starting at `start` is given: it reports `start + processed`. */
  function Shift(start: nat, rs: seq<nat>): (r: seq<nat>)
    ensures |r| == |rs|
  {
    if rs == [] then [] else Shift(start, rs[..|rs| - 1]) + [start + rs[|rs| - 1]]
  }

  lemma {:induction false} ShiftReports(start: nat, n: nat)
    ensures Shift(start, Reports(0, n)) == Reports(start, n)
  {
    if n > 0 {
      ShiftReports(start, n - 1);
      assert Reports(0, n)[..n - 1] == Reports(0, n - 1);
    }
  }

  /** What the buffered batch has built after the chunks covering its first `start` items. */
  ghost predicate BufProgress(d0: nat, c0: nat, vs: seq<seq<real>>, start: int,
                              successes: nat, failures: nat, ids: seq<nat>, errors: seq<string>,
                              reports: seq<nat>, dim: nat, counter: nat)
  {
    0 <= start <= |vs| &&
    successes == CountTrue(Accepted(d0, vs[..start])) && successes + failures == start &&
    ids == ExpectedIds(c0, Accepted(d0, vs[..start])) && |errors| == failures &&
    counter == c0 + successes && dim == DimAfter(d0, vs[..start]) && reports == Reports(0, start)
  }

  /** The chunk [start, end), inserted as the sequential batch does, extends the progress to `end`. */
  lemma BufProgressStep(d0: nat, c0: nat, vs: seq<seq<real>>, start: nat, end: nat,
                        successes: nat, failures: nat, ids: seq<nat>, errors: seq<string>,
                        reports: seq<nat>, dim: nat, counter: nat,
                        chunk: BatchInsertResult, chunkReports: seq<nat>, dim': nat, counter': nat)
    requires BufProgress(d0, c0, vs, start, successes, failures, ids, errors, reports, dim, counter)
    requires start <= end <= |vs|
    requires var cs := vs[start..end];
      chunk.successCount == CountTrue(Accepted(dim, cs)) && chunk.successCount + chunk.failureCount == |cs| &&
      chunk.vectorIDs == ExpectedIds(counter, Accepted(dim, cs)) && chunk.errors == BatchErrors(dim, cs) &&
      counter' == counter + chunk.successCount && dim' == DimAfter(dim, cs) && chunkReports == Reports(0, |cs|)
    ensures BufProgress(d0, c0, vs, end, successes + chunk.successCount, failures + chunk.failureCount,
                        ids + chunk.vectorIDs, errors + chunk.errors, reports + Shift(start, chunkReports), dim', counter')
  {
    var cs := vs[start..end];
    BatchErrorsCount(dim, cs);
    CountsChunk(d0, vs, start, end);
    IdsChunk(d0, c0, vs, start, end, ids, chunk.vectorIDs, counter, dim);
    ReportsChunk(start, end, reports, chunkReports);
  }

  /** The count and the dimension over [0, end) continue those over [0, start) with the chunk's own. */
  lemma CountsChunk(d0: nat, vs: seq<seq<real>>, start: nat, end: nat)
    requires start <= end <= |vs|
    ensures var d := DimAfter(d0, vs[..start]); var cs := vs[start..end];
      CountTrue(Accepted(d0, vs[..end])) == CountTrue(Accepted(d0, vs[..start])) + CountTrue(Accepted(d, cs)) &&
      DimAfter(d0, vs[..end]) == DimAfter(d, cs)
  {
    var p := vs[..start];
    var cs := vs[start..end];
    assert vs[..end] == p + cs;
    AcceptedAppend(d0, p, cs);
    CountTrueAppend(Accepted(d0, p), Accepted(DimAfter(d0, p), cs));
    DimAfterAppend(d0, p, cs);
  }

  /** The ids over [0, end) are those over [0, start), then the chunk's, numbered from the counter it saw. */
  lemma IdsChunk(d0: nat, c0: nat, vs: seq<seq<real>>, start: nat, end: nat, ids: seq<nat>, chunkIds: seq<nat>,
                 counter: nat, dim: nat)
    requires start <= end <= |vs|
    requires ids == ExpectedIds(c0, Accepted(d0, vs[..start]))
    requires counter == c0 + CountTrue(Accepted(d0, vs[..start])) && dim == DimAfter(d0, vs[..start])
    requires chunkIds == ExpectedIds(counter, Accepted(dim, vs[start..end]))
    ensures ids + chunkIds == ExpectedIds(c0, Accepted(d0, vs[..end]))
  {
    var p := vs[..start];
    var cs := vs[start..end];
    var a := Accepted(d0, p);
    var ac := Accepted(dim, cs);
    assert vs[..end] == p + cs;
    AcceptedAppend(d0, p, cs);
    ExpectedIdsAppend(c0, a, ac);
    calc {
      ExpectedIds(c0, Accepted(d0, vs[..end]));
      ExpectedIds(c0, a + ac);
      ExpectedIds(c0, a) + ExpectedIds(c0 + CountTrue(a), ac);
    }
  }

  /** The reports over [0, end) are those over [0, start), then the chunk's shifted by `start`. */
  lemma ReportsChunk(start: nat, end: nat, reports: seq<nat>, chunkReports: seq<nat>)
    requires start <= end && reports == Reports(0, start) && chunkReports == Reports(0, end - start)
    ensures reports + Shift(start, chunkReports) == Reports(0, end)
  {
    ShiftReports(start, end - start);
    ReportsAppend(start, end - start);
  }

  /** One chunk of BatchInsertWithBuffer: insert vectors[start..end] and merge its result into the totals. */
  method InsertChunk(idx: Index, vectors: seq<seq<real>>, start: nat, end: nat, levelOf: nat -> nat,
                     candidatesOf: nat -> int -> seq<Candidate>, dist: (seq<real>, seq<real>) -> real,
                     ghost d0: nat, ghost c0: nat, successes: nat, failures: nat, ids: seq<nat>, errors: seq<string>,
                     reports: seq<nat>)
    returns (successes': nat, failures': nat, ids': seq<nat>, errors': seq<string>, reports': seq<nat>)
    requires idx.Valid() && start <= end <= |vectors|
    requires BufProgress(d0, c0, vectors, start, successes, failures, ids, errors, reports, idx.dimension, idx.nodeCounter)
    modifies idx
    ensures idx.Valid()
    ensures BufProgress(d0, c0, vectors, end, successes', failures', ids', errors', reports', idx.dimension, idx.nodeCounter)
  {
    ghost var dim, counter := idx.dimension, idx.nodeCounter;
    var chunkResult, chunkReports := BatchInsertSequential(idx, vectors[start..end], j => levelOf(start + j),
                                                            j => candidatesOf(start + j), dist);
    BufProgressStep(d0, c0, vectors, start, end, successes, failures, ids, errors, reports, dim, counter,
                    chunkResult, chunkReports, idx.dimension, idx.nodeCounter);
    successes' := successes + chunkResult.successCount;
    failures' := failures + chunkResult.failureCount;
    errors' := errors + chunkResult.errors;
    ids' := ids + chunkResult.vectorIDs;
    // The chunk's callback reports start + processed.
    reports' := reports + Shift(start, chunkReports);
  }

  /**
   * BatchInsertWithBuffer: the input is processed chunk by chunk (see
   * Chunks); counts, ids and progress reports come out as the sequential
   * batch's would over the whole input. Each chunk is inserted by the
   * sequential batch, standing in for the concurrent one.
   */
  method BatchInsertWithBuffer(idx: Index, vectors: seq<seq<real>>, bufferSize: int, levelOf: nat -> nat,
                               candidatesOf: nat -> int -> seq<Candidate>, dist: (seq<real>, seq<real>) -> real)
    returns (res: BatchInsertResult, reports: seq<nat>)
    requires idx.Valid()
    modifies idx
    ensures idx.Valid()
    ensures res.totalProcessed == |vectors| && res.successCount + res.failureCount == |vectors|
    ensures res.successCount == CountTrue(Accepted(old(idx.dimension), vectors))
    ensures res.vectorIDs == ExpectedIds(old(idx.nodeCounter), Accepted(old(idx.dimension), vectors))
    ensures |res.errors| == res.failureCount
    ensures idx.nodeCounter == old(idx.nodeCounter) + res.successCount
    ensures idx.dimension == DimAfter(old(idx.dimension), vectors)
    ensures reports == Reports(0, |vectors|)
  {
    ghost var d0 := idx.dimension;
    ghost var c0 := idx.nodeCounter;
    // As in BatchInsertSequential, the id slice is built chunk by chunk
    // rather than copied into a slice of zeros.
    var ids: seq<nat> := [];
    var errors: seq<string> := [];
    var successes: nat, failures: nat := 0, 0;
    reports := [];
    if |vectors| == 0 {
      return BatchInsertResult(0, 0, 0, errors, ids), reports;
    }
    var b := BufferSize(bufferSize);
    var start := 0;
    while start < |vectors|
      invariant idx.Valid()
      invariant BufProgress(d0, c0, vectors, start, successes, failures, ids, errors, reports, idx.dimension, idx.nodeCounter)
      decreases |vectors| - start
    {
      var end := if start + b > |vectors| then |vectors| else start + b;
      successes, failures, ids, errors, reports :=
        InsertChunk(idx, vectors, start, end, levelOf, candidatesOf, dist, d0, c0, successes, failures, ids, errors, reports);
      start := end;
    }
    assert vectors[..start] == vectors;
    res := BatchInsertResult(|vectors|, successes, failures, errors, ids);
  }

  /** The sequential batch reports one error per refused item. */
  lemma {:induction false} BatchErrorsCount(dim: nat, vs: seq<seq<real>>)
    ensures |BatchErrors(dim, vs)| == |vs| - CountTrue(Accepted(dim, vs))
  {
    if vs != [] {
      var init := vs[..|vs| - 1];
      BatchErrorsCount(dim, init);
      assert Accepted(dim, vs)[..|vs| - 1] == Accepted(dim, init);
    }
  }
}
