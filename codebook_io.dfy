// The byte layout shared by the product quantizer (internal/quantization/product.go)
// and the anisotropic quantizer (pkg/scann/anisotropic.go): 32-bit words written
// little-endian at a moving offset, and codebooks laid out subvector by
// subvector, code by code, one word per dimension. A float32 is represented by
// its IEEE bit pattern, so Float32bits and Float32frombits are the identity here.
module CodebookIO {

  newtype byte = x: int | 0 <= x < 256

  /** A 32-bit word: a uint32 header field or the bit pattern of a float32. */
  type Word = x: int | 0 <= x < 0x1_0000_0000

  /** Go's uint32(x) conversion, which wraps modulo 2^32. */
  function U32(x: int): (w: Word)
    ensures 0 <= x < 0x1_0000_0000 ==> w == x
  {
    x % 0x1_0000_0000
  }

  function Pow2(b: nat): (p: nat)
    ensures p >= 1
  {
    if b == 0 then 1 else 2 * Pow2(b - 1)
  }

  /** Go's `1 << b` on a 64-bit int: a shift of 64 or more gives 0, and a shift of 63 the most negative value. */
  function Shl1(b: nat): (r: int)
    ensures b < 63 ==> r == Pow2(b)
    ensures b >= 64 ==> r == 0
  {
    if b >= 64 then 0 else if b == 63 then -0x8000_0000_0000_0000 else Pow2(b)
  }

  /** The number of codes the loops over a codebook run to: 1 << b, or none when that is not positive. */
  function NumCodes(b: nat): nat
  {
    if Shl1(b) > 0 then Shl1(b) else 0
  }

  /** binary.LittleEndian.PutUint32: the four bytes of a word, least significant first. */
  function Bytes(w: Word): (b: seq<byte>)
    ensures |b| == 4
  {
    var q1 := w / 256;
    var q2 := q1 / 256;
    [(w % 256) as byte, (q1 % 256) as byte, (q2 % 256) as byte, (q2 / 256) as byte]
  }

  /** binary.LittleEndian.Uint32: the word whose bytes start at `off`. */
  function WordAt(data: seq<byte>, off: nat): Word
    requires off + 4 <= |data|
  {
    data[off] as int + 256 * (data[off + 1] as int + 256 * (data[off + 2] as int + 256 * data[off + 3] as int))
  }

  lemma WordRoundTrip(w: Word)
    ensures WordAt(Bytes(w), 0) == w
  {
    var q1 := w / 256;
    var q2 := q1 / 256;
    assert w == w % 256 + 256 * q1;
    assert q1 == q1 % 256 + 256 * q2;
    assert q2 == q2 % 256 + 256 * (q2 / 256);
  }

  /** The words one after another, four bytes each. */
  function Words(ws: seq<Word>): (b: seq<byte>)
    ensures |b| == 4 * |ws|
  {
    if ws == [] then [] else Words(ws[..|ws| - 1]) + Bytes(ws[|ws| - 1])
  }

  lemma {:induction false} WordsAppend(a: seq<Word>, b: seq<Word>)
    ensures Words(a + b) == Words(a) + Words(b)
    decreases |b|
  {
    if b == [] {
      assert a + b == a;
    } else {
      var front := b[..|b| - 1];
      assert (a + b)[..|a + b| - 1] == a + front;
      assert (a + b)[|a + b| - 1] == b[|b| - 1];
      WordsAppend(a, front);
    }
  }

  lemma WordsStep(ws: seq<Word>, i: nat)
    requires i < |ws|
    ensures Words(ws[..i + 1]) == Words(ws[..i]) + Bytes(ws[i])
  {
    assert ws[..i + 1][..i] == ws[..i];
  }

  /** Reading back the i-th word of a laid-out sequence gives that word. */
  lemma {:induction false} WordAtWords(prefix: seq<byte>, ws: seq<Word>, i: nat)
    requires i < |ws|
    ensures |prefix| + 4 * i + 4 <= |prefix + Words(ws)|
    ensures WordAt(prefix + Words(ws), |prefix| + 4 * i) == ws[i]
  {
    assert ws == ws[..i + 1] + ws[i + 1..];
    WordsAppend(ws[..i + 1], ws[i + 1..]);
    WordsStep(ws, i);
    var a := prefix + Words(ws[..i]);
    var b := Bytes(ws[i]);
    var rest := Words(ws[i + 1..]);
    assert prefix + Words(ws) == a + b + rest;
    assert |a| == |prefix| + 4 * i;
    WordAtConcat(a, b, rest);
    WordRoundTrip(ws[i]);
  }

  lemma WordAtConcat(a: seq<byte>, b: seq<byte>, rest: seq<byte>)
    requires |b| == 4
    ensures WordAt(a + b + rest, |a|) == WordAt(b, 0)
  {
    var whole := a + b + rest;
    assert whole[|a|] == b[0] && whole[|a| + 1] == b[1] && whole[|a| + 2] == b[2] && whole[|a| + 3] == b[3];
  }

  // Concatenation of a sequence of rows.

  function Join(parts: seq<seq<Word>>): seq<Word>
  {
    if parts == [] then [] else Join(parts[..|parts| - 1]) + parts[|parts| - 1]
  }

  lemma JoinStep(parts: seq<seq<Word>>, k: nat)
    requires k < |parts|
    ensures Join(parts[..k + 1]) == Join(parts[..k]) + parts[k]
  {
    assert parts[..k + 1][..k] == parts[..k];
  }

  lemma {:induction false} JoinSplit(parts: seq<seq<Word>>, k: nat)
    requires k <= |parts|
    ensures Join(parts) == Join(parts[..k]) + Join(parts[k..])
    decreases |parts|
  {
    if k == |parts| {
      assert parts[..k] == parts;
      assert parts[k..] == [];
    } else {
      var front := parts[..|parts| - 1];
      JoinSplit(front, k);
      assert front[..k] == parts[..k];
      assert parts[k..][..|parts[k..]| - 1] == front[k..];
    }
  }

  /** Word j of row k sits after the rows before k. */
  lemma JoinIndex(parts: seq<seq<Word>>, k: nat, j: nat)
    requires k < |parts| && j < |parts[k]|
    ensures |Join(parts[..k])| + j < |Join(parts)|
    ensures Join(parts)[|Join(parts[..k])| + j] == parts[k][j]
  {
    JoinStep(parts, k);
    JoinSplit(parts, k + 1);
  }

  /** A prefix of the rows and the row after it fit in the whole. */
  lemma JoinPrefixFits(parts: seq<seq<Word>>, k: nat)
    requires k < |parts|
    ensures |Join(parts[..k])| + |parts[k]| <= |Join(parts)|
  {
    JoinStep(parts, k);
    JoinSplit(parts, k + 1);
  }

  /** Rows of equal width w join into Times(k, w) words. */
  lemma {:induction false} JoinUniform(parts: seq<seq<Word>>, w: nat)
    requires forall i :: 0 <= i < |parts| ==> |parts[i]| == w
    ensures |Join(parts)| == Times(|parts|, w)
    decreases |parts|
  {
    if parts != [] {
      JoinUniform(parts[..|parts| - 1], w);
      TimesStep(|parts| - 1, w);
    }
  }

  // Sums of subvector dimensions.

  function Sum(s: seq<nat>): nat
  {
    if s == [] then 0 else Sum(s[..|s| - 1]) + s[|s| - 1]
  }

  lemma SumStep(s: seq<nat>, k: nat)
    requires k < |s|
    ensures Sum(s[..k + 1]) == Sum(s[..k]) + s[k]
  {
    assert s[..k + 1][..k] == s[..k];
  }

  lemma {:induction false} SumMono(s: seq<nat>, i: nat, j: nat)
    requires i <= j <= |s|
    ensures Sum(s[..i]) <= Sum(s[..j])
    decreases j - i
  {
    if i < j {
      SumStep(s, j - 1);
      SumMono(s, i, j - 1);
    }
  }

  /** k rows of w words; the products in offsets go through this function and its two lemmas. */
  function Times(k: nat, w: nat): nat
  {
    k * w
  }

  lemma TimesStep(k: nat, w: nat)
    ensures Times(k + 1, w) == Times(k, w) + w
  {
  }

  lemma TimesMono(a: nat, b: nat, w: nat)
    requires a <= b
    ensures Times(a, w) <= Times(b, w)
  {
    assert Times(b, w) == Times(a, w) + (b - a) * w;
  }

  /** The number of words of each subvector's codebook, n centroids of dims[s] words. */
  function Sizes(dims: seq<nat>, n: nat): (sizes: seq<nat>)
    ensures |sizes| == |dims| && forall s :: 0 <= s < |dims| ==> sizes[s] == Times(n, dims[s])
  {
    seq(|dims|, s requires 0 <= s < |dims| => Times(n, dims[s]))
  }

  // The codebook section.

  /** codebook[code] is a centroid; codebooks[subvector] is a codebook. */
  type Codebook = seq<seq<Word>>
  type Codebooks = seq<Codebook>

  /** Codebook s has at least n centroids, each of at least dims[s] words, for every s < |dims|. */
  ghost predicate Covers(cbs: Codebooks, dims: seq<nat>, n: nat)
  {
    |cbs| >= |dims| &&
    forall s :: 0 <= s < |dims| ==> |cbs[s]| >= n && forall c :: 0 <= c < n ==> |cbs[s][c]| >= dims[s]
  }

  /** The first n centroids of a codebook, each cut to w words. */
  function Rows(cb: Codebook, n: nat, w: nat): (rows: seq<seq<Word>>)
    requires |cb| >= n && forall c :: 0 <= c < n ==> |cb[c]| >= w
    ensures |rows| == n && forall c :: 0 <= c < n ==> rows[c] == cb[c][..w]
  {
    seq(n, c requires 0 <= c < n => cb[c][..w])
  }

  function Blocks(cbs: Codebooks, dims: seq<nat>, n: nat): (blocks: seq<seq<Word>>)
    requires Covers(cbs, dims, n)
    ensures |blocks| == |dims|
  {
    seq(|dims|, s requires 0 <= s < |dims| => Block(cbs[s], n, dims[s]))
  }

  /** One codebook's words: its first n centroids, w words each. */
  function Block(cb: Codebook, n: nat, w: nat): seq<Word>
    requires |cb| >= n && forall c :: 0 <= c < n ==> |cb[c]| >= w
  {
    Join(Rows(cb, n, w))
  }

  /** The words of the codebook section, in the order the serializers write them. */
  function Layout(cbs: Codebooks, dims: seq<nat>, n: nat): seq<Word>
    requires Covers(cbs, dims, n)
  {
    Join(Blocks(cbs, dims, n))
  }

  /** What reading the section gives back: the first n centroids of each codebook, cut to its width. */
  function Trim(cbs: Codebooks, dims: seq<nat>, n: nat): (r: Codebooks)
    requires Covers(cbs, dims, n)
    ensures |r| == |dims|
  {
    seq(|dims|, s requires 0 <= s < |dims| => Rows(cbs[s], n, dims[s]))
  }

  /** Exactly one codebook per subvector, of exactly n centroids of exactly its width. */
  ghost predicate Exact(cbs: Codebooks, dims: seq<nat>, n: nat)
  {
    |cbs| == |dims| &&
    forall s :: 0 <= s < |dims| ==> |cbs[s]| == n && forall c :: 0 <= c < n ==> |cbs[s][c]| == dims[s]
  }

  /** Codebooks of exactly the announced shape are what reading them back gives. */
  lemma TrimExact(cbs: Codebooks, dims: seq<nat>, n: nat)
    requires Exact(cbs, dims, n)
    ensures Covers(cbs, dims, n) && Trim(cbs, dims, n) == cbs
  {
    forall s | 0 <= s < |dims|
      ensures Trim(cbs, dims, n)[s] == cbs[s]
    {
      forall c | 0 <= c < n
        ensures Rows(cbs[s], n, dims[s])[c] == cbs[s][c]
      {
        assert cbs[s][c][..dims[s]] == cbs[s][c];
      }
    }
  }

  lemma {:induction false} BlocksLength(cbs: Codebooks, dims: seq<nat>, n: nat, s: nat)
    requires Covers(cbs, dims, n) && s <= |dims|
    ensures |Join(Blocks(cbs, dims, n)[..s])| == Sum(Sizes(dims, n)[..s])
    decreases s
  {
    if s > 0 {
      BlocksLength(cbs, dims, n, s - 1);
      JoinStep(Blocks(cbs, dims, n), s - 1);
      SumStep(Sizes(dims, n), s - 1);
      JoinUniform(Rows(cbs[s - 1], n, dims[s - 1]), dims[s - 1]);
    }
  }

  /** The section holds the codebook sizes added up. */
  lemma LayoutLength(cbs: Codebooks, dims: seq<nat>, n: nat)
    requires Covers(cbs, dims, n)
    ensures |Layout(cbs, dims, n)| == Sum(Sizes(dims, n))
  {
    BlocksLength(cbs, dims, n, |dims|);
    assert Blocks(cbs, dims, n)[..|dims|] == Blocks(cbs, dims, n);
    assert Sizes(dims, n)[..|dims|] == Sizes(dims, n);
  }

  /** Word j of centroid c of subvector s sits after the codebooks before s and the centroids before c. */
  lemma LayoutIndex(cbs: Codebooks, dims: seq<nat>, n: nat, s: nat, c: nat, j: nat)
    requires Covers(cbs, dims, n) && s < |dims| && c < n && j < dims[s]
    ensures Sum(Sizes(dims, n)[..s]) + Times(c, dims[s]) + j < |Layout(cbs, dims, n)|
    ensures Layout(cbs, dims, n)[Sum(Sizes(dims, n)[..s]) + Times(c, dims[s]) + j] == cbs[s][c][j]
  {
    var rows := Rows(cbs[s], n, dims[s]);
    JoinUniform(rows[..c], dims[s]);
    JoinIndex(rows, c, j);
    BlocksLength(cbs, dims, n, s);
    JoinIndex(Blocks(cbs, dims, n), s, Times(c, dims[s]) + j);
  }

  // Writing.

  method PutUint32(buf: array<byte>, off: nat, w: Word)
    requires off + 4 <= buf.Length
    modifies buf
    ensures buf[..off + 4] == old(buf[..off]) + Bytes(w)
  {
    var b := Bytes(w);
    buf[off] := b[0];
    buf[off + 1] := b[1];
    buf[off + 2] := b[2];
    buf[off + 3] := b[3];
  }

  /** Writes the words at `off` on, one PutUint32 each, and returns the offset after them. */
  method WriteWords(buf: array<byte>, off: nat, ws: seq<Word>) returns (end: nat)
    requires off + 4 * |ws| <= buf.Length
    modifies buf
    ensures end == off + 4 * |ws|
    ensures buf[..end] == old(buf[..off]) + Words(ws)
  {
    ghost var prefix := buf[..off];
    end := off;
    for j := 0 to |ws|
      invariant end == off + 4 * j
      invariant buf[..end] == prefix + Words(ws[..j])
    {
      PutUint32(buf, end, ws[j]);
      WordsStep(ws, j);
      end := end + 4;
    }
    assert ws[..|ws|] == ws;
  }

  /** Writing more words after a written prefix lays out the words joined. */
  lemma Appended(prefix: seq<byte>, done: seq<Word>, next: seq<Word>)
    ensures (prefix + Words(done)) + Words(next) == prefix + Words(done + next)
  {
    WordsAppend(done, next);
  }

  /** Writes the first n centroids of one codebook, w words each. */
  method WriteCodebook(buf: array<byte>, off: nat, cb: Codebook, n: nat, w: nat) returns (end: nat)
    requires |cb| >= n && forall c :: 0 <= c < n ==> |cb[c]| >= w
    requires off + 4 * |Block(cb, n, w)| <= buf.Length
    modifies buf
    ensures end == off + 4 * |Block(cb, n, w)|
    ensures buf[..end] == old(buf[..off]) + Words(Block(cb, n, w))
  {
    ghost var rows := Rows(cb, n, w);
    ghost var prefix := buf[..off];
    end := off;
    for code := 0 to n
      invariant end == off + 4 * |Join(rows[..code])| <= off + 4 * |Join(rows)|
      invariant buf[..end] == prefix + Words(Join(rows[..code]))
    {
      JoinPrefixFits(rows, code);
      JoinStep(rows, code);
      Appended(prefix, Join(rows[..code]), rows[code]);
      end := WriteWords(buf, end, cb[code][..w]);
    }
    assert rows[..n] == rows;
  }

  /** Writes the whole codebook section: subvector by subvector, code by code, dimension by dimension. */
  method WriteCodebooks(buf: array<byte>, off: nat, cbs: Codebooks, dims: seq<nat>, n: nat) returns (end: nat)
    requires Covers(cbs, dims, n)
    requires off + 4 * |Layout(cbs, dims, n)| <= buf.Length
    modifies buf
    ensures end == off + 4 * |Layout(cbs, dims, n)|
    ensures buf[..end] == old(buf[..off]) + Words(Layout(cbs, dims, n))
  {
    ghost var blocks := Blocks(cbs, dims, n);
    ghost var prefix := buf[..off];
    end := off;
    for s := 0 to |dims|
      invariant end == off + 4 * |Join(blocks[..s])| <= off + 4 * |Join(blocks)|
      invariant buf[..end] == prefix + Words(Join(blocks[..s]))
    {
      JoinPrefixFits(blocks, s);
      JoinStep(blocks, s);
      Appended(prefix, Join(blocks[..s]), blocks[s]);
      end := WriteCodebook(buf, end, cbs[s], n, dims[s]);
    }
    assert blocks[..|dims|] == blocks;
  }

  // Reading.

  /** w words read from `off` on; once the data runs out, the rest stay zero. */
  function RowAt(data: seq<byte>, off: nat, w: nat): (row: seq<Word>)
    ensures |row| == w
  {
    seq(w, j requires 0 <= j < w => WordOrZero(data, off + 4 * j))
  }

  /** The word at `p`, or zero when fewer than four bytes remain there. */
  function WordOrZero(data: seq<byte>, p: nat): Word
  {
    if p + 4 <= |data| then WordAt(data, p) else 0
  }

  /** n centroids of w words from `off` on; a centroid the data does not reach stays empty. */
  function CodebookAt(data: seq<byte>, off: nat, n: nat, w: nat): (cb: Codebook)
    ensures |cb| == n
  {
    seq(n, c requires 0 <= c < n => CentroidAt(data, off, c, w))
  }

  /** Centroid c of a codebook read from `off`: empty when the data ends before it. */
  function CentroidAt(data: seq<byte>, off: nat, c: nat, w: nat): seq<Word>
  {
    if off + 4 * Times(c, w) <= |data| then RowAt(data, off + 4 * Times(c, w), w) else []
  }

  /** The codebooks read from `off` on, subvector s having dims[s] dimensions and n codes. */
  function CodebooksAt(data: seq<byte>, off: nat, dims: seq<nat>, n: nat): (cbs: Codebooks)
    ensures |cbs| == |dims|
  {
    seq(|dims|, s requires 0 <= s < |dims| => SubvectorAt(data, off, dims, n, s))
  }

  /** Codebook s read from `off`: empty when the data ends before it. */
  function SubvectorAt(data: seq<byte>, off: nat, dims: seq<nat>, n: nat, s: nat): Codebook
    requires s < |dims|
  {
    var start := off + 4 * Sum(Sizes(dims, n)[..s]);
    if start <= |data| then CodebookAt(data, start, n, dims[s]) else []
  }

  /**
   * Reads w words into a zeroed row, checking before each word that four
   * bytes remain; `ok` is false when the data ran out.
   */
  method ReadWords(data: seq<byte>, off: nat, w: nat) returns (row: seq<Word>, ok: bool)
    requires off <= |data|
    ensures row == RowAt(data, off, w)
    ensures ok <==> off + 4 * w <= |data|
  {
    row := seq(w, _ => 0);
    var cur := off;
    for j := 0 to w
      invariant cur == off + 4 * j && cur <= |data|
      invariant |row| == w
      invariant forall i :: 0 <= i < w ==> row[i] == if i < j then WordAt(data, off + 4 * i) else 0
    {
      if cur + 4 > |data| {
        assert row == RowAt(data, off, w);
        return row, false;
      }
      row := row[j := WordAt(data, cur)];
      cur := cur + 4;
    }
    assert row == RowAt(data, off, w);
    ok := true;
  }

  /** Reads n centroids of w words each into a codebook of n entries, stopping where the data ends. */
  method ReadCodebook(data: seq<byte>, off: nat, n: nat, w: nat) returns (cb: Codebook, ok: bool)
    requires off <= |data|
    ensures cb == CodebookAt(data, off, n, w)
    ensures ok <==> off + 4 * Times(n, w) <= |data|
  {
    ghost var want := CodebookAt(data, off, n, w);
    cb := seq(n, _ => []);
    var cur := off;
    for code := 0 to n
      invariant cur == off + 4 * Times(code, w) && cur <= |data|
      invariant |cb| == n
      invariant forall c :: 0 <= c < code ==> cb[c] == want[c]
      invariant forall c :: code <= c < n ==> cb[c] == []
    {
      var row, rowOk := ReadWords(data, cur, w);
      cb := cb[code := row];
      TimesStep(code, w);
      if !rowOk {
        CodebookStopped(data, off, n, w, code);
        assert cb == want;
        return cb, false;
      }
      cur := cur + 4 * w;
    }
    ok := true;
  }

  /** Once the data runs out inside centroid `code`, the later centroids are not reached. */
  lemma CodebookStopped(data: seq<byte>, off: nat, n: nat, w: nat, code: nat)
    requires code < n && off + 4 * Times(code + 1, w) > |data|
    ensures forall c :: code < c < n ==> CodebookAt(data, off, n, w)[c] == []
    ensures off + 4 * Times(n, w) > |data|
  {
    forall c | code < c < n
      ensures CodebookAt(data, off, n, w)[c] == []
    {
      TimesMono(code + 1, c, w);
    }
    TimesMono(code + 1, n, w);
  }

  /** Reads the codebook section, subvector by subvector, stopping where the data ends. */
  method ReadCodebooks(data: seq<byte>, off: nat, dims: seq<nat>, n: nat) returns (cbs: Codebooks, ok: bool)
    requires off <= |data|
    ensures cbs == CodebooksAt(data, off, dims, n)
    ensures ok <==> off + 4 * Sum(Sizes(dims, n)) <= |data|
  {
    ghost var sizes := Sizes(dims, n);
    ghost var want := CodebooksAt(data, off, dims, n);
    cbs := seq(|dims|, _ => []);
    var cur := off;
    for s := 0 to |dims|
      invariant cur == off + 4 * Sum(sizes[..s]) && cur <= |data|
      invariant |cbs| == |dims|
      invariant forall i :: 0 <= i < s ==> cbs[i] == want[i]
      invariant forall i :: s <= i < |dims| ==> cbs[i] == []
    {
      var cb, cbOk := ReadCodebook(data, cur, n, dims[s]);
      cbs := cbs[s := cb];
      SumStep(sizes, s);
      if !cbOk {
        CodebooksStopped(data, off, dims, n, s);
        assert cbs == want;
        return cbs, false;
      }
      cur := cur + 4 * Times(n, dims[s]);
    }
    assert sizes[..|dims|] == sizes;
    ok := true;
  }

  /** Once the data runs out inside codebook s, the later codebooks are not reached. */
  lemma CodebooksStopped(data: seq<byte>, off: nat, dims: seq<nat>, n: nat, s: nat)
    requires s < |dims| && off + 4 * Sum(Sizes(dims, n)[..s + 1]) > |data|
    ensures forall i :: s < i < |dims| ==> CodebooksAt(data, off, dims, n)[i] == []
    ensures off + 4 * Sum(Sizes(dims, n)) > |data|
  {
    var sizes := Sizes(dims, n);
    forall i | s < i < |dims|
      ensures CodebooksAt(data, off, dims, n)[i] == []
    {
      SumMono(sizes, s + 1, i);
    }
    SumMono(sizes, s + 1, |dims|);
    assert sizes[..|dims|] == sizes;
  }

  /**
   * Reading back a written codebook section gives the first n centroids of
   * every codebook, cut to its width, and the read does not run out.
   */
  lemma CodebooksRoundTrip(prefix: seq<byte>, cbs: Codebooks, dims: seq<nat>, n: nat)
    requires Covers(cbs, dims, n)
    ensures |prefix| + 4 * Sum(Sizes(dims, n)) == |prefix + Words(Layout(cbs, dims, n))|
    ensures CodebooksAt(prefix + Words(Layout(cbs, dims, n)), |prefix|, dims, n) == Trim(cbs, dims, n)
  {
    LayoutLength(cbs, dims, n);
    forall s | 0 <= s < |dims|
      ensures CodebooksAt(prefix + Words(Layout(cbs, dims, n)), |prefix|, dims, n)[s] == Trim(cbs, dims, n)[s]
    {
      CodebookRoundTrip(prefix, cbs, dims, n, s);
    }
  }

  lemma CodebookRoundTrip(prefix: seq<byte>, cbs: Codebooks, dims: seq<nat>, n: nat, s: nat)
    requires Covers(cbs, dims, n) && s < |dims|
    ensures CodebooksAt(prefix + Words(Layout(cbs, dims, n)), |prefix|, dims, n)[s] == Trim(cbs, dims, n)[s]
  {
    var layout := Layout(cbs, dims, n);
    var data := prefix + Words(layout);
    var sizes := Sizes(dims, n);
    var w := dims[s];
    var base := Sum(sizes[..s]);
    LayoutLength(cbs, dims, n);
    SumMono(sizes, s, |dims|);
    assert sizes[..|dims|] == sizes;
    var got := CodebookAt(data, |prefix| + 4 * base, n, w);
    forall c | 0 <= c < n
      ensures got[c] == cbs[s][c][..w]
    {
      CentroidRoundTrip(prefix, cbs, dims, n, s, c);
    }
    assert got == Rows(cbs[s], n, w);
    assert |prefix| + 4 * base <= |data|;
    CodebooksAtIndex(data, |prefix|, dims, n, s);
    assert Trim(cbs, dims, n)[s] == Rows(cbs[s], n, w);
  }

  lemma CodebooksAtIndex(data: seq<byte>, off: nat, dims: seq<nat>, n: nat, s: nat)
    requires s < |dims| && off + 4 * Sum(Sizes(dims, n)[..s]) <= |data|
    ensures CodebooksAt(data, off, dims, n)[s] == CodebookAt(data, off + 4 * Sum(Sizes(dims, n)[..s]), n, dims[s])
  {
  }

  lemma CentroidRoundTrip(prefix: seq<byte>, cbs: Codebooks, dims: seq<nat>, n: nat, s: nat, c: nat)
    requires Covers(cbs, dims, n) && s < |dims| && c < n
    ensures var base := |prefix| + 4 * Sum(Sizes(dims, n)[..s]);
      CodebookAt(prefix + Words(Layout(cbs, dims, n)), base, n, dims[s])[c] == cbs[s][c][..dims[s]]
  {
    var layout := Layout(cbs, dims, n);
    var data := prefix + Words(layout);
    var w := dims[s];
    var base := Sum(Sizes(dims, n)[..s]);
    var start := base + Times(c, w);
    CentroidFits(cbs, dims, n, s, c);
    var off := |prefix| + 4 * start;
    forall j | 0 <= j < w
      ensures WordAt(data, off + 4 * j) == cbs[s][c][j]
    {
      LayoutIndex(cbs, dims, n, s, c, j);
      WordAtWords(prefix, layout, start + j);
    }
    RowAtWords(data, off, w, cbs[s][c]);
    CodebookAtIndex(data, |prefix| + 4 * base, n, w, c);
  }

  lemma CodebookAtIndex(data: seq<byte>, off: nat, n: nat, w: nat, c: nat)
    requires c < n && off + 4 * Times(c, w) <= |data|
    ensures CodebookAt(data, off, n, w)[c] == RowAt(data, off + 4 * Times(c, w), w)
  {
  }

  /** Centroid c of codebook s lies inside the section. */
  lemma CentroidFits(cbs: Codebooks, dims: seq<nat>, n: nat, s: nat, c: nat)
    requires Covers(cbs, dims, n) && s < |dims| && c < n
    ensures Sum(Sizes(dims, n)[..s]) + Times(c, dims[s]) + dims[s] <= |Layout(cbs, dims, n)|
  {
    if dims[s] == 0 {
      LayoutLength(cbs, dims, n);
      SumMono(Sizes(dims, n), s, |dims|);
      assert Sizes(dims, n)[..|dims|] == Sizes(dims, n);
    } else {
      LayoutIndex(cbs, dims, n, s, c, dims[s] - 1);
    }
  }

  /** The words at the front of a laid-out sequence read back. */
  lemma WordsFront(ws: seq<Word>, rest: seq<Word>)
    ensures 4 * |ws| <= |Words(ws + rest)|
    ensures RowAt(Words(ws + rest), 0, |ws|) == ws
  {
    var data := Words(ws + rest);
    var row := RowAt(data, 0, |ws|);
    forall j | 0 <= j < |ws|
      ensures row[j] == ws[j]
    {
      WordAtFront(ws + rest, j);
      assert row[j] == WordOrZero(data, 0 + 4 * j);
    }
  }

  lemma WordAtFront(ws: seq<Word>, i: nat)
    requires i < |ws|
    ensures 4 * i + 4 <= |Words(ws)|
    ensures WordAt(Words(ws), 4 * i) == ws[i]
  {
    WordAtWords([], ws, i);
    assert [] + Words(ws) == Words(ws);
  }

  /** A row whose words all read back is what RowAt gives. */
  lemma RowAtWords(data: seq<byte>, off: nat, w: nat, row: seq<Word>)
    requires off + 4 * w <= |data| && |row| >= w
    requires forall j :: 0 <= j < w ==> WordAt(data, off + 4 * j) == row[j]
    ensures RowAt(data, off, w) == row[..w]
  {
  }
}
