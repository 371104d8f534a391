// Hybrid search (pkg/search/hybrid.go): a vector result list and a full-text
// result list are fused, by Reciprocal Rank Fusion or by a weighted sum of
// normalised scores, into one list sorted by the fused score and cut to k.
// The vector index is not part of this model: each search takes the outcome
// of its vector search (the result list, or the error) as a parameter.
module SearchHybrid {
  import opened Wrappers
  import opened SearchFilter
  import opened Sorting
  import opened Ranking
  import opened HnswSelect
  import opened SearchTokenize
  import opened SearchFullText

  datatype HybridResult = HybridResult(id: nat, vectorScore: real, textScore: real, fusedScore: real,
                                       metadata: Option<Metadata>)

  function FusedScore(x: HybridResult): real
  {
    x.fusedScore
  }

  /** The two fusion methods with their parameters. */
  datatype Fusion = RRF(k: int, alpha: real, beta: real) | Weighted(alpha: real, beta: real)

  /** A Go map filled by `m[key] = value` for each pair in order: a later pair for a key overwrites an earlier one. */
  function Assigned<V>(s: seq<(nat, V)>): map<nat, V>
  {
    if s == [] then map[] else Assigned(s[..|s| - 1])[s[|s| - 1].0 := s[|s| - 1].1]
  }

  /** The keys of the map are the keys of the pairs. */
  lemma {:induction false} AssignedKeys<V>(s: seq<(nat, V)>)
    ensures Assigned(s).Keys == set i | 0 <= i < |s| :: s[i].0
  {
    if s != [] {
      var p := s[..|s| - 1];
      AssignedKeys(p);
      var all := set i | 0 <= i < |s| :: s[i].0;
      var front := set i | 0 <= i < |p| :: p[i].0;
      forall x ensures x in all <==> x in front || x == s[|s| - 1].0 {
        if x in all {
          var i :| 0 <= i < |s| && s[i].0 == x;
          if i < |p| {
            assert p[i].0 == x;
          }
        }
        if x in front {
          var i :| 0 <= i < |p| && p[i].0 == x;
          assert s[i].0 == x;
        }
      }
    }
  }

  /** The last pair for a key decides its value. */
  lemma {:induction false} AssignedLast<V>(s: seq<(nat, V)>, i: nat)
    requires i < |s| && forall j :: i < j < |s| ==> s[j].0 != s[i].0
    ensures s[i].0 in Assigned(s) && Assigned(s)[s[i].0] == s[i].1
  {
    if i < |s| - 1 {
      AssignedLast(s[..|s| - 1], i);
    }
  }

  /** Every value of the map is the value of one of the pairs for its key. */
  lemma {:induction false} AssignedFrom<V>(s: seq<(nat, V)>, key: nat)
    requires key in Assigned(s)
    ensures exists i :: 0 <= i < |s| && s[i] == (key, Assigned(s)[key])
  {
    var p := s[..|s| - 1];
    if s[|s| - 1].0 != key {
      AssignedFrom(p, key);
      var i :| 0 <= i < |p| && p[i] == (key, Assigned(p)[key]);
      assert s[i] == p[i];
    }
  }

  /** The ids a list contains. */
  function IdSet(ids: seq<nat>): set<nat>
  {
    set i | 0 <= i < |ids| :: ids[i]
  }

  function TextIds(ts: seq<FullTextResult>): (r: seq<nat>)
    ensures |r| == |ts| && forall i :: 0 <= i < |ts| ==> r[i] == ts[i].id
  {
    seq(|ts|, i requires 0 <= i < |ts| => ts[i].id)
  }

  /** The fusion candidates: every id of either list, once. */
  function Candidates(vs: seq<Candidate>, ts: seq<FullTextResult>): set<nat>
  {
    IdSet(Ids(vs)) + IdSet(TextIds(ts))
  }

  /** Each id with its 1-based position in the list. */
  function RankPairs(ids: seq<nat>): (r: seq<(nat, int)>)
    ensures |r| == |ids| && forall i :: 0 <= i < |ids| ==> r[i] == (ids[i], i + 1)
  {
    seq(|ids|, i requires 0 <= i < |ids| => (ids[i], i + 1))
  }

  /** The rank map of a result list. */
  function Ranks(ids: seq<nat>): map<nat, int>
  {
    Assigned(RankPairs(ids))
  }

  /** An id has a rank exactly when it is listed. */
  lemma {:induction false} RanksKeys(ids: seq<nat>)
    ensures Ranks(ids).Keys == IdSet(ids)
  {
    AssignedKeys(RankPairs(ids));
    assert forall i :: 0 <= i < |ids| ==> RankPairs(ids)[i].0 == ids[i];
  }

  /** The rank of an id is one more than the position of its last occurrence. */
  lemma {:induction false} RankOfLast(ids: seq<nat>, i: nat)
    requires i < |ids| && forall j :: i < j < |ids| ==> ids[j] != ids[i]
    ensures ids[i] in Ranks(ids) && Ranks(ids)[ids[i]] == i + 1
  {
    AssignedLast(RankPairs(ids), i);
  }

  /** Ranks run from 1 to the length of the list. */
  lemma {:induction false} RanksRange(ids: seq<nat>, id: nat)
    requires id in Ranks(ids)
    ensures 1 <= Ranks(ids)[id] <= |ids| && ids[Ranks(ids)[id] - 1] == id
  {
    AssignedFrom(RankPairs(ids), id);
  }

  /** w / d as the fusion divides; Go's division by a zero sum gives an infinity, which the model replaces by 0. */
  function Share(w: real, d: int): real
  {
    if d == 0 then 0.0 else w / d as real
  }

  /** The RRF score: alpha/(k + vector rank) plus beta/(k + text rank), each only for a list the id is in. */
  function RRFScore(alpha: real, beta: real, k: int, vr: map<nat, int>, tr: map<nat, int>, id: nat): real
  {
    (if id in vr then Share(alpha, k + vr[id]) else 0.0) + (if id in tr then Share(beta, k + tr[id]) else 0.0)
  }

  /** With non-negative weights and k, an RRF score lies between 0 and alpha/(k+1) + beta/(k+1), the score of rank 1 in both lists. */
  lemma {:induction false} RRFBounds(alpha: real, beta: real, k: int, vs: seq<Candidate>, ts: seq<FullTextResult>, id: nat)
    requires alpha >= 0.0 && beta >= 0.0 && k >= 0
    ensures var s := RRFScore(alpha, beta, k, Ranks(Ids(vs)), Ranks(TextIds(ts)), id);
      0.0 <= s <= alpha / (k + 1) as real + beta / (k + 1) as real
  {
    var vr := Ranks(Ids(vs));
    var tr := Ranks(TextIds(ts));
    if id in vr {
      RanksRange(Ids(vs), id);
      ShareBound(alpha, k, vr[id]);
    }
    if id in tr {
      RanksRange(TextIds(ts), id);
      ShareBound(beta, k, tr[id]);
    }
  }

  lemma ShareBound(w: real, k: int, rank: int)
    requires w >= 0.0 && k >= 0 && rank >= 1
    ensures 0.0 <= Share(w, k + rank) <= w / (k + 1) as real
  {
    var d := (k + rank) as real;
    var e := (k + 1) as real;
    assert d >= e > 0.0;
    assert w / d * d == w && w / e * e == w;
    assert w / d * e <= w / d * d;
  }

  /** The distance of the first vector result with this id, 0 when there is none (the search loop stops at the first match). */
  function FirstDistance(vs: seq<Candidate>, id: nat): real
  {
    if vs == [] then 0.0 else if vs[0].id == id then vs[0].distance else FirstDistance(vs[1..], id)
  }

  /** The score of the first text result with this id, 0 when there is none. */
  function FirstScore(ts: seq<FullTextResult>, id: nat): real
  {
    if ts == [] then 0.0 else if ts[0].id == id then ts[0].score else FirstScore(ts[1..], id)
  }

  /** FirstDistance is the distance at the first occurrence, and 0 for an absent id. */
  lemma {:induction false} FirstDistanceAt(vs: seq<Candidate>, id: nat)
    ensures (forall i :: 0 <= i < |vs| ==> vs[i].id != id) ==> FirstDistance(vs, id) == 0.0
    ensures forall i :: 0 <= i < |vs| && vs[i].id == id && (forall j :: 0 <= j < i ==> vs[j].id != id) ==>
      FirstDistance(vs, id) == vs[i].distance
  {
    if vs != [] {
      var rest := vs[1..];
      FirstDistanceAt(rest, id);
      assert forall i :: 1 <= i < |vs| ==> rest[i - 1] == vs[i];
    }
  }

  /** FirstScore is the score at the first occurrence, and 0 for an absent id. */
  lemma {:induction false} FirstScoreAt(ts: seq<FullTextResult>, id: nat)
    ensures (forall i :: 0 <= i < |ts| ==> ts[i].id != id) ==> FirstScore(ts, id) == 0.0
    ensures forall i :: 0 <= i < |ts| && ts[i].id == id && (forall j :: 0 <= j < i ==> ts[j].id != id) ==>
      FirstScore(ts, id) == ts[i].score
  {
    if ts != [] {
      FirstScoreAt(ts[1..], id);
      assert forall i :: 1 <= i < |ts| ==> ts[1..][i - 1] == ts[i];
    }
  }

  /** The metadata of the stored document, or nil. */
  function MetadataOf(docs: map<nat, Document>, id: nat): Option<Metadata>
  {
    if id in docs then Some(docs[id].metadata) else None
  }

  /** The largest distance, starting from 0 as the scan does. */
  function MaxDistance(vs: seq<Candidate>): (m: real)
    ensures m >= 0.0 && forall i :: 0 <= i < |vs| ==> vs[i].distance <= m
    ensures m == 0.0 || exists i :: 0 <= i < |vs| && vs[i].distance == m
  {
    if vs == [] then 0.0
    else
      var m := MaxDistance(vs[..|vs| - 1]);
      assert forall i :: 0 <= i < |vs| - 1 ==> vs[..|vs| - 1][i] == vs[i];
      if vs[|vs| - 1].distance > m then vs[|vs| - 1].distance else m
  }

  /** The largest text score, starting from 0 as the scan does. */
  function MaxScore(ts: seq<FullTextResult>): (m: real)
    ensures m >= 0.0 && forall i :: 0 <= i < |ts| ==> ts[i].score <= m
    ensures m == 0.0 || exists i :: 0 <= i < |ts| && ts[i].score == m
  {
    if ts == [] then 0.0
    else
      var m := MaxScore(ts[..|ts| - 1]);
      assert forall i :: 0 <= i < |ts| - 1 ==> ts[..|ts| - 1][i] == ts[i];
      if ts[|ts| - 1].score > m then ts[|ts| - 1].score else m
  }

  /** A distance normalised and inverted: 1 - d/maxD, or 1 when the largest distance is 0. */
  function VectorNorm(d: real, maxD: real): real
  {
    if maxD > 0.0 then 1.0 - d / maxD else 1.0
  }

  /** A text score normalised: s/maxS, or 1 when the largest score is 0. */
  function TextNorm(s: real, maxS: real): real
  {
    if maxS > 0.0 then s / maxS else 1.0
  }

  /** A normalised distance lies in [0, 1]: the farthest result scores 0 and a zero distance 1. */
  lemma VectorNormBounds(d: real, maxD: real)
    requires 0.0 <= d <= maxD
    ensures 0.0 <= VectorNorm(d, maxD) <= 1.0
    ensures maxD > 0.0 && d == maxD ==> VectorNorm(d, maxD) == 0.0
    ensures d == 0.0 ==> VectorNorm(d, maxD) == 1.0
  {
    if maxD > 0.0 {
      DivUnit(d, maxD);
      DivSelf(maxD);
    }
  }

  lemma DivUnit(d: real, m: real)
    requires 0.0 <= d <= m && m > 0.0
    ensures 0.0 <= d / m <= 1.0
  {
    var q := d / m;
    assert q * m == d;
    assert (1.0 - q) * m == m - d;
  }

  lemma DivSelf(m: real)
    requires m > 0.0
    ensures m / m == 1.0
  {
  }

  /** A normalised text score lies in [0, 1]: the best result scores 1. */
  lemma TextNormBounds(s: real, maxS: real)
    requires 0.0 <= s <= maxS
    ensures 0.0 <= TextNorm(s, maxS) <= 1.0
    ensures maxS > 0.0 && s == maxS ==> TextNorm(s, maxS) == 1.0
  {
    if maxS > 0.0 {
      DivUnit(s, maxS);
      DivSelf(maxS);
    }
  }

  function VectorPairs(vs: seq<Candidate>, maxD: real): (r: seq<(nat, real)>)
    ensures |r| == |vs| && forall i :: 0 <= i < |vs| ==> r[i] == (vs[i].id, VectorNorm(vs[i].distance, maxD))
  {
    seq(|vs|, i requires 0 <= i < |vs| => (vs[i].id, VectorNorm(vs[i].distance, maxD)))
  }

  function TextPairs(ts: seq<FullTextResult>, maxS: real): (r: seq<(nat, real)>)
    ensures |r| == |ts| && forall i :: 0 <= i < |ts| ==> r[i] == (ts[i].id, TextNorm(ts[i].score, maxS))
  {
    seq(|ts|, i requires 0 <= i < |ts| => (ts[i].id, TextNorm(ts[i].score, maxS)))
  }

  /** The normalised vector score of each listed id (the last of its results). */
  function VectorScores(vs: seq<Candidate>): map<nat, real>
  {
    Assigned(VectorPairs(vs, MaxDistance(vs)))
  }

  /** The normalised text score of each listed id (the last of its results). */
  function TextScores(ts: seq<FullTextResult>): map<nat, real>
  {
    Assigned(TextPairs(ts, MaxScore(ts)))
  }

  /** The weighted score: alpha times the normalised vector score plus beta times the normalised text score, 0 for a list the id is not in. */
  function WeightedScore(alpha: real, beta: real, vs: seq<Candidate>, ts: seq<FullTextResult>, id: nat): real
  {
    Blend(alpha, beta, Get(VectorScores(vs), id), Get(TextScores(ts), id))
  }

  /** alpha·v + beta·t, the weighted mix of a vector score and a text score. */
  function Blend(alpha: real, beta: real, v: real, t: real): real
  {
    alpha * v + beta * t
  }

  /** With non-negative distances, every normalised vector score lies in [0, 1]. */
  lemma {:induction false} VectorScoreRange(vs: seq<Candidate>, id: nat)
    requires forall i :: 0 <= i < |vs| ==> vs[i].distance >= 0.0
    ensures 0.0 <= Get(VectorScores(vs), id) <= 1.0
  {
    var maxD := MaxDistance(vs);
    if id in VectorScores(vs) {
      AssignedFrom(VectorPairs(vs, maxD), id);
      var i :| 0 <= i < |vs| && VectorPairs(vs, maxD)[i] == (id, VectorScores(vs)[id]);
      VectorNormBounds(vs[i].distance, maxD);
    }
  }

  /** With non-negative text scores, every normalised text score lies in [0, 1]. */
  lemma {:induction false} TextScoreRange(ts: seq<FullTextResult>, id: nat)
    requires forall i :: 0 <= i < |ts| ==> ts[i].score >= 0.0
    ensures 0.0 <= Get(TextScores(ts), id) <= 1.0
  {
    var maxS := MaxScore(ts);
    if id in TextScores(ts) {
      AssignedFrom(TextPairs(ts, maxS), id);
      var i :| 0 <= i < |ts| && TextPairs(ts, maxS)[i] == (id, TextScores(ts)[id]);
      TextNormBounds(ts[i].score, maxS);
    }
  }

  /** With non-negative weights, distances and text scores, a weighted score lies in [0, alpha + beta]. */
  lemma {:induction false} WeightedBounds(alpha: real, beta: real, vs: seq<Candidate>, ts: seq<FullTextResult>, id: nat)
    requires alpha >= 0.0 && beta >= 0.0
    requires forall i :: 0 <= i < |vs| ==> vs[i].distance >= 0.0
    requires forall i :: 0 <= i < |ts| ==> ts[i].score >= 0.0
    ensures 0.0 <= WeightedScore(alpha, beta, vs, ts, id) <= alpha + beta
  {
    var v := Get(VectorScores(vs), id);
    var t := Get(TextScores(ts), id);
    VectorScoreRange(vs, id);
    TextScoreRange(ts, id);
    Combine(alpha, beta, v, t);
  }

  lemma Combine(alpha: real, beta: real, v: real, t: real)
    requires alpha >= 0.0 && beta >= 0.0 && 0.0 <= v <= 1.0 && 0.0 <= t <= 1.0
    ensures 0.0 <= Blend(alpha, beta, v, t) <= alpha + beta
  {
    assert alpha * v >= 0.0 && beta * t >= 0.0;
    assert alpha * (1.0 - v) == alpha - alpha * v;
    assert beta * (1.0 - t) == beta - beta * t;
    assert alpha * (1.0 - v) >= 0.0 && beta * (1.0 - t) >= 0.0;
  }

  /** The fused score of a candidate. */
  function FusedOf(f: Fusion, vs: seq<Candidate>, ts: seq<FullTextResult>, id: nat): real
  {
    match f
    case RRF(k, alpha, beta) => RRFScore(alpha, beta, k, Ranks(Ids(vs)), Ranks(TextIds(ts)), id)
    case Weighted(alpha, beta) => WeightedScore(alpha, beta, vs, ts, id)
  }

  /** The result record of a candidate: its first distance, its first text score, its fused score and its metadata. */
  function Record(f: Fusion, vs: seq<Candidate>, ts: seq<FullTextResult>, docs: map<nat, Document>, id: nat): HybridResult
  {
    HybridResult(id, FirstDistance(vs, id), FirstScore(ts, id), FusedOf(f, vs, ts, id), MetadataOf(docs, id))
  }

  /**
   * What fusion returns: min(topK, number of candidates) records sorted by
   * descending fused score, each the record of a candidate, no candidate
   * twice, and every candidate left out scoring no higher than any record.
   */
  ghost predicate Selected(r: seq<HybridResult>, f: Fusion, vs: seq<Candidate>, ts: seq<FullTextResult>,
                           docs: map<nat, Document>, topK: nat)
  {
    var ids := Candidates(vs, ts);
    |r| == Min(topK, |ids|) &&
    SortedDesc(r, FusedScore) &&
    (forall i :: 0 <= i < |r| ==> r[i].id in ids && r[i] == Record(f, vs, ts, docs, r[i].id)) &&
    (forall i, j :: 0 <= i < j < |r| ==> r[i].id != r[j].id) &&
    (forall id :: id in ids && (forall i :: 0 <= i < |r| ==> r[i].id != id) ==>
      forall i :: 0 <= i < |r| ==> FusedOf(f, vs, ts, id) <= r[i].fusedScore)
  }

  /** With no more candidates than topK, every candidate is returned. */
  lemma {:induction false} SelectedAll(r: seq<HybridResult>, f: Fusion, vs: seq<Candidate>, ts: seq<FullTextResult>,
                    docs: map<nat, Document>, topK: nat)
    requires Selected(r, f, vs, ts, docs, topK) && |Candidates(vs, ts)| <= topK
    ensures forall id :: id in Candidates(vs, ts) ==> exists i :: 0 <= i < |r| && r[i].id == id
  {
    var ids := Candidates(vs, ts);
    var got := set i | 0 <= i < |r| :: r[i].id;
    DistinctIdCount(r);
    assert got <= ids;
    SubsetSize(got, ids);
    forall id | id in ids ensures exists i :: 0 <= i < |r| && r[i].id == id {
      assert id in got;
    }
  }

  /** Records with distinct ids have as many ids as records. */
  lemma {:induction false} DistinctIdCount(r: seq<HybridResult>)
    requires forall i, j :: 0 <= i < j < |r| ==> r[i].id != r[j].id
    ensures |set i | 0 <= i < |r| :: r[i].id| == |r|
  {
    if r != [] {
      var p := r[..|r| - 1];
      DistinctIdCount(p);
      var a := set i | 0 <= i < |p| :: p[i].id;
      var b := set i | 0 <= i < |r| :: r[i].id;
      forall x ensures x in b <==> x in a || x == r[|r| - 1].id {
        if x in b {
          var i :| 0 <= i < |r| && r[i].id == x;
          if i < |p| {
            assert p[i].id == x;
          }
        }
        if x in a {
          var i :| 0 <= i < |p| && p[i].id == x;
          assert r[i].id == x;
        }
      }
      assert b == a + {r[|r| - 1].id};
      assert r[|r| - 1].id !in a;
    }
  }

  /** A subset as large as its superset is the superset. */
  lemma {:induction false} SubsetSize(a: set<nat>, b: set<nat>)
    requires a <= b && |a| >= |b|
    ensures a == b
  {
    if a != b {
      var x :| x in b && x !in a;
      SubsetCard(a, b - {x});
    }
  }

  lemma {:induction false} SubsetCard(a: set<nat>, b: set<nat>)
    requires a <= b
    ensures |a| <= |b|
    decreases a
  {
    if a != {} {
      var x :| x in a;
      SubsetCard(a - {x}, b - {x});
    }
  }

  /** Sorting the records of every candidate and keeping the first topK selects them. */
  lemma {:induction false} RecordsSelected(ids: seq<nat>, rs: seq<HybridResult>, f: Fusion, vs: seq<Candidate>, ts: seq<FullTextResult>,
                        docs: map<nat, Document>, topK: nat)
    requires Distinct(ids) && |ids| == |Candidates(vs, ts)| && forall x :: x in ids <==> x in Candidates(vs, ts)
    requires |rs| == |ids| && forall j :: 0 <= j < |ids| ==> rs[j] == Record(f, vs, ts, docs, ids[j])
    ensures Selected(SortDesc(rs, FusedScore)[..Min(topK, |rs|)], f, vs, ts, docs, topK)
  {
    RecordsOfCandidates(ids, rs, f, vs, ts, docs);
    var r := SortDesc(rs, FusedScore)[..Min(topK, |rs|)];
    TopKSelects(rs, topK, FusedScore);
    TopKDistinct(rs, topK, FusedScore);
    SelectedFrom(rs, r, f, vs, ts, docs, topK);
  }

  /** One record per candidate: no record twice, each the record of its candidate, and every candidate has one. */
  lemma {:induction false} RecordsOfCandidates(ids: seq<nat>, rs: seq<HybridResult>, f: Fusion, vs: seq<Candidate>, ts: seq<FullTextResult>,
                            docs: map<nat, Document>)
    requires Distinct(ids) && forall x :: x in ids <==> x in Candidates(vs, ts)
    requires |rs| == |ids| && forall j :: 0 <= j < |ids| ==> rs[j] == Record(f, vs, ts, docs, ids[j])
    ensures Distinct(rs)
    ensures forall x :: x in rs ==> x.id in Candidates(vs, ts) && x == Record(f, vs, ts, docs, x.id)
    ensures forall id :: id in Candidates(vs, ts) ==> exists x :: x in rs && x.id == id
  {
    assert forall j :: 0 <= j < |ids| ==> rs[j].id == ids[j];
    forall a, c | 0 <= a < c < |rs| ensures rs[a] != rs[c] {
      assert ids[a] != ids[c];
    }
    forall x | x in rs ensures x.id in Candidates(vs, ts) && x == Record(f, vs, ts, docs, x.id) {
      var j :| 0 <= j < |rs| && rs[j] == x;
      assert ids[j] in ids;
    }
    forall id | id in Candidates(vs, ts) ensures exists x :: x in rs && x.id == id {
      var j :| 0 <= j < |ids| && ids[j] == id;
      assert rs[j] in rs;
    }
  }

  /** Selected follows from the records and from the top-k selection over them. */
  lemma {:induction false} SelectedFrom(rs: seq<HybridResult>, r: seq<HybridResult>, f: Fusion, vs: seq<Candidate>, ts: seq<FullTextResult>,
                     docs: map<nat, Document>, topK: nat)
    requires |rs| == |Candidates(vs, ts)| && |r| == Min(topK, |rs|) && SortedDesc(r, FusedScore) && Distinct(r)
    requires forall x :: x in r ==> x in rs
    requires forall x :: x in rs ==> x.id in Candidates(vs, ts) && x == Record(f, vs, ts, docs, x.id)
    requires forall x :: x in rs && x !in r ==> forall i :: 0 <= i < |r| ==> FusedScore(x) <= FusedScore(r[i])
    requires forall id :: id in Candidates(vs, ts) ==> exists x :: x in rs && x.id == id
    ensures Selected(r, f, vs, ts, docs, topK)
  {
    forall i, j | 0 <= i < j < |r| ensures r[i].id != r[j].id {
      assert r[i] in r && r[j] in r;
    }
    forall id | id in Candidates(vs, ts) && (forall i :: 0 <= i < |r| ==> r[i].id != id)
      ensures forall i :: 0 <= i < |r| ==> FusedOf(f, vs, ts, id) <= r[i].fusedScore
    {
      var x :| x in rs && x.id == id;
      assert x !in r;
    }
  }

  /** VectorOnlySearch's record of a vector result: the negated distance is the fused score. */
  function VectorRecord(docs: map<nat, Document>, v: Candidate): HybridResult
  {
    HybridResult(v.id, v.distance, 0.0, -v.distance, MetadataOf(docs, v.id))
  }

  /** TextOnlySearch's record of a text result: the text score is the fused score. */
  function TextRecord(t: FullTextResult): HybridResult
  {
    HybridResult(t.id, 0.0, t.score, t.score, Some(t.document.metadata))
  }

  /** Vector results in order of increasing distance give records in order of decreasing fused score. */
  lemma {:induction false} VectorOnlySorted(docs: map<nat, Document>, vs: seq<Candidate>, r: seq<HybridResult>)
    requires forall i, j :: 0 <= i < j < |vs| ==> vs[i].distance <= vs[j].distance
    requires |r| == |vs| && forall i :: 0 <= i < |vs| ==> r[i] == VectorRecord(docs, vs[i])
    ensures SortedDesc(r, FusedScore)
  {
  }

  /** Text results sorted by score give records sorted by fused score, with the same ids in the same order. */
  lemma {:induction false} TextOnlySorted(ts: seq<FullTextResult>, r: seq<HybridResult>)
    requires SortedDesc(ts, ResultScore)
    requires |r| == |ts| && forall i :: 0 <= i < |ts| ==> r[i] == TextRecord(ts[i])
    ensures SortedDesc(r, FusedScore) && forall i :: 0 <= i < |r| ==> r[i].id == ts[i].id && r[i].textScore == ts[i].score
  {
    forall i, j | 0 <= i < j < |r| ensures FusedScore(r[i]) >= FusedScore(r[j]) {
      assert ResultScore(ts[i]) >= ResultScore(ts[j]);
    }
  }

  /** The vector results SearchWithFilter keeps: those whose document is stored and passes the filter. */
  function Kept(vs: seq<Candidate>, docs: map<nat, Document>, filter: Option<Metadata -> bool>): seq<Candidate>
  {
    if vs == [] then []
    else
      var p := Kept(vs[..|vs| - 1], docs, filter);
      var v := vs[|vs| - 1];
      if v.id in docs && Passes(filter, docs[v.id]) then p + [v] else p
  }

  /** A vector result is kept exactly when its document is stored and passes the filter. */
  lemma {:induction false} KeptIff(vs: seq<Candidate>, docs: map<nat, Document>, filter: Option<Metadata -> bool>)
    ensures forall v :: v in Kept(vs, docs, filter) <==> v in vs && v.id in docs && Passes(filter, docs[v.id])
    ensures |Kept(vs, docs, filter)| <= |vs|
  {
    if vs != [] {
      var p := vs[..|vs| - 1];
      KeptIff(p, docs, filter);
      assert vs == p + [vs[|vs| - 1]];
    }
  }

  /** What the full-text Search and SearchWithFilter return for `query` on `c`. */
  ghost predicate TextHits(t: seq<FullTextResult>, c: Corpus, query: string, k: nat,
                           contribution: (string, nat) -> real, filter: Option<Metadata -> bool>)
  {
    if c.docCount == 0 || Tokenize(query) == [] then t == []
    else Ranked(t, ScoreMap(Tokenize(query), c.invertedIndex, c.documents, contribution, filter), c.documents, k)
  }

  class HybridSearch {
    const textIndex: FullTextIndex
    var k: int
    var alpha: real
    var beta: real
    var useRRF: bool

    /** NewHybridSearch: k = 60, alpha = beta = 0.5, RRF fusion. */
    constructor (textIndex: FullTextIndex)
      ensures this.textIndex == textIndex && k == 60 && alpha == 0.5 && beta == 0.5 && useRRF
    {
      this.textIndex := textIndex;
      k := 60;
      alpha := 0.5;
      beta := 0.5;
      useRRF := true;
    }

    method SetRRFParameter(k: int)
      modifies this`k
      ensures this.k == k
    {
      this.k := k;
    }

    method SetWeights(alpha: real, beta: real)
      modifies this`alpha, this`beta
      ensures this.alpha == alpha && this.beta == beta
    {
      this.alpha := alpha;
      this.beta := beta;
    }

    method SetFusionMethod(useRRF: bool)
      modifies this`useRRF
      ensures this.useRRF == useRRF
    {
      this.useRRF := useRRF;
    }

    /** The fusion the current settings select. */
    function Method(): Fusion
      reads this
    {
      if useRRF then RRF(k, alpha, beta) else Weighted(alpha, beta)
    }

    /**
     * Search: a failed vector search falls back to the text-only search for
     * k; otherwise the vector results are fused with the text results for
     * 2k by the selected method.
     */
    method Search(vector: Result<seq<Candidate>>, queryText: string, k: int, contribution: (string, nat) -> real)
      returns (r: seq<HybridResult>, ghost text: seq<FullTextResult>)
      requires textIndex.Valid() && k >= 0
      ensures vector.Err? ==>
        TextHits(text, textIndex.corpus, queryText, k, contribution, None) &&
        r == seq(|text|, i requires 0 <= i < |text| => TextRecord(text[i]))
      ensures vector.Ok? ==>
        TextHits(text, textIndex.corpus, queryText, 2 * k, contribution, None) &&
        Selected(r, Method(), vector.value, text, textIndex.corpus.documents, k)
    {
      if vector.Err? {
        r, text := TextOnlySearch(queryText, k, contribution);
        return;
      }
      var ts := textIndex.SearchWithFilter(queryText, 2 * k, contribution, None);
      text := ts;
      if useRRF {
        r := ReciprocalRankFusion(vector.value, ts, k);
      } else {
        r := WeightedCombination(vector.value, ts, k);
      }
    }

    /**
     * SearchWithFilter: the vector results (none when the vector search
     * failed) are kept when their document is stored and passes the filter,
     * and fused with the filtered text results for 2k.
     */
    method SearchWithFilter(vector: Result<seq<Candidate>>, queryText: string, k: int,
                            contribution: (string, nat) -> real, filter: Option<Metadata -> bool>)
      returns (r: seq<HybridResult>, ghost text: seq<FullTextResult>)
      requires textIndex.Valid() && k >= 0
      ensures TextHits(text, textIndex.corpus, queryText, 2 * k, contribution, filter)
      ensures Selected(r, Method(), Kept(if vector.Ok? then vector.value else [], textIndex.corpus.documents, filter),
                       text, textIndex.corpus.documents, k)
    {
      var vectorResults := if vector.Ok? then vector.value else [];
      var ts := textIndex.SearchWithFilter(queryText, 2 * k, contribution, filter);
      text := ts;
      var kept := KeepStored(vectorResults, textIndex.corpus.documents, filter);
      if useRRF {
        r := ReciprocalRankFusion(kept, ts, k);
      } else {
        r := WeightedCombination(kept, ts, k);
      }
    }

    /** The filtering loop of SearchWithFilter. */
    static method KeepStored(vs: seq<Candidate>, docs: map<nat, Document>, filter: Option<Metadata -> bool>)
      returns (r: seq<Candidate>)
      ensures r == Kept(vs, docs, filter)
    {
      r := [];
      var i := 0;
      while i < |vs|
        invariant 0 <= i <= |vs| && r == Kept(vs[..i], docs, filter)
      {
        var v := vs[i];
        assert vs[..i + 1][..i] == vs[..i];
        if v.id in docs && (filter.None? || filter.value(docs[v.id].metadata)) {
          r := r + [v];
        }
        i := i + 1;
      }
      assert vs[..i] == vs;
    }

    /** reciprocalRankFusion. */
    method ReciprocalRankFusion(vs: seq<Candidate>, ts: seq<FullTextResult>, topK: int) returns (r: seq<HybridResult>)
      requires topK >= 0
      ensures Selected(r, RRF(k, alpha, beta), vs, ts, textIndex.corpus.documents, topK)
    {
      var docs := textIndex.corpus.documents;
      var f := RRF(k, alpha, beta);
      var vr := BuildMap(RankPairs(Ids(vs)));
      var tr := BuildMap(RankPairs(TextIds(ts)));
      RanksKeys(Ids(vs));
      RanksKeys(TextIds(ts));
      var ids := Enumerate(vr.Keys + tr.Keys);
      var results := RankRecords(f, vs, ts, docs, vr, tr, ids);
      r := TopK(results, topK, FusedScore);
      RecordsSelected(ids, results, f, vs, ts, docs, topK);
    }

    /** The loop of reciprocalRankFusion over the candidates: the RRF score of each from the two rank maps. */
    static method RankRecords(f: Fusion, vs: seq<Candidate>, ts: seq<FullTextResult>, docs: map<nat, Document>,
                              vr: map<nat, int>, tr: map<nat, int>, ids: seq<nat>) returns (results: seq<HybridResult>)
      requires f.RRF? && vr == Ranks(Ids(vs)) && tr == Ranks(TextIds(ts))
      ensures |results| == |ids| && forall j :: 0 <= j < |ids| ==> results[j] == Record(f, vs, ts, docs, ids[j])
    {
      results := [];
      var i := 0;
      while i < |ids|
        invariant 0 <= i <= |ids| && |results| == i
        invariant forall j :: 0 <= j < i ==> results[j] == Record(f, vs, ts, docs, ids[j])
      {
        var id := ids[i];
        var score := 0.0;
        if id in vr {
          score := score + Share(f.alpha, f.k + vr[id]);
        }
        if id in tr {
          score := score + Share(f.beta, f.k + tr[id]);
        }
        var x := Describe(vs, ts, docs, id, score);
        results := results + [x];
        i := i + 1;
      }
    }

    /** weightedCombination. */
    method WeightedCombination(vs: seq<Candidate>, ts: seq<FullTextResult>, topK: int) returns (r: seq<HybridResult>)
      requires topK >= 0
      ensures Selected(r, Weighted(alpha, beta), vs, ts, textIndex.corpus.documents, topK)
    {
      var docs := textIndex.corpus.documents;
      var f := Weighted(alpha, beta);
      var maxD := LargestDistance(vs);
      var vsc := BuildMap(VectorPairs(vs, maxD));
      var maxS := LargestScore(ts);
      var tsc := BuildMap(TextPairs(ts, maxS));
      WeightedKeys(vs, ts);
      var ids := Enumerate(vsc.Keys + tsc.Keys);
      var results := WeightedRecords(f, vs, ts, docs, vsc, tsc, ids);
      r := TopK(results, topK, FusedScore);
      RecordsSelected(ids, results, f, vs, ts, docs, topK);
    }

    /** The loop of weightedCombination over the candidates: the weighted sum of the two normalised scores of each. */
    static method WeightedRecords(f: Fusion, vs: seq<Candidate>, ts: seq<FullTextResult>, docs: map<nat, Document>,
                                  vsc: map<nat, real>, tsc: map<nat, real>, ids: seq<nat>) returns (results: seq<HybridResult>)
      requires f.Weighted? && vsc == VectorScores(vs) && tsc == TextScores(ts)
      ensures |results| == |ids| && forall j :: 0 <= j < |ids| ==> results[j] == Record(f, vs, ts, docs, ids[j])
    {
      results := [];
      var i := 0;
      while i < |ids|
        invariant 0 <= i <= |ids| && |results| == i
        invariant forall j :: 0 <= j < i ==> results[j] == Record(f, vs, ts, docs, ids[j])
      {
        var id := ids[i];
        var score := Blend(f.alpha, f.beta, Get(vsc, id), Get(tsc, id));
        var x := Describe(vs, ts, docs, id, score);
        assert x == Record(f, vs, ts, docs, id);
        results := results + [x];
        i := i + 1;
      }
    }

    /** The record loop body shared by both fusion methods: the first distance, the first text score and the metadata. */
    static method Describe(vs: seq<Candidate>, ts: seq<FullTextResult>, docs: map<nat, Document>, id: nat, fused: real)
      returns (x: HybridResult)
      ensures x == HybridResult(id, FirstDistance(vs, id), FirstScore(ts, id), fused, MetadataOf(docs, id))
    {
      var v := FindDistance(vs, id);
      var t := FindScore(ts, id);
      var metadata := if id in docs then Some(docs[id].metadata) else None;
      x := HybridResult(id, v, t, fused, metadata);
    }

    /** Filling a Go map pair by pair. */
    static method BuildMap<V>(s: seq<(nat, V)>) returns (m: map<nat, V>)
      ensures m == Assigned(s)
    {
      m := map[];
      var i := 0;
      while i < |s|
        invariant 0 <= i <= |s| && m == Assigned(s[..i])
      {
        assert s[..i + 1][..i] == s[..i];
        m := m[s[i].0 := s[i].1];
        i := i + 1;
      }
      assert s[..i] == s;
    }

    /** The scan for the first vector result with this id. */
    static method FindDistance(vs: seq<Candidate>, id: nat) returns (d: real)
      ensures d == FirstDistance(vs, id)
    {
      d := 0.0;
      var i := 0;
      while i < |vs|
        invariant 0 <= i <= |vs| && FirstDistance(vs[i..], id) == FirstDistance(vs, id)
      {
        if vs[i].id == id {
          d := vs[i].distance;
          return;
        }
        assert vs[i..][1..] == vs[i + 1..];
        i := i + 1;
      }
    }

    /** The scan for the first text result with this id. */
    static method FindScore(ts: seq<FullTextResult>, id: nat) returns (s: real)
      ensures s == FirstScore(ts, id)
    {
      s := 0.0;
      var i := 0;
      while i < |ts|
        invariant 0 <= i <= |ts| && FirstScore(ts[i..], id) == FirstScore(ts, id)
      {
        if ts[i].id == id {
          s := ts[i].score;
          return;
        }
        assert ts[i..][1..] == ts[i + 1..];
        i := i + 1;
      }
    }

    /** The scan for the largest distance. */
    static method LargestDistance(vs: seq<Candidate>) returns (m: real)
      ensures m == MaxDistance(vs)
    {
      m := 0.0;
      var i := 0;
      while i < |vs|
        invariant 0 <= i <= |vs| && m == MaxDistance(vs[..i])
      {
        assert vs[..i + 1][..i] == vs[..i];
        if vs[i].distance > m {
          m := vs[i].distance;
        }
        i := i + 1;
      }
      assert vs[..i] == vs;
    }

    /** The scan for the largest text score. */
    static method LargestScore(ts: seq<FullTextResult>) returns (m: real)
      ensures m == MaxScore(ts)
    {
      m := 0.0;
      var i := 0;
      while i < |ts|
        invariant 0 <= i <= |ts| && m == MaxScore(ts[..i])
      {
        assert ts[..i + 1][..i] == ts[..i];
        if ts[i].score > m {
          m := ts[i].score;
        }
        i := i + 1;
      }
      assert ts[..i] == ts;
    }

    /** VectorOnlySearch: no results for a failed vector search, otherwise one record per vector result, in order. */
    method VectorOnlySearch(vector: Result<seq<Candidate>>) returns (r: seq<HybridResult>)
      ensures vector.Err? ==> r == []
      ensures vector.Ok? ==>
        |r| == |vector.value| && forall i :: 0 <= i < |r| ==> r[i] == VectorRecord(textIndex.corpus.documents, vector.value[i])
    {
      if vector.Err? {
        return [];
      }
      var docs := textIndex.corpus.documents;
      var vs := vector.value;
      r := [];
      var i := 0;
      while i < |vs|
        invariant 0 <= i <= |vs| && |r| == i
        invariant forall j :: 0 <= j < i ==> r[j] == VectorRecord(docs, vs[j])
      {
        var metadata := if vs[i].id in docs then Some(docs[vs[i].id].metadata) else None;
        r := r + [HybridResult(vs[i].id, vs[i].distance, 0.0, -vs[i].distance, metadata)];
        i := i + 1;
      }
    }

    /** TextOnlySearch: one record per full-text result for k, in order. */
    method TextOnlySearch(queryText: string, k: int, contribution: (string, nat) -> real)
      returns (r: seq<HybridResult>, ghost text: seq<FullTextResult>)
      requires textIndex.Valid() && k >= 0
      ensures TextHits(text, textIndex.corpus, queryText, k, contribution, None)
      ensures r == seq(|text|, i requires 0 <= i < |text| => TextRecord(text[i]))
    {
      var ts := textIndex.SearchWithFilter(queryText, k, contribution, None);
      text := ts;
      r := [];
      var i := 0;
      while i < |ts|
        invariant 0 <= i <= |ts| && |r| == i
        invariant forall j :: 0 <= j < i ==> r[j] == TextRecord(ts[j])
      {
        r := r + [HybridResult(ts[i].id, 0.0, ts[i].score, ts[i].score, Some(ts[i].document.metadata))];
        i := i + 1;
      }
    }
  }

  /** The keys of both normalised score maps are the candidates. */
  lemma {:induction false} WeightedKeys(vs: seq<Candidate>, ts: seq<FullTextResult>)
    ensures VectorScores(vs).Keys + TextScores(ts).Keys == Candidates(vs, ts)
    ensures forall maxD, maxS :: Assigned(VectorPairs(vs, maxD)).Keys + Assigned(TextPairs(ts, maxS)).Keys == Candidates(vs, ts)
  {
    forall maxD, maxS ensures Assigned(VectorPairs(vs, maxD)).Keys + Assigned(TextPairs(ts, maxS)).Keys == Candidates(vs, ts) {
      AssignedKeys(VectorPairs(vs, maxD));
      AssignedKeys(TextPairs(ts, maxS));
      assert forall i :: 0 <= i < |vs| ==> VectorPairs(vs, maxD)[i].0 == Ids(vs)[i];
      assert forall i :: 0 <= i < |ts| ==> TextPairs(ts, maxS)[i].0 == TextIds(ts)[i];
    }
  }
}
