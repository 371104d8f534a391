// The BM25 full-text index (pkg/search/fulltext.go). The index keeps the
// documents by id, each document's token count, its inverted index (term ->
// document id -> occurrences of the term in that document), the document
// count and the average document length. `Valid` says that everything but
// the documents is determined by the documents, so each mutating method is
// specified by what it does to the documents alone.
module SearchFullText {
  import opened Wrappers
  import opened SearchFilter
  import opened SearchTokenize
  import opened Sorting
  import opened Ranking

  datatype Document = Document(id: nat, text: string, metadata: Metadata)

  datatype FullTextResult = FullTextResult(id: nat, score: real, document: Document)

  type Postings = map<nat, nat>

  type Inverted = map<string, Postings>

  function Tokens(d: Document): seq<string>
  {
    Tokenize(d.text)
  }

  /** The term-frequency map of a token list: each token to its number of occurrences. */
  function Freqs(ts: seq<string>): (m: map<string, nat>)
    ensures forall t :: t in m <==> t in ts
    ensures forall t :: t in m ==> m[t] == multiset(ts)[t] && m[t] > 0
  {
    map t | t in multiset(ts) :: multiset(ts)[t]
  }

  /** Each document's tokens, by document id. */
  type TokenMap = map<nat, seq<string>>

  /** The postings of `term` implied by the documents' tokens. */
  ghost function PostingsOf(toks: TokenMap, term: string): Postings
  {
    map id | id in toks && term in toks[id] :: multiset(toks[id])[term]
  }

  ghost function Terms(toks: TokenMap): set<string>
  {
    set id, t | id in toks && t in toks[id] :: t
  }

  /** The inverted index implied by the documents' tokens; it has no term with an empty posting list. */
  ghost function InvertedOf(toks: TokenMap): Inverted
  {
    map t | t in Terms(toks) :: PostingsOf(toks, t)
  }

  /** The postings of `t`, or none (a nil map in Go). */
  function PostingsAt(inv: Inverted, t: string): Postings
  {
    if t in inv then inv[t] else map[]
  }

  /** What the update loop of Index does: document `id` joins the postings of each term of `tf`. */
  function AddDoc(inv: Inverted, id: nat, tf: map<string, nat>): Inverted
  {
    map t | t in inv.Keys + tf.Keys :: if t in tf then PostingsAt(inv, t)[id := tf[t]] else inv[t]
  }

  /** What the removal loop does: document `id` leaves the postings of each term of `terms`, and an emptied list goes. */
  function RemoveDoc(inv: Inverted, id: nat, terms: set<string>): Inverted
  {
    map t | t in inv && !(t in terms && inv[t] - {id} == map[]) :: if t in terms then inv[t] - {id} else inv[t]
  }

  function Restrict(tf: map<string, nat>, keys: set<string>): map<string, nat>
  {
    map t | t in tf && t in keys :: tf[t]
  }

  /** One step of the update loop, with `rest` the terms still to add and `term` the one added. */
  lemma AddLoopStep(inv0: Inverted, id: nat, tf: map<string, nat>, rest: set<string>, term: string)
    requires term in rest && rest <= tf.Keys
    ensures var inv := AddDoc(inv0, id, Restrict(tf, tf.Keys - rest));
      AddDoc(inv0, id, Restrict(tf, tf.Keys - (rest - {term}))) == inv[term := PostingsAt(inv, term)[id := tf[term]]]
  {
    assert tf.Keys - (rest - {term}) == (tf.Keys - rest) + {term};
    AddDocStep(inv0, id, tf, tf.Keys - rest, term);
  }

  lemma AddDocStep(inv0: Inverted, id: nat, tf: map<string, nat>, done: set<string>, term: string)
    requires term in tf && term !in done
    ensures var inv := AddDoc(inv0, id, Restrict(tf, done));
      AddDoc(inv0, id, Restrict(tf, done + {term})) == inv[term := PostingsAt(inv, term)[id := tf[term]]]
  {
    var inv := AddDoc(inv0, id, Restrict(tf, done));
    var lhs := AddDoc(inv0, id, Restrict(tf, done + {term}));
    var rhs := inv[term := PostingsAt(inv, term)[id := tf[term]]];
    assert term in inv ==> inv[term] == inv0[term];
    assert lhs.Keys == rhs.Keys;
    forall t | t in lhs ensures lhs[t] == rhs[t] {
    }
  }

  /** The body of the removal loop: `id` leaves the postings of `term`, and an emptied list goes. */
  function Drop(inv: Inverted, id: nat, term: string): Inverted
  {
    if term in inv then (if |inv[term] - {id}| == 0 then inv - {term} else inv[term := inv[term] - {id}]) else inv
  }

  /** One step of the removal loop, with `rest` the terms still to remove and `term` the one removed. */
  lemma RemoveLoopStep(inv0: Inverted, id: nat, keys: set<string>, rest: set<string>, term: string)
    requires term in rest && rest <= keys
    ensures RemoveDoc(inv0, id, keys - (rest - {term})) == Drop(RemoveDoc(inv0, id, keys - rest), id, term)
  {
    assert keys - (rest - {term}) == (keys - rest) + {term};
    RemoveDocStep(inv0, id, keys - rest, term);
  }

  lemma RemoveDocStep(inv0: Inverted, id: nat, done: set<string>, term: string)
    requires term !in done
    ensures var inv := RemoveDoc(inv0, id, done);
      RemoveDoc(inv0, id, done + {term}) == Drop(inv, id, term)
  {
    var inv := RemoveDoc(inv0, id, done);
    if term !in inv0 {
      RemoveAbsent(inv0, id, done, term);
    } else {
      assert term in inv && inv[term] == inv0[term];
      if |inv[term] - {id}| == 0 {
        RemoveEmptied(inv0, id, done, term);
      } else {
        RemoveKept(inv0, id, done, term);
      }
    }
  }

  lemma RemoveAbsent(inv0: Inverted, id: nat, done: set<string>, term: string)
    requires term !in inv0
    ensures RemoveDoc(inv0, id, done + {term}) == RemoveDoc(inv0, id, done)
  {
    var lhs := RemoveDoc(inv0, id, done + {term});
    var rhs := RemoveDoc(inv0, id, done);
    assert lhs.Keys == rhs.Keys;
  }

  lemma RemoveEmptied(inv0: Inverted, id: nat, done: set<string>, term: string)
    requires term !in done && term in inv0 && inv0[term] - {id} == map[]
    ensures RemoveDoc(inv0, id, done + {term}) == RemoveDoc(inv0, id, done) - {term}
  {
    var lhs := RemoveDoc(inv0, id, done + {term});
    var rhs := RemoveDoc(inv0, id, done) - {term};
    assert lhs.Keys == rhs.Keys;
  }

  lemma RemoveKept(inv0: Inverted, id: nat, done: set<string>, term: string)
    requires term !in done && term in inv0 && inv0[term] - {id} != map[]
    ensures RemoveDoc(inv0, id, done + {term}) == RemoveDoc(inv0, id, done)[term := inv0[term] - {id}]
  {
    var lhs := RemoveDoc(inv0, id, done + {term});
    var rhs := RemoveDoc(inv0, id, done)[term := inv0[term] - {id}];
    assert lhs.Keys == rhs.Keys;
  }

  /** The sum of the values of `m` at `keys`. */
  ghost function SumOver(m: map<nat, nat>, keys: set<nat>): nat
    requires keys <= m.Keys
    decreases keys
  {
    if keys == {} then 0 else var k :| k in keys; m[k] + SumOver(m, keys - {k})
  }

  /** The sum does not depend on the order the keys are taken in. */
  lemma {:induction false} SumOverRemove(m: map<nat, nat>, keys: set<nat>, k: nat)
    requires keys <= m.Keys && k in keys
    ensures SumOver(m, keys) == m[k] + SumOver(m, keys - {k})
    decreases keys
  {
    var j :| j in keys && SumOver(m, keys) == m[j] + SumOver(m, keys - {j});
    if j != k {
      SumOverRemove(m, keys - {j}, k);
      SumOverRemove(m, keys - {k}, j);
      assert keys - {j} - {k} == keys - {k} - {j};
    }
  }

  /** updateAvgDocLengthLocked: the mean token count, 0 for an empty index. */
  ghost function AvgLength(lengths: map<nat, nat>, count: int): real
  {
    if count == 0 then 0.0 else SumOver(lengths, lengths.Keys) as real / count as real
  }

  /** The documents after storing each of `ds` in turn, a later one replacing an earlier one of the same id. */
  function Upsert(docs: map<nat, Document>, ds: seq<Document>): map<nat, Document>
  {
    if ds == [] then docs else Upsert(docs, ds[..|ds| - 1])[ds[|ds| - 1].id := ds[|ds| - 1]]
  }

  /** A filter function, or nil. */
  predicate Passes(filter: Option<Metadata -> bool>, d: Document)
  {
    filter.None? || filter.value(d.metadata)
  }

  function Get(s: map<nat, real>, id: nat): real
  {
    if id in s then s[id] else 0.0
  }

  /** The documents of `ids` that exist and pass the filter. */
  function Passing(ids: set<nat>, docs: map<nat, Document>, filter: Option<Metadata -> bool>): set<nat>
  {
    set id | id in ids && id in docs && Passes(filter, docs[id])
  }

  /** Scores after the postings `done` of one term have been added. */
  function AddScores(s: map<nat, real>, term: string, done: set<nat>, docs: map<nat, Document>,
                     contribution: (string, nat) -> real, filter: Option<Metadata -> bool>): map<nat, real>
  {
    var p := Passing(done, docs, filter);
    map id | id in s.Keys + p :: Get(s, id) + (if id in p then contribution(term, id) else 0.0)
  }

  /** Before the posting loop nothing has been added. */
  lemma AddScoresNone(s0: map<nat, real>, term: string, keys: set<nat>, docs: map<nat, Document>,
                      contribution: (string, nat) -> real, filter: Option<Metadata -> bool>)
    ensures AddScores(s0, term, keys - keys, docs, contribution, filter) == s0
  {
    assert keys - keys == {};
    assert Passing({}, docs, filter) == {};
    var r := AddScores(s0, term, keys - keys, docs, contribution, filter);
    assert r.Keys == s0.Keys;
  }

  /** The body of the posting loop: a listed document that exists and passes the filter gains the term's contribution. */
  function Credit(s: map<nat, real>, term: string, id: nat, docs: map<nat, Document>,
                  contribution: (string, nat) -> real, filter: Option<Metadata -> bool>): map<nat, real>
  {
    if id in docs && Passes(filter, docs[id]) then s[id := Get(s, id) + contribution(term, id)] else s
  }

  /** One step of the posting loop: document `id` of the postings `keys` gains the term's contribution when it passes. */
  lemma AddScoresStep(s0: map<nat, real>, term: string, keys: set<nat>, rest: set<nat>, id: nat, docs: map<nat, Document>,
                      contribution: (string, nat) -> real, filter: Option<Metadata -> bool>)
    requires id in rest && rest <= keys
    ensures AddScores(s0, term, keys - (rest - {id}), docs, contribution, filter) ==
      Credit(AddScores(s0, term, keys - rest, docs, contribution, filter), term, id, docs, contribution, filter)
  {
    var done := keys - rest;
    assert keys - (rest - {id}) == done + {id};
    var s := AddScores(s0, term, done, docs, contribution, filter);
    var lhs := AddScores(s0, term, done + {id}, docs, contribution, filter);
    var rhs := if id in docs && Passes(filter, docs[id]) then s[id := Get(s, id) + contribution(term, id)] else s;
    assert lhs.Keys == rhs.Keys;
    forall j | j in lhs ensures lhs[j] == rhs[j] {
    }
  }

  /**
   * The score map of the query tokens `qs`: for each token with a posting
   * list, in order, each listed document that passes the filter gains that
   * token's contribution.
   */
  function ScoreMap(qs: seq<string>, inv: Inverted, docs: map<nat, Document>,
                    contribution: (string, nat) -> real, filter: Option<Metadata -> bool>): map<nat, real>
  {
    if qs == [] then map[]
    else
      var s := ScoreMap(qs[..|qs| - 1], inv, docs, contribution, filter);
      var term := qs[|qs| - 1];
      if term in inv then AddScores(s, term, inv[term].Keys, docs, contribution, filter) else s
  }

  /** A document is scored exactly when some query token lists it and it passes the filter. */
  lemma {:induction false} ScoreMapKeys(qs: seq<string>, inv: Inverted, docs: map<nat, Document>,
                                        contribution: (string, nat) -> real, filter: Option<Metadata -> bool>)
    ensures forall id :: id in ScoreMap(qs, inv, docs, contribution, filter) <==>
      id in docs && Passes(filter, docs[id]) && exists i :: 0 <= i < |qs| && qs[i] in inv && id in inv[qs[i]]
  {
    if qs != [] {
      var init := qs[..|qs| - 1];
      ScoreMapKeys(init, inv, docs, contribution, filter);
      forall id ensures id in ScoreMap(qs, inv, docs, contribution, filter) <==>
        id in docs && Passes(filter, docs[id]) && exists i :: 0 <= i < |qs| && qs[i] in inv && id in inv[qs[i]]
      {
        if id in docs && Passes(filter, docs[id]) && exists i :: 0 <= i < |qs| && qs[i] in inv && id in inv[qs[i]] {
          var i :| 0 <= i < |qs| && qs[i] in inv && id in inv[qs[i]];
          if i < |qs| - 1 {
            assert init[i] == qs[i];
          }
        }
        if id in ScoreMap(init, inv, docs, contribution, filter) {
          var i :| 0 <= i < |init| && init[i] in inv && id in inv[init[i]];
          assert qs[i] == init[i];
        }
      }
    }
  }

  /** A term lists a document exactly when the document contains it. */
  lemma ListedIffContains(toks: TokenMap, term: string, id: nat)
    ensures (term in InvertedOf(toks) && id in InvertedOf(toks)[term]) <==> (id in toks && term in toks[id])
  {
  }

  lemma FreqsSnoc(p: seq<string>, t: string)
    ensures Freqs(p + [t]) == Freqs(p)[t := (if t in Freqs(p) then Freqs(p)[t] else 0) + 1]
  {
    assert multiset(p + [t]) == multiset(p) + multiset{t};
    var lhs := Freqs(p + [t]);
    var rhs := Freqs(p)[t := (if t in Freqs(p) then Freqs(p)[t] else 0) + 1];
    assert lhs.Keys == rhs.Keys;
  }

  /** A new document joins the postings of its terms. */
  lemma AddDocInverted(toks: TokenMap, id: nat, ts: seq<string>)
    requires id !in toks
    ensures InvertedOf(toks[id := ts]) == AddDoc(InvertedOf(toks), id, Freqs(ts))
  {
    var lhs := InvertedOf(toks[id := ts]);
    var rhs := AddDoc(InvertedOf(toks), id, Freqs(ts));
    AddDocTerms(toks, id, ts);
    forall t | t in lhs ensures lhs[t] == rhs[t] {
      AddDocPostings(toks, id, ts, t);
    }
  }

  /** The terms after the addition are those of the old index and of the new document. */
  lemma AddDocTerms(toks: TokenMap, id: nat, ts: seq<string>)
    requires id !in toks
    ensures InvertedOf(toks[id := ts]).Keys == AddDoc(InvertedOf(toks), id, Freqs(ts)).Keys
  {
    TermsAdd(toks, id, ts);
  }

  lemma TermsAdd(toks: TokenMap, id: nat, ts: seq<string>)
    requires id !in toks
    ensures Terms(toks[id := ts]) == Terms(toks) + Freqs(ts).Keys
  {
    var toks' := toks[id := ts];
    forall t | t in Terms(toks') ensures t in Terms(toks) + Freqs(ts).Keys {
      var j :| j in toks' && t in toks'[j];
    }
    forall t | t in Terms(toks) ensures t in Terms(toks') {
      var j :| j in toks && t in toks[j];
      assert toks'[j] == toks[j];
    }
    forall t | t in Freqs(ts).Keys ensures t in Terms(toks') {
      assert t in toks'[id];
    }
  }

  lemma AddDocPostings(toks: TokenMap, id: nat, ts: seq<string>, t: string)
    requires id !in toks && t in Terms(toks[id := ts])
    ensures var inv := InvertedOf(toks); var tf := Freqs(ts);
      PostingsOf(toks[id := ts], t) == if t in tf then PostingsAt(inv, t)[id := tf[t]] else inv[t]
  {
    var toks' := toks[id := ts];
    var inv := InvertedOf(toks);
    var tf := Freqs(ts);
    var p := PostingsOf(toks', t);
    if t in tf {
      var q := PostingsAt(inv, t)[id := tf[t]];
      forall j | j in toks && t in toks[j] ensures t in Terms(toks) {
      }
      assert p.Keys == q.Keys;
      assert p == q;
    } else {
      var j :| j in toks' && t in toks'[j];
      assert t in Terms(toks);
      assert p.Keys == inv[t].Keys;
      assert p == inv[t];
    }
  }

  /** A removed document leaves the postings of its terms, and emptied terms go. */
  lemma RemoveDocInverted(toks: TokenMap, id: nat)
    requires id in toks
    ensures InvertedOf(toks - {id}) == RemoveDoc(InvertedOf(toks), id, Freqs(toks[id]).Keys)
  {
    var lhs := InvertedOf(toks - {id});
    var rhs := RemoveDoc(InvertedOf(toks), id, Freqs(toks[id]).Keys);
    forall t ensures t in lhs <==> t in rhs {
      TermsRemove(toks, id, t);
    }
    assert lhs.Keys == rhs.Keys;
    forall t | t in lhs ensures lhs[t] == rhs[t] {
      RemoveDocPostings(toks, id, t);
    }
  }

  /** A term stays in the index after a removal exactly when some other document contains it. */
  lemma TermsRemove(toks: TokenMap, id: nat, t: string)
    requires id in toks
    ensures t in Terms(toks - {id}) <==> t in RemoveDoc(InvertedOf(toks), id, Freqs(toks[id]).Keys)
  {
    var toks' := toks - {id};
    PostingsWithout(toks, id, t);
    if t in Terms(toks') {
      var j :| j in toks' && t in toks'[j];
      assert j in PostingsOf(toks', t);
      assert t in Terms(toks);
    }
    if t in RemoveDoc(InvertedOf(toks), id, Freqs(toks[id]).Keys) {
      assert t in Terms(toks) && InvertedOf(toks)[t] == PostingsOf(toks, t);
      var j: nat;
      if t !in Freqs(toks[id]).Keys {
        j :| j in toks && t in toks[j];
        assert j != id;
      } else {
        assert PostingsOf(toks, t) - {id} != map[];
        j :| j in PostingsOf(toks, t) - {id};
      }
      assert j in toks' && toks'[j] == toks[j];
    }
  }

  lemma RemoveDocPostings(toks: TokenMap, id: nat, t: string)
    requires id in toks && t in Terms(toks - {id}) && t in Terms(toks)
    ensures var rhs := RemoveDoc(InvertedOf(toks), id, Freqs(toks[id]).Keys);
      t in rhs ==> PostingsOf(toks - {id}, t) == rhs[t]
  {
    PostingsWithout(toks, id, t);
    if t !in Freqs(toks[id]).Keys {
      assert id !in PostingsOf(toks, t);
      assert PostingsOf(toks, t) - {id} == PostingsOf(toks, t);
    }
  }

  /** The postings of a term without a document are those implied by the other documents. */
  lemma PostingsWithout(toks: TokenMap, id: nat, t: string)
    ensures PostingsOf(toks - {id}, t) == PostingsOf(toks, t) - {id}
  {
    var p := PostingsOf(toks - {id}, t);
    var q := PostingsOf(toks, t) - {id};
    assert p.Keys == q.Keys;
  }

  /** After indexing, each term of the document lists it with the term's frequency, and no other term lists it. */
  lemma IndexedPostings(toks: TokenMap, id: nat, ts: seq<string>)
    ensures forall t :: t in ts ==>
      (t in InvertedOf(toks[id := ts]) && InvertedOf(toks[id := ts])[t][id] == multiset(ts)[t])
    ensures forall t :: t in InvertedOf(toks[id := ts]) && id in InvertedOf(toks[id := ts])[t] ==> t in ts
  {
    var toks' := toks[id := ts];
    forall t | t in ts ensures t in InvertedOf(toks') {
      assert t in toks'[id];
      assert t in Terms(toks');
    }
  }

  /** Each document under its own id, with its tokens, its token count, and the document count. */
  ghost predicate Stored(docs: map<nat, Document>, toks: TokenMap, lengths: map<nat, nat>, count: int)
  {
    count == |docs| && lengths.Keys == docs.Keys && toks.Keys == docs.Keys &&
    (forall id :: id in docs ==> docs[id].id == id) &&
    (forall id {:trigger Tokens(docs[id])} :: id in toks ==> toks[id] == Tokens(docs[id])) &&
    (forall id :: id in lengths ==> lengths[id] == |toks[id]|)
  }

  /**
   * The fields of FullTextIndex that its lock guards: the documents, the
   * inverted index, each document's token count, the average token count and
   * the document count. Every method replaces them together.
   */
  datatype Corpus = Corpus(documents: map<nat, Document>, invertedIndex: Inverted, docLengths: map<nat, nat>,
                           avgDocLength: real, docCount: int)

  /** Everything but the documents is what the documents determine. */
  ghost predicate Consistent(c: Corpus, toks: TokenMap)
  {
    Stored(c.documents, toks, c.docLengths, c.docCount) && c.invertedIndex == InvertedOf(toks) &&
    c.avgDocLength == AvgLength(c.docLengths, c.docCount)
  }

  /** The state after removeDocumentLocked is consistent. */
  lemma RemoveKeeps(c: Corpus, toks: TokenMap, id: nat, tf: map<string, nat>, c': Corpus)
    requires Consistent(c, toks) && id in c.documents && tf == Freqs(Tokens(c.documents[id]))
    requires c'.documents == c.documents - {id} && c'.invertedIndex == RemoveDoc(c.invertedIndex, id, tf.Keys)
    requires c'.docLengths == c.docLengths - {id} && c'.docCount == c.docCount - 1
    requires c'.avgDocLength == AvgLength(c'.docLengths, c'.docCount)
    ensures Consistent(c', toks - {id})
  {
    assert toks[id] == Tokens(c.documents[id]);
    RemoveDocInverted(toks, id);
    StoredRemove(c.documents, toks, c.docLengths, c.docCount, id);
  }

  /** The state after storing a new document is consistent. */
  lemma AddKeeps(c: Corpus, toks: TokenMap, d: Document, tf: map<string, nat>, c': Corpus)
    requires Consistent(c, toks) && d.id !in c.documents && tf == Freqs(Tokens(d))
    requires c'.documents == c.documents[d.id := d] && c'.invertedIndex == AddDoc(c.invertedIndex, d.id, tf)
    requires c'.docLengths == c.docLengths[d.id := |Tokens(d)|] && c'.docCount == c.docCount + 1
    requires c'.avgDocLength == AvgLength(c'.docLengths, c'.docCount)
    ensures Consistent(c', toks[d.id := Tokens(d)])
  {
    AddDocInverted(toks, d.id, Tokens(d));
    StoredAdd(c.documents, toks, c.docLengths, c.docCount, d);
  }

  lemma StoredRemove(docs: map<nat, Document>, toks: TokenMap, lengths: map<nat, nat>, count: int, id: nat)
    requires Stored(docs, toks, lengths, count) && id in docs
    ensures Stored(docs - {id}, toks - {id}, lengths - {id}, count - 1)
  {
    assert |docs - {id}| == |docs.Keys - {id}|;
  }

  lemma StoredAdd(docs: map<nat, Document>, toks: TokenMap, lengths: map<nat, nat>, count: int, d: Document)
    requires Stored(docs, toks, lengths, count) && d.id !in docs
    ensures Stored(docs[d.id := d], toks[d.id := Tokens(d)], lengths[d.id := |Tokens(d)|], count + 1)
  {
  }

  lemma ReplaceEntry(docs: map<nat, Document>, id: nat, d: Document)
    ensures (docs - {id})[id := d] == docs[id := d]
  {
  }

  function ResultScore(x: FullTextResult): real
  {
    x.score
  }

  /**
   * What a search returns for the score map `s`: min(k, |s|) results sorted
   * by descending score, each a scored document with its score, no document
   * twice, and every scored document left out scoring no higher than any
   * result.
   */
  ghost predicate Ranked(r: seq<FullTextResult>, s: map<nat, real>, docs: map<nat, Document>, k: nat)
  {
    |r| == Min(k, |s|) &&
    SortedDesc(r, ResultScore) &&
    (forall i :: 0 <= i < |r| ==> r[i].id in s && r[i].score == s[r[i].id] && r[i].id in docs && r[i].document == docs[r[i].id]) &&
    (forall i, j :: 0 <= i < j < |r| ==> r[i].id != r[j].id) &&
    (forall id :: id in s && (forall i :: 0 <= i < |r| ==> r[i].id != id) ==> forall i :: 0 <= i < |r| ==> s[id] <= r[i].score)
  }

  /** Each result is the document of its id with that id's score. */
  ghost predicate Determined(rs: seq<FullTextResult>, s: map<nat, real>, docs: map<nat, Document>)
  {
    forall x :: x in rs ==> x.id in s && x.id in docs && x == FullTextResult(x.id, s[x.id], docs[x.id])
  }

  /** Sorting the results of every scored document and keeping the first k ranks them. */
  lemma TopKRanked(s: map<nat, real>, docs: map<nat, Document>, rs: seq<FullTextResult>, k: nat)
    requires Distinct(rs) && |rs| == |s| && Determined(rs, s, docs)
    requires forall id :: id in s ==> exists x :: x in rs && x.id == id
    ensures Ranked(SortDesc(rs, ResultScore)[..Min(k, |rs|)], s, docs, k)
  {
    var r := SortDesc(rs, ResultScore)[..Min(k, |rs|)];
    TopKSelects(rs, k, ResultScore);
    TopKDistinct(rs, k, ResultScore);
    RankedFrom(rs, r, s, docs, k);
  }

  /** A sorted selection of the results that outscores every result it leaves out ranks them. */
  lemma RankedFrom(rs: seq<FullTextResult>, r: seq<FullTextResult>, s: map<nat, real>, docs: map<nat, Document>, k: nat)
    requires |rs| == |s| && |r| == Min(k, |rs|) && SortedDesc(r, ResultScore) && Distinct(r)
    requires Determined(rs, s, docs) && forall x :: x in r ==> x in rs
    requires forall x :: x in rs && x !in r ==> forall i :: 0 <= i < |r| ==> ResultScore(x) <= ResultScore(r[i])
    requires forall id :: id in s ==> exists x :: x in rs && x.id == id
    ensures Ranked(r, s, docs, k)
  {
    assert Determined(r, s, docs);
    DistinctIds(r, s, docs);
    forall id | id in s && (forall i :: 0 <= i < |r| ==> r[i].id != id)
      ensures forall i :: 0 <= i < |r| ==> s[id] <= r[i].score
    {
      var x :| x in rs && x.id == id;
      assert x !in r;
    }
  }

  /** Distinct results, each determined by its id, have distinct ids. */
  lemma DistinctIds(r: seq<FullTextResult>, s: map<nat, real>, docs: map<nat, Document>)
    requires Distinct(r) && Determined(r, s, docs)
    ensures forall i, j :: 0 <= i < j < |r| ==> r[i].id != r[j].id
  {
    forall i, j | 0 <= i < j < |r| ensures r[i].id != r[j].id {
      assert r[i] in r && r[j] in r;
    }
  }

  class FullTextIndex {
    var k1: real
    var b: real
    var corpus: Corpus
    /** The tokens of each stored document. */
    ghost var tokens: TokenMap

    ghost predicate Valid()
      reads this
    {
      Consistent(corpus, tokens)
    }

    /** NewFullTextIndex: empty, with k1 = 1.5 and b = 0.75. */
    constructor ()
      ensures Valid() && corpus.documents == map[] && k1 == 1.5 && b == 0.75
    {
      k1 := 1.5;
      b := 0.75;
      corpus := Corpus(map[], map[], map[], 0.0, 0);
      tokens := map[];
      assert Terms(map[]) == {};
    }

    method SetParameters(k1: real, b: real)
      modifies this`k1, this`b
      ensures this.k1 == k1 && this.b == b
    {
      this.k1 := k1;
      this.b := b;
    }

    /** The term-frequency loop. */
    static method CountTerms(ts: seq<string>) returns (tf: map<string, nat>)
      ensures tf == Freqs(ts)
    {
      tf := map[];
      var i := 0;
      while i < |ts|
        invariant 0 <= i <= |ts| && tf == Freqs(ts[..i])
      {
        var t := ts[i];
        FreqsSnoc(ts[..i], t);
        assert ts[..i + 1] == ts[..i] + [t];
        tf := tf[t := (if t in tf then tf[t] else 0) + 1];
        i := i + 1;
      }
      assert ts[..i] == ts;
    }

    /** The update loop of Index: `id` joins the postings of each term of `tf`. */
    static method AddPostings(inv: Inverted, id: nat, tf: map<string, nat>) returns (r: Inverted)
      ensures r == AddDoc(inv, id, tf)
    {
      r := inv;
      var rest := tf.Keys;
      assert Restrict(tf, {}) == map[];
      assert AddDoc(inv, id, map[]) == inv;
      while rest != {}
        invariant rest <= tf.Keys
        invariant r == AddDoc(inv, id, Restrict(tf, tf.Keys - rest))
        decreases |rest|
      {
        var term :| term in rest;
        AddLoopStep(inv, id, tf, rest, term);
        var p := PostingsAt(r, term);
        r := r[term := p[id := tf[term]]];
        rest := rest - {term};
      }
      assert Restrict(tf, tf.Keys - rest) == tf;
    }

    /** The removal loop of removeDocumentLocked: `id` leaves the postings of each term of `tf`. */
    static method RemovePostings(inv: Inverted, id: nat, tf: map<string, nat>) returns (r: Inverted)
      ensures r == RemoveDoc(inv, id, tf.Keys)
    {
      r := inv;
      var rest := tf.Keys;
      assert RemoveDoc(inv, id, {}) == inv;
      while rest != {}
        invariant rest <= tf.Keys
        invariant r == RemoveDoc(inv, id, tf.Keys - rest)
        decreases |rest|
      {
        var term :| term in rest;
        RemoveLoopStep(inv, id, tf.Keys, rest, term);
        r := DeletePosting(r, id, term);
        rest := rest - {term};
      }
    }

    /** delete(postings, id), and the term goes when its postings are left empty. */
    static method DeletePosting(inv: Inverted, id: nat, term: string) returns (r: Inverted)
      ensures r == Drop(inv, id, term)
    {
      r := inv;
      if term in r {
        var p := r[term] - {id};
        if |p| == 0 {
          r := r - {term};
        } else {
          r := r[term := p];
        }
      }
    }

    /** updateAvgDocLengthLocked: sums the token counts and divides by the document count. */
    static method AverageLength(lengths: map<nat, nat>, count: int) returns (avg: real)
      ensures avg == AvgLength(lengths, count)
    {
      if count == 0 {
        return 0.0;
      }
      var total := 0;
      var keys := lengths.Keys;
      while keys != {}
        invariant keys <= lengths.Keys
        invariant total + SumOver(lengths, keys) == SumOver(lengths, lengths.Keys)
        decreases |keys|
      {
        var k :| k in keys;
        SumOverRemove(lengths, keys, k);
        total := total + lengths[k];
        keys := keys - {k};
      }
      avg := total as real / count as real;
    }

    /** removeDocumentLocked: the document and everything derived from it go. */
    method RemoveDocument(id: nat)
      requires Valid() && id in corpus.documents
      modifies this
      ensures Valid() && corpus.documents == old(corpus.documents) - {id} && k1 == old(k1) && b == old(b)
    {
      corpus, tokens := Removed(corpus, tokens, id);
    }

    /** The state removeDocumentLocked computes, on values. */
    static method Removed(c: Corpus, ghost toks: TokenMap, id: nat) returns (c': Corpus, ghost toks': TokenMap)
      requires Consistent(c, toks) && id in c.documents
      ensures Consistent(c', toks') && c'.documents == c.documents - {id}
    {
      var tf := CountTerms(Tokens(c.documents[id]));
      var inv := RemovePostings(c.invertedIndex, id, tf);
      var lengths := c.docLengths - {id};
      var avg := AverageLength(lengths, c.docCount - 1);
      c' := Corpus(c.documents - {id}, inv, lengths, avg, c.docCount - 1);
      toks' := toks - {id};
      RemoveKeeps(c, toks, id, tf, c');
    }

    /**
     * Index: an existing document of the same id is removed first, then the
     * document is stored, so re-indexing leaves the document count unchanged.
     */
    method Index(doc: Document)
      requires Valid()
      modifies this
      ensures Valid() && corpus.documents == old(corpus.documents)[doc.id := doc] && k1 == old(k1) && b == old(b)
      ensures corpus.docCount == if doc.id in old(corpus.documents) then old(corpus.docCount) else old(corpus.docCount) + 1
    {
      if doc.id in corpus.documents {
        RemoveDocument(doc.id);
        ReplaceEntry(old(corpus.documents), doc.id, doc);
      }
      AddDocument(doc);
    }

    /** The storing half of Index, for an id not in the index. */
    method AddDocument(doc: Document)
      requires Valid() && doc.id !in corpus.documents
      modifies this
      ensures Valid() && corpus.documents == old(corpus.documents)[doc.id := doc]
      ensures corpus.docCount == old(corpus.docCount) + 1 && k1 == old(k1) && b == old(b)
    {
      corpus, tokens := Added(corpus, tokens, doc);
    }

    /** The state the storing half of Index computes, on values. */
    static method Added(c: Corpus, ghost toks: TokenMap, d: Document) returns (c': Corpus, ghost toks': TokenMap)
      requires Consistent(c, toks) && d.id !in c.documents
      ensures Consistent(c', toks') && c'.documents == c.documents[d.id := d] && c'.docCount == c.docCount + 1
    {
      var ts := Tokens(d);
      var tf := CountTerms(ts);
      var inv := AddPostings(c.invertedIndex, d.id, tf);
      var lengths := c.docLengths[d.id := |ts|];
      var avg := AverageLength(lengths, c.docCount + 1);
      c' := Corpus(c.documents[d.id := d], inv, lengths, avg, c.docCount + 1);
      toks' := toks[d.id := ts];
      AddKeeps(c, toks, d, tf, c');
    }

    /** BatchIndex: Index of each document in turn; Index never fails, so neither does this. */
    method BatchIndex(docs: seq<Document>)
      requires Valid()
      modifies this
      ensures Valid() && corpus.documents == Upsert(old(corpus.documents), docs) && k1 == old(k1) && b == old(b)
    {
      var i := 0;
      while i < |docs|
        invariant 0 <= i <= |docs|
        invariant Valid() && corpus.documents == Upsert(old(corpus.documents), docs[..i]) && k1 == old(k1) && b == old(b)
      {
        Index(docs[i]);
        assert docs[..i + 1][..i] == docs[..i];
        i := i + 1;
      }
      assert docs[..i] == docs;
    }

    /** Remove: an absent id is a no-op; otherwise the document goes. */
    method Remove(id: nat)
      requires Valid()
      modifies this
      ensures Valid() && corpus.documents == old(corpus.documents) - {id} && k1 == old(k1) && b == old(b)
      ensures id !in old(corpus.documents) ==> unchanged(this)
    {
      if id !in corpus.documents {
        assert corpus.documents - {id} == corpus.documents;
        return;
      }
      RemoveDocument(id);
    }

    method GetDocument(id: nat) returns (r: Option<Document>)
      ensures r == if id in corpus.documents then Some(corpus.documents[id]) else None
    {
      r := if id in corpus.documents then Some(corpus.documents[id]) else None;
    }

    method Size() returns (n: int)
      requires Valid()
      ensures n == |corpus.documents|
    {
      n := corpus.docCount;
    }

    /** The term loop of Search: the score map of the query tokens. */
    method AccumulateScores(qs: seq<string>, contribution: (string, nat) -> real, filter: Option<Metadata -> bool>)
      returns (scores: map<nat, real>)
      ensures scores == ScoreMap(qs, corpus.invertedIndex, corpus.documents, contribution, filter)
    {
      scores := map[];
      var i := 0;
      while i < |qs|
        invariant 0 <= i <= |qs|
        invariant scores == ScoreMap(qs[..i], corpus.invertedIndex, corpus.documents, contribution, filter)
      {
        var term := qs[i];
        assert qs[..i + 1][..i] == qs[..i];
        if term in corpus.invertedIndex {
          scores := AddTerm(scores, term, contribution, filter);
        }
        i := i + 1;
      }
      assert qs[..i] == qs;
    }

    /** The posting loop of Search for one term. */
    method AddTerm(s0: map<nat, real>, term: string, contribution: (string, nat) -> real, filter: Option<Metadata -> bool>)
      returns (scores: map<nat, real>)
      requires term in corpus.invertedIndex
      ensures scores == AddScores(s0, term, corpus.invertedIndex[term].Keys, corpus.documents, contribution, filter)
    {
      var postings := corpus.invertedIndex[term];
      scores := s0;
      var rest := postings.Keys;
      AddScoresNone(s0, term, rest, corpus.documents, contribution, filter);
      while rest != {}
        invariant rest <= postings.Keys
        invariant scores == AddScores(s0, term, postings.Keys - rest, corpus.documents, contribution, filter)
        decreases |rest|
      {
        var id :| id in rest;
        AddScoresStep(s0, term, postings.Keys, rest, id, corpus.documents, contribution, filter);
        scores := CreditDocument(scores, term, id, contribution, filter);
        rest := rest - {id};
      }
    }

    /** One posting: the document, when it exists and passes the filter, gains the term's contribution. */
    method CreditDocument(s: map<nat, real>, term: string, id: nat, contribution: (string, nat) -> real,
                          filter: Option<Metadata -> bool>) returns (r: map<nat, real>)
      ensures r == Credit(s, term, id, corpus.documents, contribution, filter)
    {
      r := s;
      if id in corpus.documents {
        var doc := corpus.documents[id];
        if filter.None? || filter.value(doc.metadata) {
          r := r[id := Get(r, id) + contribution(term, id)];
        }
      }
    }

    /** The conversion loop: one result per scored document, in the map's iteration order. */
    method ToResults(scores: map<nat, real>) returns (rs: seq<FullTextResult>)
      requires scores.Keys <= corpus.documents.Keys
      ensures Distinct(rs) && |rs| == |scores| && Determined(rs, scores, corpus.documents)
      ensures forall id :: id in scores ==> exists x :: x in rs && x.id == id
    {
      var ids := Enumerate(scores.Keys);
      rs := [];
      var i := 0;
      while i < |ids|
        invariant 0 <= i <= |ids| && |rs| == i
        invariant forall j :: 0 <= j < i ==> rs[j] == FullTextResult(ids[j], scores[ids[j]], corpus.documents[ids[j]])
      {
        rs := rs + [FullTextResult(ids[i], scores[ids[i]], corpus.documents[ids[i]])];
        i := i + 1;
      }
      forall id | id in scores ensures exists x :: x in rs && x.id == id {
        var i :| 0 <= i < |ids| && ids[i] == id;
        assert rs[i].id == id;
      }
      assert |scores| == |scores.Keys|;
      forall a, c | 0 <= a < c < |rs| ensures rs[a] != rs[c] {
        assert ids[a] != ids[c];
      }
    }

    /**
     * SearchWithFilter, and Search with a nil filter. Nothing for an empty
     * index or a query without tokens; otherwise the scored documents sorted
     * by descending score and cut to k, each document's score no higher than
     * that of any result when it is left out.
     */
    method SearchWithFilter(query: string, k: int, contribution: (string, nat) -> real, filter: Option<Metadata -> bool>)
      returns (r: seq<FullTextResult>)
      requires Valid() && k >= 0
      ensures corpus.docCount == 0 || Tokenize(query) == [] ==> r == []
      ensures corpus.docCount != 0 && Tokenize(query) != [] ==>
        Ranked(r, ScoreMap(Tokenize(query), corpus.invertedIndex, corpus.documents, contribution, filter), corpus.documents, k)
    {
      if corpus.docCount == 0 {
        return [];
      }
      var qs := Tokenize(query);
      if |qs| == 0 {
        return [];
      }
      var scores := AccumulateScores(qs, contribution, filter);
      ScoreMapKeys(qs, corpus.invertedIndex, corpus.documents, contribution, filter);
      var rs := ToResults(scores);
      r := TopK(rs, k, ResultScore);
      TopKRanked(scores, corpus.documents, rs, k);
    }
  }
}
