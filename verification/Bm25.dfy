/**
 * BM25 over tokenized documents, as a whole collection or as the documents a
 * database pre-filter found (src/search/retrieval.ts).
 */
module Bm25 {
  import opened Wrappers

  datatype Doc = Doc(id: string, terms: seq<string>)

  /** Size and mean length of the collection that is scored against. */
  datatype Corpus = Corpus(size: nat, avgLength: real)

  /** The natural logarithm is taken as any function with the one property the scores rest on. */
  datatype Params = Params(log: real -> real, k1: real, b: real)

  ghost predicate Proper(p: Params) {
    && p.k1 >= 0.0 && 0.0 <= p.b <= 1.0
    && forall x: real | x > 1.0 :: p.log(x) > 0.0
  }

  /* ---------- what is computed ---------- */

  function DocFrequency(term: string, docs: seq<Doc>): (n: nat)
    ensures n <= |docs|
  {
    if docs == [] then 0
    else DocFrequency(term, docs[..|docs| - 1]) + if term in docs[|docs| - 1].terms then 1 else 0
  }

  function TotalLength(docs: seq<Doc>): (n: nat)
    ensures n > 0 <==> exists d :: d in docs && d.terms != []
  {
    if docs == [] then 0
    else
      var rest, last := docs[..|docs| - 1], docs[|docs| - 1];
      assert docs == rest + [last];
      TotalLength(rest) + |last.terms|
  }

  function Mean(docs: seq<Doc>): real
    requires docs != []
  {
    TotalLength(docs) as real / |docs| as real
  }

  function Size(docs: seq<Doc>, corpus: Option<Corpus>): (n: nat)
    ensures n >= |docs|
  {
    if corpus.Some? && corpus.value.size > |docs| then corpus.value.size else |docs|
  }

  function AvgLength(docs: seq<Doc>, corpus: Option<Corpus>): real
    requires docs != []
  {
    if corpus.Some? && corpus.value.avgLength > 0.0 then corpus.value.avgLength else Mean(docs)
  }

  function Idf(p: Params, size: nat, n: nat): real
    requires n <= size
  {
    p.log(1.0 + ((size - n) as real + 0.5) / (n as real + 0.5))
  }

  /** What the document's length and the term's frequency in it divide a term's weight by. */
  ghost function Divisor(p: Params, f: nat, length: nat, avg: real): (d: real)
    requires Proper(p) && f > 0 && avg > 0.0
    ensures d > 0.0
  {
    LengthFactor(p, length, avg);
    f as real + p.k1 * (1.0 - p.b + p.b * length as real / avg)
  }

  lemma LengthFactor(p: Params, length: nat, avg: real)
    requires Proper(p) && avg > 0.0
    ensures p.k1 * (1.0 - p.b + p.b * length as real / avg) >= 0.0
  {
    assert p.b * length as real >= 0.0;
    Quotient(p.b * length as real, avg);
    Product(p.k1, 1.0 - p.b + p.b * length as real / avg);
  }

  lemma Quotient(x: real, y: real)
    requires x >= 0.0 && y > 0.0
    ensures x / y >= 0.0 && (x > 0.0 ==> x / y > 0.0)
  {
  }

  lemma Product(x: real, y: real)
    requires x >= 0.0 && y >= 0.0
    ensures x * y >= 0.0 && (x > 0.0 && y > 0.0 ==> x * y > 0.0)
  {
  }

  ghost function Dividend(p: Params, f: nat, n: nat, size: nat): real
    requires n <= size
  {
    Idf(p, size, n) * (f as real * (p.k1 + 1.0))
  }

  /** What a term with f occurrences in a document, and found in n documents, is worth. */
  ghost function Weight(p: Params, f: nat, n: nat, length: nat, size: nat, avg: real): real
    requires Proper(p) && f > 0 && n <= size && avg > 0.0
  {
    Dividend(p, f, n, size) / Divisor(p, f, length, avg)
  }

  /** What one query term adds to a document's score. */
  ghost function TermScore(p: Params, term: string, doc: Doc, docs: seq<Doc>, size: nat, avg: real): real
    requires Proper(p) && |docs| <= size && (doc.terms != [] ==> avg > 0.0)
  {
    var f := multiset(doc.terms)[term];
    if f == 0 then 0.0 else Weight(p, f, DocFrequency(term, docs), |doc.terms|, size, avg)
  }

  /** The documents that hold the term. */
  function Holding(term: string, docs: seq<Doc>): set<nat> {
    set k: nat | k < |docs| && term in docs[k].terms
  }

  lemma HoldingOneMore(term: string, docs: seq<Doc>)
    requires docs != []
    ensures var last := |docs| - 1;
            Holding(term, docs) == Holding(term, docs[..last]) + if term in docs[last].terms then {last} else {}
  {
  }

  /** They are counted each once. */
  lemma {:induction false} DocFrequencyIs(term: string, docs: seq<Doc>)
    ensures DocFrequency(term, docs) == |Holding(term, docs)|
  {
    if docs != [] {
      var last := |docs| - 1;
      DocFrequencyIs(term, docs[..last]);
      HoldingOneMore(term, docs);
      assert last !in Holding(term, docs[..last]);
    }
  }

  lemma DividedBack(x: real, y: real)
    requires y != 0.0
    ensures x / y * y == x
  {
  }

  lemma WeightIs(p: Params, f: nat, n: nat, length: nat, size: nat, avg: real)
    requires Proper(p) && f > 0 && n <= size && avg > 0.0
    ensures Weight(p, f, n, length, size, avg) * Divisor(p, f, length, avg) == Dividend(p, f, n, size)
    ensures Divisor(p, f, length, avg) == f as real + p.k1 * (1.0 - p.b + p.b * length as real / avg)
    ensures Dividend(p, f, n, size) == p.log(1.0 + ((size - n) as real + 0.5) / (n as real + 0.5)) * (f as real * (p.k1 + 1.0))
  {
    DividedBack(Dividend(p, f, n, size), Divisor(p, f, length, avg));
  }

  /** What a term adds, from its occurrences, the documents that hold it and the document's length. */
  lemma TermScoreIs(p: Params, term: string, doc: Doc, docs: seq<Doc>, size: nat, avg: real)
    requires Proper(p) && |docs| <= size && avg > 0.0
    ensures term !in doc.terms ==> TermScore(p, term, doc, docs, size, avg) == 0.0
    ensures term in doc.terms ==>
              var f, n := multiset(doc.terms)[term], |Holding(term, docs)|;
              f > 0 && n <= size && TermScore(p, term, doc, docs, size, avg) == Weight(p, f, n, |doc.terms|, size, avg)
  {
    DocFrequencyIs(term, docs);
  }

  /** A document's score, over the query's terms in order. */
  ghost function Score(p: Params, qTerms: seq<string>, doc: Doc, docs: seq<Doc>, size: nat, avg: real): real
    requires Proper(p) && |docs| <= size && (doc.terms != [] ==> avg > 0.0)
  {
    if qTerms == [] then 0.0
    else
      Score(p, qTerms[..|qTerms| - 1], doc, docs, size, avg)
      + TermScore(p, qTerms[|qTerms| - 1], doc, docs, size, avg)
  }

  lemma MeanIsPositive(docs: seq<Doc>, doc: Doc)
    requires doc in docs && doc.terms != []
    ensures Mean(docs) > 0.0
  {
    Quotient(TotalLength(docs) as real, |docs| as real);
  }

  /** The score the document gets among `docs`, scored as a whole collection or against given statistics. */
  ghost function ScoreAmong(p: Params, qTerms: seq<string>, doc: Doc, docs: seq<Doc>, corpus: Option<Corpus>): real
    requires Proper(p) && doc in docs
  {
    if doc.terms != [] then
      MeanIsPositive(docs, doc);
      Score(p, qTerms, doc, docs, Size(docs, corpus), AvgLength(docs, corpus))
    else 0.0
  }

  /* ---------- the loops ---------- */

  method TermFrequencies(terms: seq<string>) returns (tf: map<string, nat>)
    ensures forall t :: (t in tf <==> t in terms) && (t in tf ==> tf[t] == multiset(terms)[t])
  {
    tf := map[];
    for i := 0 to |terms|
      invariant forall t :: (t in tf <==> t in terms[..i]) && (t in tf ==> tf[t] == multiset(terms[..i])[t])
    {
      assert terms[..i + 1] == terms[..i] + [terms[i]];
      assert terms[..i + 1][..i] == terms[..i];
      tf := tf[terms[i] := (if terms[i] in tf then tf[terms[i]] else 0) + 1];
    }
    assert terms[..|terms|] == terms;
  }

  method DocFrequencies(qTerms: seq<string>, docs: seq<Doc>) returns (df: map<string, nat>)
    ensures forall t :: (t in df <==> t in qTerms) && (t in df ==> df[t] == DocFrequency(t, docs))
  {
    df := map[];
    for i := 0 to |qTerms|
      invariant forall t :: (t in df <==> t in qTerms[..i]) && (t in df ==> df[t] == DocFrequency(t, docs))
    {
      assert qTerms[..i + 1] == qTerms[..i] + [qTerms[i]];
      df := df[qTerms[i] := DocFrequency(qTerms[i], docs)];
    }
    assert qTerms[..|qTerms|] == qTerms;
  }

  /** The scores after the first n documents; of several with one id, the last counts. */
  ghost function ScoresOf(p: Params, qTerms: seq<string>, docs: seq<Doc>, corpus: Option<Corpus>, n: nat): map<string, real>
    requires Proper(p) && n <= |docs|
  {
    if n == 0 then map[]
    else ScoresOf(p, qTerms, docs, corpus, n - 1)[docs[n - 1].id := ScoreAmong(p, qTerms, docs[n - 1], docs, corpus)]
  }

  method TermScores(p: Params, qTerms: seq<string>, docs: seq<Doc>, corpus: Option<Corpus>)
    returns (scores: map<string, real>)
    requires Proper(p)
    ensures scores == ScoresOf(p, qTerms, docs, corpus, |docs|)
  {
    scores := map[];
    if docs == [] {
      return;
    }
    var size, avg := Size(docs, corpus), AvgLength(docs, corpus);
    var df := DocFrequencies(qTerms, docs);
    for i := 0 to |docs|
      invariant scores == ScoresOf(p, qTerms, docs, corpus, i)
    {
      var score := ScoreOne(p, qTerms, docs[i], docs, corpus, df, size, avg);
      scores := scores[docs[i].id := score];
    }
  }

  /** Every document whose id does not come again is in the result, with its score. */
  lemma {:induction false} ScoresAre(p: Params, qTerms: seq<string>, docs: seq<Doc>, corpus: Option<Corpus>, n: nat, i: nat)
    requires Proper(p) && i < n <= |docs| && forall j | i < j < n :: docs[j].id != docs[i].id
    ensures var scores := ScoresOf(p, qTerms, docs, corpus, n);
            docs[i].id in scores && scores[docs[i].id] == ScoreAmong(p, qTerms, docs[i], docs, corpus)
  {
    if i < n - 1 {
      ScoresAre(p, qTerms, docs, corpus, n - 1, i);
    }
  }

  method WeightOf(p: Params, f: nat, n: nat, length: nat, size: nat, avg: real) returns (w: real)
    requires Proper(p) && f > 0 && n <= size && avg > 0.0
    ensures w == Weight(p, f, n, length, size, avg)
  {
    ghost var divisor := Divisor(p, f, length, avg);
    var idf := p.log(1.0 + ((size - n) as real + 0.5) / (n as real + 0.5));
    w := idf * (f as real * (p.k1 + 1.0)) / (f as real + p.k1 * (1.0 - p.b + p.b * length as real / avg));
  }

  method ScoreOne(p: Params, qTerms: seq<string>, doc: Doc, docs: seq<Doc>, corpus: Option<Corpus>,
                  df: map<string, nat>, size: nat, avg: real) returns (score: real)
    requires Proper(p) && doc in docs && size == Size(docs, corpus) && avg == AvgLength(docs, corpus)
    requires forall t :: (t in df <==> t in qTerms) && (t in df ==> df[t] == DocFrequency(t, docs))
    ensures score == ScoreAmong(p, qTerms, doc, docs, corpus)
  {
    var tf := TermFrequencies(doc.terms);
    score := 0.0;
    if doc.terms != [] {
      MeanIsPositive(docs, doc);
    } else {
      NoTermsNoScore(p, qTerms, doc, docs, size, avg);
    }
    for i := 0 to |qTerms|
      invariant score == Score(p, qTerms[..i], doc, docs, size, avg)
    {
      assert qTerms[..i + 1][..i] == qTerms[..i];
      var term := qTerms[i];
      var f := if term in tf then tf[term] else 0;
      if f == 0 {
        continue;
      }
      var n := df[term];
      var weight := WeightOf(p, f, n, |doc.terms|, size, avg);
      score := score + weight;
    }
    assert qTerms[..|qTerms|] == qTerms;
  }

  lemma {:induction false} NoTermsNoScore(p: Params, qTerms: seq<string>, doc: Doc, docs: seq<Doc>, size: nat, avg: real)
    requires Proper(p) && |docs| <= size && doc.terms == []
    ensures Score(p, qTerms, doc, docs, size, avg) == 0.0
  {
    if qTerms != [] {
      NoTermsNoScore(p, qTerms[..|qTerms| - 1], doc, docs, size, avg);
    }
  }

  /* ---------- positive exactly when a term is shared ---------- */

  predicate Shares(qTerms: seq<string>, doc: Doc) {
    exists t :: t in qTerms && t in doc.terms
  }

  lemma IdfIsPositive(p: Params, size: nat, n: nat)
    requires Proper(p) && n <= size
    ensures Idf(p, size, n) > 0.0
  {
    Quotient((size - n) as real + 0.5, n as real + 0.5);
  }

  /** A logarithm that does not decrease. */
  ghost predicate Increasing(p: Params) {
    forall x: real, y: real | 0.0 < x <= y :: p.log(x) <= p.log(y)
  }

  /** A term found in fewer documents weighs no less. */
  lemma RarerWeighsMore(p: Params, f: nat, n: nat, m: nat, length: nat, size: nat, avg: real)
    requires Proper(p) && Increasing(p) && f > 0 && n <= m <= size && avg > 0.0
    ensures Weight(p, f, m, length, size, avg) <= Weight(p, f, n, length, size, avg)
  {
    RarerIsRarer(p, size, n, m);
    Product(f as real, p.k1 + 1.0);
    var d, x := Divisor(p, f, length, avg), f as real * (p.k1 + 1.0);
    Product(Idf(p, size, n) - Idf(p, size, m), x);
    assert (Idf(p, size, n) - Idf(p, size, m)) * x == Dividend(p, f, n, size) - Dividend(p, f, m, size);
    Product(Dividend(p, f, n, size) - Dividend(p, f, m, size), d);
    LargerQuotient(Dividend(p, f, m, size), d, Dividend(p, f, n, size), d);
  }

  lemma RarerIsRarer(p: Params, size: nat, n: nat, m: nat)
    requires Proper(p) && Increasing(p) && n <= m <= size
    ensures Idf(p, size, m) <= Idf(p, size, n)
  {
    var a, b, c, d := (size - m) as real + 0.5, m as real + 0.5, (size - n) as real + 0.5, n as real + 0.5;
    Product(a, b - d);
    Product(c - a, b);
    assert a * d <= a * b <= c * b;
    LargerQuotient(a, b, c, d);
    Quotient(a, b);
  }

  lemma WeightIsPositive(p: Params, f: nat, n: nat, length: nat, size: nat, avg: real)
    requires Proper(p) && f > 0 && n <= size && avg > 0.0
    ensures Weight(p, f, n, length, size, avg) > 0.0 && Dividend(p, f, n, size) > 0.0
  {
    IdfIsPositive(p, size, n);
    Product(f as real, p.k1 + 1.0);
    Product(Idf(p, size, n), f as real * (p.k1 + 1.0));
    Quotient(Dividend(p, f, n, size), Divisor(p, f, length, avg));
  }

  lemma LargerQuotient(a: real, b: real, c: real, d: real)
    requires b > 0.0 && d > 0.0 && a * d <= c * b
    ensures a / b <= c / d
  {
    var x, y := a / b, c / d;
    assert a == x * b && c == y * d;
    CancelFactors(x, y, b, d);
  }

  lemma CancelFactors(x: real, y: real, b: real, d: real)
    requires b > 0.0 && d > 0.0 && x * b * d <= y * d * b
    ensures x <= y
  {
    var e := b * d;
    Product(b, d);
    assert x * b * d == x * e && y * d * b == y * e;
    assert (x - y) * e == x * e - y * e;
    if x > y {
      Product(x - y, e);
    }
  }

  lemma Regroup(x: real, y: real, z: real)
    ensures x * (y * z) == x * z * y
  {
  }

  ghost function Curve(x: real, c: real, f: real): real
    requires c >= 0.0 && f > 0.0
  {
    x * f / (f + c)
  }

  lemma WeightSaturates(p: Params, f: nat, n: nat, length: nat, size: nat, avg: real, x: real, c: real)
    requires Proper(p) && f > 0 && n <= size && avg > 0.0
    requires x == Idf(p, size, n) * (p.k1 + 1.0) && c == p.k1 * (1.0 - p.b + p.b * length as real / avg)
    ensures c >= 0.0 && Weight(p, f, n, length, size, avg) == Curve(x, c, f as real)
  {
    LengthFactor(p, length, avg);
    Regroup(Idf(p, size, n), f as real, p.k1 + 1.0);
    var dividend, divisor := Dividend(p, f, n, size), Divisor(p, f, length, avg);
    assert dividend == x * f as real && divisor == f as real + c;
  }

  /** More occurrences weigh more, in a document of the same length, and never k1 + 1 times the rarity of the term. */
  lemma MoreOccurrencesWeighMore(p: Params, f: nat, g: nat, n: nat, length: nat, size: nat, avg: real)
    requires Proper(p) && 0 < f <= g && n <= size && avg > 0.0
    ensures Weight(p, f, n, length, size, avg) <= Weight(p, g, n, length, size, avg) <= Idf(p, size, n) * (p.k1 + 1.0)
  {
    IdfIsPositive(p, size, n);
    LengthFactor(p, length, avg);
    var x, c := Idf(p, size, n) * (p.k1 + 1.0), p.k1 * (1.0 - p.b + p.b * length as real / avg);
    Product(Idf(p, size, n), p.k1 + 1.0);
    Product(x, c);
    WeightSaturates(p, f, n, length, size, avg, x, c);
    WeightSaturates(p, g, n, length, size, avg, x, c);
    Saturates(x, c, f as real, g as real);
  }

  lemma Saturates(x: real, c: real, f: real, g: real)
    requires x >= 0.0 && c >= 0.0 && 0.0 < f <= g && x * c >= 0.0
    ensures Curve(x, c, f) <= Curve(x, c, g) <= x
  {
    Product(x * c, g - f);
    assert x * f * (g + c) + x * c * (g - f) == x * g * (f + c);
    LargerQuotient(x * f, f + c, x * g, g + c);
    assert x * g <= x * (g + c);
    LargerQuotient(x * g, g + c, x, 1.0);
  }

  lemma LargerDivisor(x: real, d: real, e: real)
    requires x >= 0.0 && 0.0 < d <= e
    ensures x / e <= x / d
  {
    Product(x, e - d);
    assert x * (e - d) == x * e - x * d;
    LargerQuotient(x, e, x, d);
  }

  /** A term weighs no more in a longer document. */
  lemma LongerWeighsLess(p: Params, f: nat, n: nat, length: nat, longer: nat, size: nat, avg: real)
    requires Proper(p) && f > 0 && n <= size && avg > 0.0 && length <= longer
    ensures Weight(p, f, n, longer, size, avg) <= Weight(p, f, n, length, size, avg)
  {
    WeightIsPositive(p, f, n, length, size, avg);
    DivisorGrows(p, f, length, longer, avg);
    LargerDivisor(Dividend(p, f, n, size), Divisor(p, f, length, avg), Divisor(p, f, longer, avg));
  }

  lemma DivisorGrows(p: Params, f: nat, length: nat, longer: nat, avg: real)
    requires Proper(p) && f > 0 && avg > 0.0 && length <= longer
    ensures Divisor(p, f, length, avg) <= Divisor(p, f, longer, avg)
  {
    var l, m := p.b * length as real / avg, p.b * longer as real / avg;
    Product(p.b, longer as real - length as real);
    LargerQuotient(p.b * length as real, avg, p.b * longer as real, avg);
    Product(p.k1, m - l);
    assert p.k1 * (1.0 - p.b + m) - p.k1 * (1.0 - p.b + l) == p.k1 * (m - l);
  }

  lemma TermScoreIsPositive(p: Params, term: string, doc: Doc, docs: seq<Doc>, size: nat, avg: real)
    requires Proper(p) && |docs| <= size && (doc.terms != [] ==> avg > 0.0)
    ensures TermScore(p, term, doc, docs, size, avg) >= 0.0
    ensures TermScore(p, term, doc, docs, size, avg) > 0.0 <==> term in doc.terms
  {
    var f := multiset(doc.terms)[term];
    if f > 0 {
      WeightIsPositive(p, f, DocFrequency(term, docs), |doc.terms|, size, avg);
    }
  }

  lemma {:induction false} ScoreIsPositiveIff(p: Params, qTerms: seq<string>, doc: Doc, docs: seq<Doc>, size: nat, avg: real)
    requires Proper(p) && |docs| <= size && (doc.terms != [] ==> avg > 0.0)
    ensures Score(p, qTerms, doc, docs, size, avg) >= 0.0
    ensures Score(p, qTerms, doc, docs, size, avg) > 0.0 <==> Shares(qTerms, doc)
  {
    if qTerms != [] {
      var rest, last := qTerms[..|qTerms| - 1], qTerms[|qTerms| - 1];
      assert qTerms == rest + [last];
      ScoreIsPositiveIff(p, rest, doc, docs, size, avg);
      TermScoreIsPositive(p, last, doc, docs, size, avg);
    }
  }

  /** A document's score is positive exactly when it contains a query term. */
  lemma PositiveIffShares(p: Params, qTerms: seq<string>, doc: Doc, docs: seq<Doc>, corpus: Option<Corpus>)
    requires Proper(p) && doc in docs
    ensures ScoreAmong(p, qTerms, doc, docs, corpus) >= 0.0
    ensures ScoreAmong(p, qTerms, doc, docs, corpus) > 0.0 <==> Shares(qTerms, doc)
  {
    if doc.terms != [] {
      MeanIsPositive(docs, doc);
      ScoreIsPositiveIff(p, qTerms, doc, docs, Size(docs, corpus), AvgLength(docs, corpus));
    }
  }

  /* ---------- a pre-filtered list scores as the whole collection ---------- */

  function Matching(qTerms: seq<string>, docs: seq<Doc>): (r: seq<Doc>)
    ensures forall d :: d in r <==> d in docs && Shares(qTerms, d)
    ensures |r| <= |docs|
  {
    if docs == [] then []
    else
      var rest, last := docs[..|docs| - 1], docs[|docs| - 1];
      assert docs == rest + [last];
      Matching(qTerms, rest) + if Shares(qTerms, last) then [last] else []
  }

  lemma FrequencyOfOneMore(term: string, docs: seq<Doc>, last: Doc)
    ensures DocFrequency(term, docs + [last]) == DocFrequency(term, docs) + if term in last.terms then 1 else 0
  {
    assert (docs + [last])[..|docs|] == docs;
  }

  lemma {:induction false} FilterKeepsFrequency(qTerms: seq<string>, docs: seq<Doc>, term: string)
    requires term in qTerms
    ensures DocFrequency(term, Matching(qTerms, docs)) == DocFrequency(term, docs)
  {
    if docs != [] {
      var rest, last := docs[..|docs| - 1], docs[|docs| - 1];
      var kept := Matching(qTerms, rest);
      FilterKeepsFrequency(qTerms, rest, term);
      if Shares(qTerms, last) {
        FrequencyOfOneMore(term, kept, last);
      } else {
        assert term !in last.terms;
        assert kept + [] == kept;
      }
    }
  }

  lemma {:induction false} SameFrequenciesSameScore(p: Params, qTerms: seq<string>, doc: Doc, some: seq<Doc>, all: seq<Doc>,
                                                    size: nat, avg: real)
    requires Proper(p) && |some| <= size && |all| <= size && (doc.terms != [] ==> avg > 0.0)
    requires forall t | t in qTerms :: DocFrequency(t, some) == DocFrequency(t, all)
    ensures Score(p, qTerms, doc, some, size, avg) == Score(p, qTerms, doc, all, size, avg)
  {
    if qTerms != [] {
      var rest, last := qTerms[..|qTerms| - 1], qTerms[|qTerms| - 1];
      assert qTerms == rest + [last];
      SameFrequenciesSameScore(p, rest, doc, some, all, size, avg);
    }
  }

  /** The statistics the database gives beside the documents it found. */
  function Statistics(docs: seq<Doc>): Corpus
    requires docs != []
  {
    Corpus(|docs|, Mean(docs))
  }

  lemma FoundScoresAreExact(p: Params, qTerms: seq<string>, docs: seq<Doc>, doc: Doc)
    requires Proper(p) && doc in docs && doc in Matching(qTerms, docs) && doc.terms != []
    ensures ScoreAmong(p, qTerms, doc, Matching(qTerms, docs), Some(Statistics(docs)))
            == ScoreAmong(p, qTerms, doc, docs, None)
  {
    var found := Matching(qTerms, docs);
    MeanIsPositive(docs, doc);
    assert Size(found, Some(Statistics(docs))) == |docs|;
    assert AvgLength(found, Some(Statistics(docs))) == Mean(docs);
    forall t | t in qTerms
      ensures DocFrequency(t, found) == DocFrequency(t, docs)
    {
      FilterKeepsFrequency(qTerms, docs, t);
    }
    SameFrequenciesSameScore(p, qTerms, doc, found, docs, |docs|, Mean(docs));
  }

  /**
   * Scoring only the documents that share a query term, given the whole
   * collection's size and mean length, gives each of them the score it has in
   * the whole collection; every other document scores zero there.
   */
  lemma FilteredScoresAreExact(p: Params, qTerms: seq<string>, docs: seq<Doc>, doc: Doc)
    requires Proper(p) && doc in docs
    ensures if Shares(qTerms, doc)
            then ScoreAmong(p, qTerms, doc, Matching(qTerms, docs), Some(Statistics(docs)))
                 == ScoreAmong(p, qTerms, doc, docs, None)
            else doc !in Matching(qTerms, docs) && ScoreAmong(p, qTerms, doc, docs, None) == 0.0
  {
    PositiveIffShares(p, qTerms, doc, docs, None);
    if Shares(qTerms, doc) {
      FoundScoresAreExact(p, qTerms, docs, doc);
    }
  }
}
