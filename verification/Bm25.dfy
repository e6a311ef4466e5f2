/** The inverted BM25 index: how it is built, and that its query equals a scan of all chunks. */
module Bm25 {
  import opened Tokenizer
  import opened Reals
  import Splitter

  type Counts = map<string, nat>

  datatype Posting = Posting(chunk: nat, tf: nat)

  datatype TermEntry = TermEntry(df: nat, postings: seq<Posting>)

  datatype BM25Index = BM25Index(index: map<string, TermEntry>, lengths: seq<nat>, avgLen: real, n: nat,
                                 k1: real, b: real)

  // ---- counting tokens ----

  /** One more occurrence of a token. */
  function AddOne(m: Counts, t: string): Counts {
    m[t := (if t in m then m[t] else 0) + 1]
  }

  function CountTokens(tokens: seq<string>): Counts {
    if tokens == [] then map[] else AddOne(CountTokens(tokens[..|tokens| - 1]), tokens[|tokens| - 1])
  }

  /** The counts say how often each token occurs. */
  lemma {:induction false} CountsAreOccurrences(tokens: seq<string>)
    ensures forall t :: t in CountTokens(tokens) <==> t in tokens
    ensures forall t :: t in CountTokens(tokens) ==>
              CountTokens(tokens)[t] == multiset(tokens)[t] && CountTokens(tokens)[t] > 0
  {
    if tokens != [] {
      var init, t := tokens[..|tokens| - 1], tokens[|tokens| - 1];
      CountsAreOccurrences(init);
      assert tokens == init + [t];
    }
  }

  /** The length of a text in bytes. */
  function ByteLength(text: string): nat {
    Splitter.Offset(text, |text|)
  }

  lemma ByteLengthPositive(text: string)
    ensures text != "" ==> ByteLength(text) > 0
  {
  }

  // ---- what the index should be ----

  /** The postings of a term in the first `k` chunks: one for each chunk that has it, in chunk order. */
  ghost function PostingsOf(tokenized: seq<Counts>, t: string, k: nat): (p: seq<Posting>)
    requires k <= |tokenized|
    ensures |p| <= k
    ensures forall i :: 0 <= i < |p| ==>
              p[i].chunk < k && t in tokenized[p[i].chunk] && p[i].tf == tokenized[p[i].chunk][t]
  {
    if k == 0 then []
    else
      PostingsOf(tokenized, t, k - 1) + if t in tokenized[k - 1] then [Posting(k - 1, tokenized[k - 1][t])] else []
  }

  ghost predicate Indexes(index: map<string, TermEntry>, tokenized: seq<Counts>, k: nat)
    requires k <= |tokenized|
  {
    && (forall t :: t in index <==> PostingsOf(tokenized, t, k) != [])
    && (forall t :: t in index ==>
          index[t] == TermEntry(|PostingsOf(tokenized, t, k)|, PostingsOf(tokenized, t, k)))
  }

  function Total(lengths: seq<nat>): nat {
    if lengths == [] then 0 else Total(lengths[..|lengths| - 1]) + lengths[|lengths| - 1]
  }

  function Average(lengths: seq<nat>): real {
    Total(lengths) as real / (if |lengths| == 0 then 1 else |lengths|) as real
  }

  /** `x` is the index of these chunks. */
  ghost predicate IsIndex(x: BM25Index, tokenized: seq<Counts>, lengths: seq<nat>, k1: real, b: real) {
    && |tokenized| == |lengths|
    && Indexes(x.index, tokenized, |tokenized|)
    && x.lengths == lengths && x.avgLen == Average(lengths) && x.n == |tokenized|
    && x.k1 == k1 && x.b == b
  }

  /** The chunks determine the index. */
  lemma IndexUnique(x: BM25Index, y: BM25Index, tokenized: seq<Counts>, lengths: seq<nat>, k1: real, b: real)
    requires IsIndex(x, tokenized, lengths, k1, b) && IsIndex(y, tokenized, lengths, k1, b)
    ensures x == y
  {
    assert x.index.Keys == y.index.Keys;
    assert x.index == y.index;
  }

  /** The index determines the chunks: each one's counts are its postings, and the lengths are kept. */
  lemma IndexDetermines(x: BM25Index, t1: seq<Counts>, l1: seq<nat>, t2: seq<Counts>, l2: seq<nat>, k1: real, b: real)
    requires IsIndex(x, t1, l1, k1, b) && IsIndex(x, t2, l2, k1, b)
    ensures t1 == t2 && l1 == l2
  {
    forall c | 0 <= c < |t1|
      ensures t1[c] == t2[c]
    {
      forall t
        ensures t in t1[c] <==> t in t2[c]
        ensures t in t1[c] && t in t2[c] ==> t1[c][t] == t2[c][t]
      {
        SamePostings(x, t1, l1, t2, l2, k1, b, t);
        PostingsTell(t1, t2, t, c);
      }
      assert t1[c].Keys == t2[c].Keys;
    }
  }

  lemma SamePostings(x: BM25Index, t1: seq<Counts>, l1: seq<nat>, t2: seq<Counts>, l2: seq<nat>, k1: real, b: real,
                     t: string)
    requires IsIndex(x, t1, l1, k1, b) && IsIndex(x, t2, l2, k1, b)
    ensures |t1| == |t2| && PostingsOf(t1, t, |t1|) == PostingsOf(t2, t, |t2|)
  {
    if t in x.index {
      assert x.index[t].postings == PostingsOf(t1, t, |t1|);
    }
  }

  /** The postings of a term tell which chunks have it, and how often. */
  lemma PostingsTell(t1: seq<Counts>, t2: seq<Counts>, t: string, c: nat)
    requires c < |t1| == |t2| && PostingsOf(t1, t, |t1|) == PostingsOf(t2, t, |t2|)
    ensures t in t1[c] <==> t in t2[c]
    ensures t in t1[c] && t in t2[c] ==> t1[c][t] == t2[c][t]
  {
    PostingsComplete(t1, t, |t1|);
    PostingsComplete(t2, t, |t2|);
    var p := PostingsOf(t1, t, |t1|);
    if t in t1[c] {
      var i :| 0 <= i < |p| && p[i].chunk == c;
      assert p[i].tf == t1[c][t];
    }
  }

  // ---- building ----

  /** `r` is `index` with the postings of chunk `ci` for its tokens other than those of `rest`. */
  ghost predicate Extending(index: map<string, TermEntry>, seen: Counts, ci: nat, rest: set<string>,
                            r: map<string, TermEntry>)
  {
    && rest <= seen.Keys
    && r.Keys == index.Keys + (seen.Keys - rest)
    && forall t :: t in r ==>
         r[t] == if t in seen && t !in rest then Extended(index, t, Posting(ci, seen[t])) else index[t]
  }

  lemma ExtendOne(index: map<string, TermEntry>, seen: Counts, ci: nat, rest: set<string>, r: map<string, TermEntry>,
                  t: string)
    requires Extending(index, seen, ci, rest, r) && t in rest
    ensures Extending(index, seen, ci, rest - {t}, r[t := Extended(r, t, Posting(ci, seen[t]))])
  {
  }

  lemma ChunkAdded(index: map<string, TermEntry>, tokenized: seq<Counts>, ci: nat, r: map<string, TermEntry>)
    requires ci < |tokenized| && Indexes(index, tokenized, ci) && Extending(index, tokenized[ci], ci, {}, r)
    ensures Indexes(r, tokenized, ci + 1)
  {
  }

  /** One chunk's counts are added to the index, token by token in no particular order. */
  method AddChunk(index: map<string, TermEntry>, tokenized: seq<Counts>, ci: nat) returns (r: map<string, TermEntry>)
    requires ci < |tokenized| && Indexes(index, tokenized, ci)
    ensures Indexes(r, tokenized, ci + 1)
  {
    r := index;
    var seen := tokenized[ci];
    var rest := seen.Keys;
    while rest != {}
      invariant Extending(index, seen, ci, rest, r)
    {
      var token :| token in rest;
      ExtendOne(index, seen, ci, rest, r, token);
      rest := rest - {token};
      var entry := if token in r then r[token] else TermEntry(0, []);
      r := r[token := TermEntry(entry.df + 1, entry.postings + [Posting(ci, seen[token])])];
    }
    ChunkAdded(index, tokenized, ci, r);
  }

  function Extended(index: map<string, TermEntry>, t: string, p: Posting): TermEntry {
    var entry := if t in index then index[t] else TermEntry(0, []);
    TermEntry(entry.df + 1, entry.postings + [p])
  }

  method FromTokenCounts(tokenized: seq<Counts>, lengths: seq<nat>, k1: real, b: real) returns (x: BM25Index)
    requires |tokenized| == |lengths|
    ensures IsIndex(x, tokenized, lengths, k1, b)
  {
    var index: map<string, TermEntry> := map[];
    for ci := 0 to |tokenized|
      invariant Indexes(index, tokenized, ci)
    {
      index := AddChunk(index, tokenized, ci);
    }
    x := BM25Index(index, lengths, Average(lengths), |tokenized|, k1, b);
  }

  ghost function CountsOf(u: CharTable, texts: seq<string>): (r: seq<Counts>)
    ensures |r| == |texts|
  {
    seq(|texts|, i requires 0 <= i < |texts| => CountTokens(Tokens(u, texts[i])))
  }

  function LengthsOf(texts: seq<string>): (r: seq<nat>)
    ensures |r| == |texts|
  {
    seq(|texts|, i requires 0 <= i < |texts| => ByteLength(texts[i]))
  }

  /** `x` is the index built from scratch over these chunk texts. */
  ghost predicate IsBuild(u: CharTable, x: BM25Index, texts: seq<string>, k1: real, b: real) {
    IsIndex(x, CountsOf(u, texts), LengthsOf(texts), k1, b)
  }

  method CountAll(u: CharTable, texts: seq<string>) returns (tokenized: seq<Counts>)
    ensures tokenized == CountsOf(u, texts)
  {
    tokenized := [];
    for i := 0 to |texts|
      invariant |tokenized| == i && forall j :: 0 <= j < i ==> tokenized[j] == CountTokens(Tokens(u, texts[j]))
    {
      var tokens := Tokenize(u, texts[i]);
      tokenized := tokenized + [CountTokens(tokens)];
    }
  }

  method Build(u: CharTable, texts: seq<string>, k1: real, b: real) returns (x: BM25Index)
    ensures IsBuild(u, x, texts, k1, b)
  {
    var tokenized := CountAll(u, texts);
    x := FromTokenCounts(tokenized, LengthsOf(texts), k1, b);
  }

  // ---- querying ----

  function Idf(ln: real -> real, n: nat, df: nat): real {
    ln(1.0 + (n as real - df as real + 0.5) / (df as real + 0.5))
  }

  /** The length normalisation in the denominator of a term's score. */
  function Norm(k1: real, b: real, len: nat, avgLen: real): real
    requires avgLen > 0.0
  {
    k1 * (1.0 - b + b * (len as real / avgLen))
  }

  function TfNorm(tf: nat, k1: real, norm: real): real
    requires tf as real + norm > 0.0
  {
    (tf as real * (k1 + 1.0)) / (tf as real + norm)
  }

  lemma NormNonNegative(k1: real, b: real, len: nat, avgLen: real)
    requires k1 >= 0.0 && 0.0 <= b <= 1.0 && avgLen > 0.0
    ensures Norm(k1, b, len, avgLen) >= 0.0
  {
    var share := len as real / avgLen;
    assert share >= 0.0;
    assert b * share >= 0.0;
    var factor := 1.0 - b + b * share;
    assert k1 * factor >= 0.0;
  }

  /** What a term adds to the score of a chunk that has it. */
  function TermScore(ln: real -> real, n: nat, df: nat, tf: nat, k1: real, b: real, len: nat, avgLen: real): real
    requires k1 >= 0.0 && 0.0 <= b <= 1.0 && avgLen > 0.0 && tf > 0
  {
    NormNonNegative(k1, b, len, avgLen);
    Idf(ln, n, df) * TfNorm(tf, k1, Norm(k1, b, len, avgLen))
  }

  /** The chunks, among the first `k`, that have the term. */
  ghost function Having(tokenized: seq<Counts>, t: string, k: nat): (r: set<nat>)
    requires k <= |tokenized|
    ensures forall c: nat :: c in r <==> c < k && t in tokenized[c]
  {
    if k == 0 then {} else Having(tokenized, t, k - 1) + if t in tokenized[k - 1] then {k - 1} else {}
  }

  /** The number of chunks that have the term. */
  ghost function DocumentFrequency(tokenized: seq<Counts>, t: string): nat {
    |Having(tokenized, t, |tokenized|)|
  }

  /** Chunks with a token have text, so that lengths and their average are positive there. */
  ghost predicate Measured(tokenized: seq<Counts>, lengths: seq<nat>) {
    && |tokenized| == |lengths|
    && (forall c :: 0 <= c < |tokenized| && tokenized[c] != map[] ==> lengths[c] > 0)
    && (forall c, t :: 0 <= c < |tokenized| && t in tokenized[c] ==> tokenized[c][t] > 0)
  }

  ghost predicate SaneParameters(k1: real, b: real) {
    k1 >= 0.0 && 0.0 <= b <= 1.0
  }

  /** The scan: the score of chunk `c` for the query terms, term by term. */
  ghost function ScanScore(ln: real -> real, tokenized: seq<Counts>, lengths: seq<nat>, k1: real, b: real,
                           terms: seq<string>, c: nat): real
    requires Measured(tokenized, lengths) && SaneParameters(k1, b) && c < |tokenized|
  {
    if terms == [] then 0.0
    else
      var t := terms[|terms| - 1];
      ScanScore(ln, tokenized, lengths, k1, b, terms[..|terms| - 1], c) +
      TermPart(ln, tokenized, lengths, k1, b, t, c)
  }

  ghost predicate Matches(tokenized: seq<Counts>, terms: seq<string>, c: nat) {
    c < |tokenized| && exists t :: t in terms && t in tokenized[c]
  }

  lemma {:induction false} TotalAtLeast(lengths: seq<nat>, c: nat)
    requires c < |lengths|
    ensures Total(lengths) >= lengths[c]
  {
    if c < |lengths| - 1 {
      TotalAtLeast(lengths[..|lengths| - 1], c);
    }
  }

  lemma AveragePositive(lengths: seq<nat>, c: nat)
    requires c < |lengths| && lengths[c] > 0
    ensures Average(lengths) > 0.0
  {
    TotalAtLeast(lengths, c);
  }

  /** The postings of a term are as many as the chunks that have it. */
  lemma {:induction false} PostingsAreFrequency(tokenized: seq<Counts>, t: string, k: nat)
    requires k <= |tokenized|
    ensures |PostingsOf(tokenized, t, k)| == |Having(tokenized, t, k)|
  {
    if k > 0 {
      PostingsAreFrequency(tokenized, t, k - 1);
    }
  }

  ghost predicate ChunkOrder(p: seq<Posting>) {
    forall i, j :: 0 <= i < j < |p| ==> p[i].chunk < p[j].chunk
  }

  /** The postings are in chunk order. */
  lemma {:induction false} PostingsOrdered(tokenized: seq<Counts>, t: string, k: nat)
    requires k <= |tokenized|
    ensures ChunkOrder(PostingsOf(tokenized, t, k))
  {
    if k > 0 {
      PostingsOrdered(tokenized, t, k - 1);
      if t in tokenized[k - 1] {
        OrderAppend(PostingsOf(tokenized, t, k - 1), Posting(k - 1, tokenized[k - 1][t]));
      } else {
        assert PostingsOf(tokenized, t, k) == PostingsOf(tokenized, t, k - 1);
      }
    }
  }

  lemma OrderAppend(p: seq<Posting>, q: Posting)
    requires ChunkOrder(p) && forall i :: 0 <= i < |p| ==> p[i].chunk < q.chunk
    ensures ChunkOrder(p + [q])
  {
  }

  /** There is a posting for exactly the chunks that have the term. */
  lemma {:induction false} PostingsComplete(tokenized: seq<Counts>, t: string, k: nat)
    requires k <= |tokenized|
    ensures forall c: nat :: c < k && t in tokenized[c] <==> HasPosting(PostingsOf(tokenized, t, k), c)
  {
    if k > 0 {
      PostingsComplete(tokenized, t, k - 1);
      var before, p := PostingsOf(tokenized, t, k - 1), PostingsOf(tokenized, t, k);
      forall c: nat
        ensures HasPosting(p, c) <==> HasPosting(before, c) || (c == k - 1 && t in tokenized[k - 1])
      {
        if HasPosting(before, c) {
          var i :| 0 <= i < |before| && before[i].chunk == c;
          assert p[i].chunk == c;
        }
        if t in tokenized[k - 1] {
          assert p[|before|].chunk == k - 1;
        }
      }
    }
  }

  ghost predicate HasPosting(p: seq<Posting>, c: nat) {
    exists i :: 0 <= i < |p| && p[i].chunk == c
  }

  function ScoreOr0(scores: map<nat, real>, c: nat): real {
    if c in scores then scores[c] else 0.0
  }

  /** Adds one query term's contribution along its postings. */
  method AddTerm(ln: real -> real, x: BM25Index, entry: TermEntry, scores: map<nat, real>,
                 ghost tokenized: seq<Counts>, ghost lengths: seq<nat>, ghost t: string)
    returns (r: map<nat, real>)
    requires IsIndex(x, tokenized, lengths, x.k1, x.b) && Measured(tokenized, lengths) && SaneParameters(x.k1, x.b)
    requires t in x.index && entry == x.index[t]
    ensures forall c: nat :: c in r <==> c in scores || (c < |tokenized| && t in tokenized[c])
    ensures forall c: nat :: c < |tokenized| ==>
              ScoreOr0(r, c) == ScoreOr0(scores, c) + TermPart(ln, tokenized, lengths, x.k1, x.b, t, c)
  {
    r := scores;
    ghost var parts := Parts(ln, tokenized, lengths, x.k1, x.b, t);
    PostingsOrdered(tokenized, t, |tokenized|);
    for i := 0 to |entry.postings|
      invariant Partial(parts, scores, entry.postings[..i], r)
    {
      var posting := entry.postings[i];
      PostingPart(ln, x, tokenized, lengths, t, i);
      var score := TermScore(ln, x.n, entry.df, posting.tf, x.k1, x.b, x.lengths[posting.chunk], x.avgLen);
      PartialStep(parts, scores, entry.postings, i, r, score);
      r := r[posting.chunk := ScoreOr0(r, posting.chunk) + score];
    }
    assert entry.postings[..|entry.postings|] == entry.postings;
    TermAdded(ln, tokenized, lengths, x.k1, x.b, t, scores, r);
  }

  /** The term's part in the score of each chunk. */
  ghost function Parts(ln: real -> real, tokenized: seq<Counts>, lengths: seq<nat>, k1: real, b: real, t: string)
    : (parts: seq<real>)
    requires Measured(tokenized, lengths) && SaneParameters(k1, b)
    ensures |parts| == |tokenized|
  {
    seq(|tokenized|, c requires 0 <= c < |tokenized| => TermPart(ln, tokenized, lengths, k1, b, t, c))
  }

  /** What is added for a posting is the term's part of the chunk's score. */
  lemma PostingPart(ln: real -> real, x: BM25Index, tokenized: seq<Counts>, lengths: seq<nat>, t: string, i: nat)
    requires IsIndex(x, tokenized, lengths, x.k1, x.b) && Measured(tokenized, lengths) && SaneParameters(x.k1, x.b)
    requires t in x.index && i < |x.index[t].postings|
    ensures var posting := x.index[t].postings[i];
            && posting.chunk < |tokenized| && posting.tf > 0 && x.avgLen > 0.0
            && TermScore(ln, x.n, x.index[t].df, posting.tf, x.k1, x.b, x.lengths[posting.chunk], x.avgLen)
               == Parts(ln, tokenized, lengths, x.k1, x.b, t)[posting.chunk]
  {
    PostingsAreFrequency(tokenized, t, |tokenized|);
    AveragePositive(lengths, x.index[t].postings[i].chunk);
  }

  /** `r` is `scores` with the part added for each chunk of the postings `done`. */
  ghost predicate Partial(parts: seq<real>, scores: map<nat, real>, done: seq<Posting>, r: map<nat, real>) {
    && (forall c: nat :: c in r <==> c in scores || HasPosting(done, c))
    && (forall c: nat :: c < |parts| ==>
          ScoreOr0(r, c) == ScoreOr0(scores, c) + if HasPosting(done, c) then parts[c] else 0.0)
  }

  lemma PartialStep(parts: seq<real>, scores: map<nat, real>, p: seq<Posting>, i: nat, r: map<nat, real>, score: real)
    requires i < |p| && ChunkOrder(p) && Partial(parts, scores, p[..i], r)
    requires p[i].chunk < |parts| && score == parts[p[i].chunk]
    ensures Partial(parts, scores, p[..i + 1], r[p[i].chunk := ScoreOr0(r, p[i].chunk) + score])
  {
    NextPosting(p, i);
  }

  /** Once all postings are done, the term's part has been added for every chunk. */
  lemma TermAdded(ln: real -> real, tokenized: seq<Counts>, lengths: seq<nat>, k1: real, b: real, t: string,
                  scores: map<nat, real>, r: map<nat, real>)
    requires Measured(tokenized, lengths) && SaneParameters(k1, b)
    requires Partial(Parts(ln, tokenized, lengths, k1, b, t), scores, PostingsOf(tokenized, t, |tokenized|), r)
    ensures forall c: nat :: c in r <==> c in scores || (c < |tokenized| && t in tokenized[c])
    ensures forall c: nat :: c < |tokenized| ==>
              ScoreOr0(r, c) == ScoreOr0(scores, c) + TermPart(ln, tokenized, lengths, k1, b, t, c)
  {
    PostingsComplete(tokenized, t, |tokenized|);
  }

  lemma NextPosting(p: seq<Posting>, i: nat)
    requires i < |p| && ChunkOrder(p)
    ensures !HasPosting(p[..i], p[i].chunk)
    ensures forall c: nat :: HasPosting(p[..i + 1], c) <==> HasPosting(p[..i], c) || c == p[i].chunk
  {
    forall c: nat
      ensures HasPosting(p[..i + 1], c) <==> HasPosting(p[..i], c) || c == p[i].chunk
    {
      assert p[..i + 1][i] == p[i];
      if HasPosting(p[..i], c) {
        var j :| 0 <= j < i && p[..i][j].chunk == c;
        assert p[..i + 1][j].chunk == c;
      }
      if HasPosting(p[..i + 1], c) {
        var j :| 0 <= j < i + 1 && p[..i + 1][j].chunk == c;
        assert j < i ==> p[..i][j].chunk == c;
      }
    }
  }

  /** What a term adds to the score of a chunk: nothing, if the chunk does not have it. */
  ghost function TermPart(ln: real -> real, tokenized: seq<Counts>, lengths: seq<nat>, k1: real, b: real,
                              t: string, c: nat): real
    requires Measured(tokenized, lengths) && SaneParameters(k1, b) && c < |tokenized|
  {
    if t in tokenized[c] then
      AveragePositive(lengths, c);
      TermScore(ln, |tokenized|, DocumentFrequency(tokenized, t), tokenized[c][t], k1, b, lengths[c], Average(lengths))
    else 0.0
  }

  ghost predicate Scored(ln: real -> real, tokenized: seq<Counts>, lengths: seq<nat>, k1: real, b: real,
                         terms: seq<string>, scores: map<nat, real>)
    requires Measured(tokenized, lengths) && SaneParameters(k1, b)
  {
    && (forall c: nat :: c in scores <==> Matches(tokenized, terms, c))
    && (forall c: nat :: c < |tokenized| ==>
          ScoreOr0(scores, c) == ScanScore(ln, tokenized, lengths, k1, b, terms, c))
  }

  lemma ScanAppend(ln: real -> real, tokenized: seq<Counts>, lengths: seq<nat>, k1: real, b: real,
                   terms: seq<string>, t: string, scores: map<nat, real>, scores': map<nat, real>)
    requires Measured(tokenized, lengths) && SaneParameters(k1, b)
    requires Scored(ln, tokenized, lengths, k1, b, terms, scores)
    requires forall c: nat :: c in scores' <==> c in scores || (c < |tokenized| && t in tokenized[c])
    requires forall c: nat :: c < |tokenized| ==>
               ScoreOr0(scores', c) == ScoreOr0(scores, c) + TermPart(ln, tokenized, lengths, k1, b, t, c)
    ensures Scored(ln, tokenized, lengths, k1, b, terms + [t], scores')
  {
    assert (terms + [t])[..|terms|] == terms;
    forall c: nat
      ensures Matches(tokenized, terms + [t], c) <==>
                Matches(tokenized, terms, c) || (c < |tokenized| && t in tokenized[c])
    {
      assert forall x :: x in terms + [t] <==> x in terms || x == t;
    }
  }

  /** The scores of all chunks for the query terms. */
  method Accumulate(ln: real -> real, x: BM25Index, terms: seq<string>, ghost tokenized: seq<Counts>,
                    ghost lengths: seq<nat>)
    returns (scores: map<nat, real>)
    requires IsIndex(x, tokenized, lengths, x.k1, x.b) && Measured(tokenized, lengths) && SaneParameters(x.k1, x.b)
    ensures Scored(ln, tokenized, lengths, x.k1, x.b, terms, scores)
  {
    scores := map[];
    for i := 0 to |terms|
      invariant Scored(ln, tokenized, lengths, x.k1, x.b, terms[..i], scores)
    {
      var t := terms[i];
      ghost var before := scores;
      assert terms[..i + 1] == terms[..i] + [t];
      if t in x.index {
        scores := AddTerm(ln, x, x.index[t], scores, tokenized, lengths, t);
      } else {
        NoPostings(tokenized, t);
      }
      ScanAppend(ln, tokenized, lengths, x.k1, x.b, terms[..i], t, before, scores);
    }
    assert terms[..|terms|] == terms;
  }

  lemma NoPostings(tokenized: seq<Counts>, t: string)
    requires PostingsOf(tokenized, t, |tokenized|) == []
    ensures forall c: nat :: c < |tokenized| ==> t !in tokenized[c]
  {
    PostingsComplete(tokenized, t, |tokenized|);
    forall c: nat | c < |tokenized|
      ensures t !in tokenized[c]
    {
      assert !HasPosting(PostingsOf(tokenized, t, |tokenized|), c);
    }
  }

  // ---- ranking ----

  ghost predicate Descending(q: seq<(nat, real)>) {
    forall i, j :: 0 <= i < j < |q| ==> q[i].1 >= q[j].1
  }

  /** `ranked` lists exactly the chunks that match, each once, with its scanned score, best first. */
  ghost predicate IsRanking(ln: real -> real, tokenized: seq<Counts>, lengths: seq<nat>, k1: real, b: real,
                            terms: seq<string>, ranked: seq<(nat, real)>)
    requires Measured(tokenized, lengths) && SaneParameters(k1, b)
  {
    && Descending(ranked)
    && (forall i, j :: 0 <= i < j < |ranked| ==> ranked[i].0 != ranked[j].0)
    && (forall c: nat :: Matches(tokenized, terms, c) <==> exists i :: 0 <= i < |ranked| && ranked[i].0 == c)
    && (forall i :: 0 <= i < |ranked| ==>
          ranked[i].0 < |tokenized| && ranked[i].1 == ScanScore(ln, tokenized, lengths, k1, b, terms, ranked[i].0))
  }

  /** Puts an entry after all those with at least its score. */
  method Insert(q: seq<(nat, real)>, e: (nat, real)) returns (r: seq<(nat, real)>)
    requires Descending(q)
    ensures Descending(r) && exists k :: 0 <= k <= |q| && r == q[..k] + [e] + q[k..]
  {
    var k := |q|;
    while k > 0 && q[k - 1].1 < e.1
      invariant 0 <= k <= |q|
      invariant forall i :: k <= i < |q| ==> q[i].1 < e.1
    {
      k := k - 1;
    }
    r := q[..k] + [e] + q[k..];
  }

  /** The entries of a score map, in no particular order, sorted by descending score. */
  method Ranked(scores: map<nat, real>) returns (ranked: seq<(nat, real)>)
    ensures Descending(ranked)
    ensures forall i, j :: 0 <= i < j < |ranked| ==> ranked[i].0 != ranked[j].0
    ensures forall e :: e in ranked <==> e.0 in scores && scores[e.0] == e.1
  {
    ranked := [];
    var rest := scores.Keys;
    while rest != {}
      invariant rest <= scores.Keys && Descending(ranked)
      invariant forall i, j :: 0 <= i < j < |ranked| ==> ranked[i].0 != ranked[j].0
      invariant forall e :: e in ranked <==> e.0 in scores && e.0 !in rest && scores[e.0] == e.1
    {
      var c :| c in rest;
      ghost var before := ranked;
      ranked := Insert(ranked, (c, scores[c]));
      InsertKeeps(before, ranked, (c, scores[c]));
      rest := rest - {c};
    }
  }

  lemma InsertKeeps(q: seq<(nat, real)>, r: seq<(nat, real)>, e: (nat, real))
    requires exists k :: 0 <= k <= |q| && r == q[..k] + [e] + q[k..]
    requires forall i, j :: 0 <= i < j < |q| ==> q[i].0 != q[j].0
    requires forall i :: 0 <= i < |q| ==> q[i].0 != e.0
    ensures forall i, j :: 0 <= i < j < |r| ==> r[i].0 != r[j].0
    ensures forall x :: x in r <==> x in q || x == e
  {
    var k :| 0 <= k <= |q| && r == q[..k] + [e] + q[k..];
    assert forall i :: 0 <= i < |r| ==> r[i] == if i < k then q[i] else if i == k then e else q[i - 1];
    forall x | x in q
      ensures x in r
    {
      var i :| 0 <= i < |q| && q[i] == x;
      assert r[if i < k then i else i + 1] == x;
    }
    assert r[k] == e;
  }

  /** `query`: scores the postings of each query term and sorts. */
  method Query(u: CharTable, ln: real -> real, x: BM25Index, query: string, ghost texts: seq<string>)
    returns (ranked: seq<(nat, real)>)
    requires IsBuild(u, x, texts, x.k1, x.b) && SaneParameters(x.k1, x.b)
    ensures Measured(CountsOf(u, texts), LengthsOf(texts))
    ensures IsRanking(ln, CountsOf(u, texts), LengthsOf(texts), x.k1, x.b, Tokens(u, query), ranked)
  {
    TextsMeasured(u, texts);
    var terms := Tokenize(u, query);
    var scores := Accumulate(ln, x, terms, CountsOf(u, texts), LengthsOf(texts));
    ranked := Ranked(scores);
    RankedIsRanking(ln, CountsOf(u, texts), LengthsOf(texts), x.k1, x.b, terms, scores, ranked);
  }

  lemma TextsMeasured(u: CharTable, texts: seq<string>)
    ensures Measured(CountsOf(u, texts), LengthsOf(texts))
  {
    forall c | 0 <= c < |texts| && CountsOf(u, texts)[c] != map[]
      ensures LengthsOf(texts)[c] > 0
    {
      EmptyText(u, texts[c]);
      ByteLengthPositive(texts[c]);
    }
    forall c, t | 0 <= c < |texts| && t in CountsOf(u, texts)[c]
      ensures CountsOf(u, texts)[c][t] > 0
    {
      CountsAreOccurrences(Tokens(u, texts[c]));
    }
  }

  lemma RankedIsRanking(ln: real -> real, tokenized: seq<Counts>, lengths: seq<nat>, k1: real, b: real,
                        terms: seq<string>, scores: map<nat, real>, ranked: seq<(nat, real)>)
    requires Measured(tokenized, lengths) && SaneParameters(k1, b)
    requires Scored(ln, tokenized, lengths, k1, b, terms, scores)
    requires Descending(ranked) && forall i, j :: 0 <= i < j < |ranked| ==> ranked[i].0 != ranked[j].0
    requires forall e :: e in ranked <==> e.0 in scores && scores[e.0] == e.1
    ensures IsRanking(ln, tokenized, lengths, k1, b, terms, ranked)
  {
    forall i | 0 <= i < |ranked|
      ensures ranked[i].0 in scores && ranked[i].1 == ScoreOr0(scores, ranked[i].0)
      ensures Matches(tokenized, terms, ranked[i].0)
    {
      assert ranked[i] in ranked;
    }
    forall c: nat | Matches(tokenized, terms, c)
      ensures exists i :: 0 <= i < |ranked| && ranked[i].0 == c
    {
      assert (c, scores[c]) in ranked;
    }
  }

  // ---- positivity ----

  ghost predicate PositiveAboveOne(ln: real -> real) {
    forall x :: x > 1.0 ==> ln(x) > 0.0
  }

  lemma TermScorePositive(ln: real -> real, n: nat, df: nat, tf: nat, k1: real, b: real, len: nat, avgLen: real)
    requires PositiveAboveOne(ln) && df <= n && tf > 0 && SaneParameters(k1, b) && avgLen > 0.0
    ensures TermScore(ln, n, df, tf, k1, b, len, avgLen) > 0.0
  {
    NormNonNegative(k1, b, len, avgLen);
    var norm := Norm(k1, b, len, avgLen);
    var ratio := (n as real - df as real + 0.5) / (df as real + 0.5);
    assert ratio > 0.0;
    assert Idf(ln, n, df) > 0.0;
    PositiveFactors(tf as real, k1 + 1.0);
    PositiveQuotient(tf as real * (k1 + 1.0), tf as real + norm);
    PositiveFactors(Idf(ln, n, df), TfNorm(tf, k1, norm));
  }

  lemma PositiveFactors(a: real, b: real)
    requires a > 0.0 && b > 0.0
    ensures a * b > 0.0
  {
  }

  lemma PositiveQuotient(a: real, b: real)
    requires a > 0.0 && b > 0.0
    ensures a / b > 0.0
  {
  }

  /** Every chunk that matches has a positive score: the document frequency never exceeds the number
      of chunks, so every term's weight is positive. */
  lemma {:induction false} ScanPositive(ln: real -> real, tokenized: seq<Counts>, lengths: seq<nat>, k1: real, b: real,
                                        terms: seq<string>, c: nat)
    requires Measured(tokenized, lengths) && SaneParameters(k1, b) && PositiveAboveOne(ln) && c < |tokenized|
    ensures Matches(tokenized, terms, c) ==> ScanScore(ln, tokenized, lengths, k1, b, terms, c) > 0.0
    ensures !Matches(tokenized, terms, c) ==> ScanScore(ln, tokenized, lengths, k1, b, terms, c) == 0.0
  {
    if terms != [] {
      var init, t := terms[..|terms| - 1], terms[|terms| - 1];
      ScanPositive(ln, tokenized, lengths, k1, b, init, c);
      assert terms == init + [t];
      if t in tokenized[c] {
        PostingsAreFrequency(tokenized, t, |tokenized|);
        AveragePositive(lengths, c);
        TermScorePositive(ln, |tokenized|, DocumentFrequency(tokenized, t), tokenized[c][t], k1, b, lengths[c],
                          Average(lengths));
      }
    }
  }

  // ---- what the score computes ----

  lemma {:induction false} TotalAdds(a: seq<nat>, b: seq<nat>)
    ensures Total(a + b) == Total(a) + Total(b)
    ensures |b| == 1 ==> Total(b) == b[0]
    decreases |b|
  {
    if b == [] {
      assert a + b == a;
    } else {
      var n := |b| - 1;
      assert (a + b)[..|a + b| - 1] == a + b[..n];
      TotalAdds(a, b[..n]);
    }
  }

  lemma QuotientIs(x: real, q: real, c: real)
    requires q > 0.0 && x * q == c
    ensures c / q == x
  {
  }

  /** The weight of a term that `df` of `n` chunks have. */
  lemma IdfFormula(ln: real -> real, n: nat, df: nat)
    ensures Idf(ln, n, df) == ln((n as real + 1.0) / (df as real + 0.5))
  {
    var a, q := n as real - df as real + 0.5, df as real + 0.5;
    assert (1.0 + a / q) * q == q + a;
    QuotientIs(1.0 + a / q, q, n as real + 1.0);
  }

  /** A length in units of the average is its share of the total, times the number of chunks. */
  lemma LengthShare(len: real, total: real, n: real)
    requires total > 0.0 && n > 0.0
    ensures total / n > 0.0 && len / (total / n) == len * n / total
  {
    var x, avg := len * n / total, total / n;
    assert avg * n == total && x * total == len * n;
    assert (x * avg - len) * n == x * (avg * n) - len * n;
    SignOfProduct(x * avg - len, n);
    SignOfProduct(avg, n);
    QuotientIs(x, avg, len);
  }

  /** The part of a term in a chunk's score, from the corpus alone: `df` of its `n` chunks have the term,
      this one `tf` times, and it has `len` of all `total` bytes. */
  ghost function Formula(ln: real -> real, n: nat, df: nat, tf: nat, k1: real, b: real, len: nat, total: nat): real
    requires total > 0 && tf > 0 && k1 >= 0.0 && 0.0 <= b <= 1.0
  {
    var share := len as real * n as real / total as real;
    WeightNonNegative(k1, b, share);
    ln((n as real + 1.0) / (df as real + 0.5)) * ((tf as real * (k1 + 1.0)) / (tf as real + k1 * (1.0 - b + b * share)))
  }

  lemma WeightNonNegative(k1: real, b: real, share: real)
    requires k1 >= 0.0 && 0.0 <= b <= 1.0 && share >= 0.0
    ensures k1 * (1.0 - b + b * share) >= 0.0
  {
    assert b * share >= 0.0;
    assert k1 * (1.0 - b + b * share) >= 0.0;
  }

  lemma PartFormula(ln: real -> real, tokenized: seq<Counts>, lengths: seq<nat>, k1: real, b: real, t: string, c: nat)
    requires Measured(tokenized, lengths) && SaneParameters(k1, b) && c < |tokenized| && t in tokenized[c]
    ensures Total(lengths) > 0
    ensures var df := |set i | 0 <= i < |tokenized| && t in tokenized[i]|;
            && df <= |tokenized|
            && TermPart(ln, tokenized, lengths, k1, b, t, c) ==
               Formula(ln, |tokenized|, df, tokenized[c][t], k1, b, lengths[c], Total(lengths))
  {
    TotalAtLeast(lengths, c);
    AveragePositive(lengths, c);
    FrequencyIsCount(tokenized, t);
    ScoreFormula(ln, |tokenized|, DocumentFrequency(tokenized, t), tokenized[c][t], k1, b, lengths[c], Total(lengths));
  }

  lemma ScoreFormula(ln: real -> real, n: nat, df: nat, tf: nat, k1: real, b: real, len: nat, total: nat)
    requires total > 0 && n > 0 && tf > 0 && k1 >= 0.0 && 0.0 <= b <= 1.0
    ensures var avgLen := total as real / n as real;
            avgLen > 0.0 && TermScore(ln, n, df, tf, k1, b, len, avgLen) == Formula(ln, n, df, tf, k1, b, len, total)
  {
    LengthShare(len as real, total as real, n as real);
    IdfFormula(ln, n, df);
    var avgLen, share := total as real / n as real, len as real * n as real / total as real;
    NormOf(k1, b, len, avgLen, share);
    ScoreWith(ln, n, df, tf, k1, b, len, avgLen, Norm(k1, b, len, avgLen));
    FormulaWith(ln, n, df, tf, k1, b, len, total, Norm(k1, b, len, avgLen));
  }

  lemma ScoreWith(ln: real -> real, n: nat, df: nat, tf: nat, k1: real, b: real, len: nat, avgLen: real, w: real)
    requires tf > 0 && k1 >= 0.0 && 0.0 <= b <= 1.0 && avgLen > 0.0 && w == Norm(k1, b, len, avgLen)
    ensures w >= 0.0
    ensures TermScore(ln, n, df, tf, k1, b, len, avgLen) ==
            Idf(ln, n, df) * ((tf as real * (k1 + 1.0)) / (tf as real + w))
  {
    NormNonNegative(k1, b, len, avgLen);
  }

  lemma FormulaWith(ln: real -> real, n: nat, df: nat, tf: nat, k1: real, b: real, len: nat, total: nat, w: real)
    requires tf > 0 && k1 >= 0.0 && 0.0 <= b <= 1.0 && total > 0 && w >= 0.0
    requires w == k1 * (1.0 - b + b * (len as real * n as real / total as real))
    ensures Formula(ln, n, df, tf, k1, b, len, total) ==
            ln((n as real + 1.0) / (df as real + 0.5)) * ((tf as real * (k1 + 1.0)) / (tf as real + w))
  {
  }

  lemma NormOf(k1: real, b: real, len: nat, avgLen: real, share: real)
    requires avgLen > 0.0 && len as real / avgLen == share
    ensures Norm(k1, b, len, avgLen) == k1 * (1.0 - b + b * share)
  {
  }

  lemma FrequencyIsCount(tokenized: seq<Counts>, t: string)
    ensures DocumentFrequency(tokenized, t) == |set i | 0 <= i < |tokenized| && t in tokenized[i]| <= |tokenized|
  {
    PostingsAreFrequency(tokenized, t, |tokenized|);
    assert Having(tokenized, t, |tokenized|) == set i | 0 <= i < |tokenized| && t in tokenized[i];
  }

  /** The score for two lists of terms is the sum of the scores; for one term it is that term's part. */
  lemma {:induction false} ScanAdds(ln: real -> real, tokenized: seq<Counts>, lengths: seq<nat>, k1: real, b: real,
                                    p: seq<string>, q: seq<string>, c: nat)
    requires Measured(tokenized, lengths) && SaneParameters(k1, b) && c < |tokenized|
    ensures ScanScore(ln, tokenized, lengths, k1, b, p + q, c) ==
            ScanScore(ln, tokenized, lengths, k1, b, p, c) + ScanScore(ln, tokenized, lengths, k1, b, q, c)
    ensures |q| == 1 ==>
              ScanScore(ln, tokenized, lengths, k1, b, q, c) == TermPart(ln, tokenized, lengths, k1, b, q[0], c)
    decreases |q|
  {
    if q == [] {
      assert p + q == p;
    } else {
      var m := |q| - 1;
      assert (p + q)[..|p + q| - 1] == p + q[..m];
      ScanAdds(ln, tokenized, lengths, k1, b, p, q[..m], c);
    }
  }

  // ---- what raises a score ----

  ghost predicate Increasing(ln: real -> real) {
    forall x, y :: 0.0 < x < y ==> ln(x) < ln(y)
  }

  lemma FractionLess(a: real, p: real, c: real, q: real)
    requires p > 0.0 && q > 0.0 && a * q < c * p
    ensures a / p < c / q
  {
    var x, y := a / p, c / q;
    assert x * p == a && y * q == c;
    assert (y - x) * (p * q) == (y * q) * p - (x * p) * q;
    PositiveFactors(p, q);
    SignOfProduct(y - x, p * q);
  }

  lemma ProductLess(a: real, x: real, y: real)
    requires a > 0.0 && x < y
    ensures a * x < a * y && x * a < y * a
  {
    assert a * (y - x) > 0.0;
  }

  lemma IdfPositive(ln: real -> real, n: nat, df: nat)
    requires PositiveAboveOne(ln) && df <= n
    ensures Idf(ln, n, df) > 0.0
  {
    PositiveQuotient(n as real - df as real + 0.5, df as real + 0.5);
  }

  lemma TfNormPositive(tf: nat, k1: real, norm: real)
    requires tf > 0 && k1 >= 0.0 && norm >= 0.0
    ensures TfNorm(tf, k1, norm) > 0.0
  {
    PositiveFactors(tf as real, k1 + 1.0);
    PositiveQuotient(tf as real * (k1 + 1.0), tf as real + norm);
  }

  /** A rarer term counts more. */
  lemma RarerCountsMore(ln: real -> real, n: nat, df: nat, df': nat, tf: nat, k1: real, b: real, len: nat, avgLen: real)
    requires Increasing(ln) && df < df' <= n && tf > 0 && SaneParameters(k1, b) && avgLen > 0.0
    ensures TermScore(ln, n, df, tf, k1, b, len, avgLen) > TermScore(ln, n, df', tf, k1, b, len, avgLen)
  {
    NormNonNegative(k1, b, len, avgLen);
    TfNormPositive(tf, k1, Norm(k1, b, len, avgLen));
    IdfFormula(ln, n, df);
    IdfFormula(ln, n, df');
    var top := n as real + 1.0;
    PositiveQuotient(top, df' as real + 0.5);
    ProductLess(top, df as real + 0.5, df' as real + 0.5);
    FractionLess(top, df' as real + 0.5, top, df as real + 0.5);
    ProductLess(TfNorm(tf, k1, Norm(k1, b, len, avgLen)), Idf(ln, n, df'), Idf(ln, n, df));
  }

  lemma NormPositive(k1: real, b: real, len: nat, avgLen: real)
    requires k1 > 0.0 && 0.0 <= b <= 1.0 && avgLen > 0.0 && len > 0
    ensures Norm(k1, b, len, avgLen) > 0.0
  {
    var share := len as real / avgLen;
    PositiveQuotient(len as real, avgLen);
    if b > 0.0 {
      PositiveFactors(b, share);
    }
    PositiveFactors(k1, 1.0 - b + b * share);
  }

  /** A term that a chunk has more often counts more. */
  lemma OftenerCountsMore(ln: real -> real, n: nat, df: nat, tf: nat, tf': nat, k1: real, b: real,
                          len: nat, avgLen: real)
    requires PositiveAboveOne(ln) && df <= n && 0 < tf < tf' && k1 > 0.0 && 0.0 <= b <= 1.0 && avgLen > 0.0 && len > 0
    ensures TermScore(ln, n, df, tf, k1, b, len, avgLen) < TermScore(ln, n, df, tf', k1, b, len, avgLen)
  {
    NormPositive(k1, b, len, avgLen);
    var norm := Norm(k1, b, len, avgLen);
    TfNormOftener(tf, tf', k1, norm);
    IdfPositive(ln, n, df);
    ProductLess(Idf(ln, n, df), TfNorm(tf, k1, norm), TfNorm(tf', k1, norm));
  }

  lemma TfNormOftener(tf: nat, tf': nat, k1: real, norm: real)
    requires 0 < tf < tf' && k1 > 0.0 && norm > 0.0
    ensures TfNorm(tf, k1, norm) < TfNorm(tf', k1, norm)
  {
    TfNormGrows(tf as real, tf' as real, k1 + 1.0, norm);
  }

  lemma TfNormGrows(x: real, y: real, k: real, norm: real)
    requires 0.0 < x < y && k > 0.0 && norm > 0.0
    ensures (x * k) / (x + norm) < (y * k) / (y + norm)
  {
    ProductLess(k * norm, x, y);
    assert (x * k) * (y + norm) == x * k * y + x * (k * norm);
    assert (y * k) * (x + norm) == x * k * y + y * (k * norm);
    FractionLess(x * k, x + norm, y * k, y + norm);
  }

  /** In a longer chunk a term counts less. */
  lemma LongerCountsLess(ln: real -> real, n: nat, df: nat, tf: nat, k1: real, b: real,
                         len: nat, len': nat, avgLen: real)
    requires PositiveAboveOne(ln) && df <= n && tf > 0 && k1 > 0.0 && 0.0 < b <= 1.0 && avgLen > 0.0 && len < len'
    ensures TermScore(ln, n, df, tf, k1, b, len, avgLen) > TermScore(ln, n, df, tf, k1, b, len', avgLen)
  {
    NormNonNegative(k1, b, len, avgLen);
    NormGrows(k1, b, len, len', avgLen);
    var norm, norm' := Norm(k1, b, len, avgLen), Norm(k1, b, len', avgLen);
    var top := tf as real * (k1 + 1.0);
    PositiveFactors(tf as real, k1 + 1.0);
    ProductLess(top, tf as real + norm, tf as real + norm');
    FractionLess(top, tf as real + norm', top, tf as real + norm);
    IdfPositive(ln, n, df);
    ProductLess(Idf(ln, n, df), TfNorm(tf, k1, norm'), TfNorm(tf, k1, norm));
  }

  lemma NormGrows(k1: real, b: real, len: nat, len': nat, avgLen: real)
    requires k1 > 0.0 && b > 0.0 && avgLen > 0.0 && len < len'
    ensures Norm(k1, b, len, avgLen) < Norm(k1, b, len', avgLen)
  {
    FractionLess(len as real, avgLen, len' as real, avgLen) by {
      ProductLess(avgLen, len as real, len' as real);
    }
    ProductLess(b, len as real / avgLen, len' as real / avgLen);
    ProductLess(k1, 1.0 - b + b * (len as real / avgLen), 1.0 - b + b * (len' as real / avgLen));
  }
}
