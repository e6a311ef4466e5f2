/** The content-addressed incremental index: what it plans, what it re-tokenizes, and that it stays the
    index that a build from scratch would give. */
module Incremental {
  import opened Tokenizer
  import opened Bm25
  import opened Paths
  import opened Sorting
  import opened Sets
  import Splitter

  const CHUNK_CHARS: nat := 300

  // ---- chunks of a file ----

  function ChunkCountOf(content: string): nat {
    var n := (|content| + CHUNK_CHARS - 1) / CHUNK_CHARS;
    if n < 1 then 1 else n
  }

  /** Cuts a content into pieces of CHUNK_CHARS characters; an empty one gives one empty piece. */
  function Pieces(content: string): seq<string> {
    if |content| <= CHUNK_CHARS then [content] else [content[..CHUNK_CHARS]] + Pieces(content[CHUNK_CHARS..])
  }

  function Join(pieces: seq<string>): string {
    if pieces == [] then "" else pieces[0] + Join(pieces[1..])
  }

  /** The plan's count is the number of pieces; put together they are the content; each has 300 characters
      except the last, which has no more, and none only if the content is empty. */
  lemma {:induction false} PiecesOfContent(content: string)
    ensures |Pieces(content)| == ChunkCountOf(content)
    ensures Join(Pieces(content)) == content
    ensures Pieces(content) != []
    ensures forall i :: 0 <= i < |Pieces(content)| - 1 ==> |Pieces(content)[i]| == 300
    ensures var last := Pieces(content)[|Pieces(content)| - 1]; |last| <= 300 && (last == "" ==> content == "")
    decreases |content|
  {
    if |content| > CHUNK_CHARS {
      var rest := content[CHUNK_CHARS..];
      PiecesOfContent(rest);
      CountStep(|content|);
      assert ([content[..CHUNK_CHARS]] + Pieces(rest))[1..] == Pieces(rest);
      assert content == content[..CHUNK_CHARS] + rest;
    } else {
      assert Join([content]) == content + Join([]);
    }
  }

  lemma CountStep(n: nat)
    requires n > CHUNK_CHARS
    ensures (n + CHUNK_CHARS - 1) / CHUNK_CHARS == (n - CHUNK_CHARS + CHUNK_CHARS - 1) / CHUNK_CHARS + 1
    ensures (n - CHUNK_CHARS + CHUNK_CHARS - 1) / CHUNK_CHARS >= 1
  {
  }

  // ---- summing over files ----

  type Files = map<string, string>

  /** The counts of these paths, added up. */
  ghost function Sum(paths: set<string>, counts: map<string, nat>): nat
    requires paths <= counts.Keys
  {
    if paths == {} then 0
    else
      var p :| p in paths;
      counts[p] + Sum(paths - {p}, counts)
  }

  lemma {:induction false} SumAdd(paths: set<string>, counts: map<string, nat>, p: string)
    requires paths <= counts.Keys && p in paths
    ensures Sum(paths, counts) == counts[p] + Sum(paths - {p}, counts)
    decreases |paths|
  {
    var q :| q in paths && Sum(paths, counts) == counts[q] + Sum(paths - {q}, counts);
    if q != p {
      SumAdd(paths - {q}, counts, p);
      SumAdd(paths - {p}, counts, q);
      assert paths - {q} - {p} == paths - {p} - {q};
    }
  }

  /** Two disjoint sets of paths, each with its own counts, add up to the sum of both together. */
  lemma {:induction false} SumUnion(a: set<string>, b: set<string>, ca: map<string, nat>, cb: map<string, nat>,
                                    c: map<string, nat>)
    requires a <= ca.Keys && b <= cb.Keys && a !! b && a + b <= c.Keys
    requires (forall p :: p in a ==> c[p] == ca[p]) && forall p :: p in b ==> c[p] == cb[p]
    ensures Sum(a, ca) + Sum(b, cb) == Sum(a + b, c)
    decreases |a| + |b|
  {
    if p :| p in a {
      SumAdd(a, ca, p);
      SumAdd(a + b, c, p);
      assert a + b - {p} == (a - {p}) + b;
      SumUnion(a - {p}, b, ca, cb, c);
    } else if p :| p in b {
      SumAdd(b, cb, p);
      SumAdd(a + b, c, p);
      assert a + b - {p} == a + (b - {p});
      SumUnion(a, b - {p}, ca, cb, c);
    }
  }

  ghost function ChunkCounts(files: Files): (r: map<string, nat>)
    ensures r.Keys == files.Keys
  {
    map p | p in files :: ChunkCountOf(files[p])
  }

  /** The chunks of the files with these paths. */
  ghost function ChunkSum(paths: set<string>, files: Files): nat
    requires paths <= files.Keys
  {
    Sum(paths, ChunkCounts(files))
  }

  // ---- the tracker ----

  datatype FileFingerprint = FileFingerprint(hash: nat, chunkCount: nat)

  datatype IncrementalPlan = IncrementalPlan(added: seq<string>, modified: seq<string>, removed: seq<string>,
                                             same: seq<string>, totalChunks: nat, chunksToReindex: nat,
                                             chunksReused: nat) {
    predicate IsNoop() {
      added == [] && modified == [] && removed == []
    }
  }

  ghost function EntryCounts(entries: map<string, FileFingerprint>): (r: map<string, nat>)
    ensures r.Keys == entries.Keys
  {
    map p | p in entries :: entries[p].chunkCount
  }

  ghost function Added(entries: map<string, FileFingerprint>, files: Files): set<string> {
    files.Keys - entries.Keys
  }

  ghost function Modified(hash: string -> nat, entries: map<string, FileFingerprint>, files: Files): set<string> {
    set p | p in files && p in entries && entries[p].hash != hash(files[p])
  }

  ghost function Unchanged(hash: string -> nat, entries: map<string, FileFingerprint>, files: Files): set<string> {
    set p | p in files && p in entries && entries[p].hash == hash(files[p])
  }

  ghost function Changed(hash: string -> nat, entries: map<string, FileFingerprint>, files: Files): set<string> {
    Added(entries, files) + Modified(hash, entries, files)
  }

  /** What the plan says about the files, against what was committed last. */
  ghost predicate IsPlan(hash: string -> nat, entries: map<string, FileFingerprint>, files: Files,
                         plan: IncrementalPlan) {
    && IsSortedListOf(plan.added, Added(entries, files))
    && IsSortedListOf(plan.modified, Modified(hash, entries, files))
    && IsSortedListOf(plan.same, Unchanged(hash, entries, files))
    && IsSortedListOf(plan.removed, entries.Keys - files.Keys)
    && plan.chunksToReindex == ChunkSum(Changed(hash, entries, files), files)
    && plan.chunksReused == Sum(Unchanged(hash, entries, files), EntryCounts(entries))
    && plan.totalChunks == plan.chunksToReindex + plan.chunksReused
  }

  /** The plan so far, with the files of `rest` still to be compared. */
  ghost predicate Planned(hash: string -> nat, entries: map<string, FileFingerprint>, files: Files, rest: set<string>,
                          added: set<string>, modified: set<string>, same: set<string>, total: nat, toReindex: nat)
  {
    && rest <= files.Keys
    && added == Added(entries, files) - rest
    && modified == Modified(hash, entries, files) - rest
    && same == Unchanged(hash, entries, files) - rest
    && toReindex == ChunkSum(added + modified, files)
    && total == toReindex + Sum(same, EntryCounts(entries))
  }

  lemma PlanStep(hash: string -> nat, entries: map<string, FileFingerprint>, files: Files, rest: set<string>,
                 added: set<string>, modified: set<string>, same: set<string>, total: nat, toReindex: nat, path: string)
    requires Planned(hash, entries, files, rest, added, modified, same, total, toReindex) && path in rest
    ensures var n, left := ChunkCountOf(files[path]), rest - {path};
            if path !in entries then
              Planned(hash, entries, files, left, added + {path}, modified, same, total + n, toReindex + n)
            else if entries[path].hash != hash(files[path]) then
              Planned(hash, entries, files, left, added, modified + {path}, same, total + n, toReindex + n)
            else
              Planned(hash, entries, files, left, added, modified, same + {path},
                      total + entries[path].chunkCount, toReindex)
  {
    if path in Changed(hash, entries, files) {
      SumAdd(added + modified + {path}, ChunkCounts(files), path);
      assert added + modified + {path} - {path} == added + modified;
      assert added + {path} + modified == added + modified + {path} == added + (modified + {path});
    } else {
      SumAdd(same + {path}, EntryCounts(entries), path);
      assert same + {path} - {path} == same;
    }
  }

  class FileTracker {
    var entries: map<string, FileFingerprint>
    const hash: string -> nat

    constructor (hash: string -> nat)
      ensures entries == map[] && this.hash == hash
    {
      entries := map[];
      this.hash := hash;
    }

    /** Compares with the new state and plans; every file is hashed once. */
    method Plan(files: Files) returns (plan: IncrementalPlan)
      ensures IsPlan(hash, entries, files, plan)
    {
      var added: set<string>, modified: set<string>, same: set<string> := {}, {}, {};
      var total: nat, toReindex: nat := 0, 0;
      var rest := files.Keys;
      while rest != {}
        invariant Planned(hash, entries, files, rest, added, modified, same, total, toReindex)
      {
        var path :| path in rest;
        PlanStep(hash, entries, files, rest, added, modified, same, total, toReindex, path);
        rest := rest - {path};
        var h, chunkCount := hash(files[path]), ChunkCountOf(files[path]);
        if path !in entries {
          added := added + {path};
          toReindex := toReindex + chunkCount;
          total := total + chunkCount;
        } else if entries[path].hash != h {
          modified := modified + {path};
          toReindex := toReindex + chunkCount;
          total := total + chunkCount;
        } else {
          same := same + {path};
          total := total + entries[path].chunkCount;
        }
      }
      assert added + modified == Changed(hash, entries, files);
      assert same == Unchanged(hash, entries, files);
      LessIsOrder();
      var a := SortedList(Less, added);
      var m := SortedList(Less, modified);
      var u := SortedList(Less, same);
      var r := SortedList(Less, entries.Keys - files.Keys);
      plan := IncrementalPlan(a, m, r, u, total, toReindex, total - toReindex);
    }

    method Commit(files: Files)
      modifies this
      ensures entries.Keys == files.Keys
      ensures forall p :: p in files ==> entries[p] == FileFingerprint(hash(files[p]), ChunkCountOf(files[p]))
    {
      entries := map p | p in files :: FileFingerprint(hash(files[p]), ChunkCountOf(files[p]));
    }
  }

  /** The tracker holds the hashes of these contents. */
  ghost predicate Tracks(hash: string -> nat, entries: map<string, FileFingerprint>, seen: Files) {
    entries.Keys == seen.Keys && forall p :: p in seen ==> entries[p].hash == hash(seen[p])
  }

  /** The chunk counts that the tracker holds are those of these contents. */
  ghost predicate Counted(entries: map<string, FileFingerprint>, seen: Files) {
    entries.Keys == seen.Keys && forall p :: p in seen ==> entries[p].chunkCount == ChunkCountOf(seen[p])
  }

  // ---- the cache ----

  type TokenizedChunk = (Counts, nat)

  /** The token counts and byte lengths of a file's pieces. */
  ghost function FileChunks(u: CharTable, content: string): (r: seq<TokenizedChunk>)
    ensures |r| == |Pieces(content)|
  {
    var p := Pieces(content);
    seq(|p|, i requires 0 <= i < |p| => (CountTokens(Tokens(u, p[i])), ByteLength(p[i])))
  }

  method TokenizeFile(u: CharTable, content: string) returns (r: seq<TokenizedChunk>)
    ensures r == FileChunks(u, content)
  {
    var p := Pieces(content);
    r := [];
    for i := 0 to |p|
      invariant |r| == i && forall j :: 0 <= j < i ==> r[j] == FileChunks(u, content)[j]
    {
      var tokens := Tokenize(u, p[i]);
      r := r + [(CountTokens(tokens), ByteLength(p[i]))];
    }
  }

  /** The pieces of all files, in the order of `paths`. */
  ghost function AllPieces(paths: seq<string>, files: Files): seq<string>
    requires forall p :: p in paths ==> p in files
  {
    if paths == [] then [] else AllPieces(paths[..|paths| - 1], files) + Pieces(files[paths[|paths| - 1]])
  }

  /** The pieces of several files follow one another as their paths do. */
  lemma {:induction false} PiecesInOrder(p: seq<string>, q: seq<string>, files: Files)
    requires forall x :: x in p || x in q ==> x in files
    ensures AllPieces(p + q, files) == AllPieces(p, files) + AllPieces(q, files)
    decreases |q|
  {
    if q == [] {
      assert p + q == p;
      assert AllPieces(p, files) + [] == AllPieces(p, files);
    } else {
      var init, last := q[..|q| - 1], q[|q| - 1];
      assert q == init + [last];
      PiecesInOrder(p, init, files);
      PiecesLonger(p, init, last, files);
    }
  }

  lemma {:induction false} PiecesLonger(p: seq<string>, q: seq<string>, path: string, files: Files)
    requires path in files && forall x :: x in p || x in q ==> x in files
    requires AllPieces(p + q, files) == AllPieces(p, files) + AllPieces(q, files)
    ensures AllPieces(p + (q + [path]), files) == AllPieces(p, files) + AllPieces(q + [path], files)
  {
    assert p + (q + [path]) == (p + q) + [path];
    PiecesNext(p + q, path, files);
    PiecesNext(q, path, files);
    Assoc(AllPieces(p, files), AllPieces(q, files), Pieces(files[path]));
  }

  /** A further file's pieces follow those of the files before it. */
  lemma {:induction false} PiecesNext(paths: seq<string>, path: string, files: Files)
    requires path in files && forall x :: x in paths ==> x in files
    ensures AllPieces(paths + [path], files) == AllPieces(paths, files) + Pieces(files[path])
  {
    assert (paths + [path])[..|paths|] == paths;
  }

  /** `x` is the index built from scratch over the pieces of all files in path order. */
  ghost predicate IsFresh(u: CharTable, x: BM25Index, files: Files) {
    forall paths :: IsSortedListOf(paths, files.Keys) ==> IsBuild(u, x, AllPieces(paths, files), x.k1, x.b)
  }

  /** The cache holds the chunks of these contents. */
  ghost predicate Caches(u: CharTable, cache: map<string, seq<TokenizedChunk>>, files: Files) {
    cache.Keys == files.Keys && forall p :: p in files ==> cache[p] == FileChunks(u, files[p])
  }

  /** Collects the cached chunks in path order; `missing` counts the paths that are not cached. */
  method Gather(u: CharTable, paths: seq<string>, cache: map<string, seq<TokenizedChunk>>, ghost files: Files)
    returns (tokenized: seq<Counts>, lengths: seq<nat>, missing: int)
    requires Caches(u, cache, files) && forall p :: p in paths ==> p in files
    ensures missing == 0
    ensures tokenized == CountsOf(u, AllPieces(paths, files)) && lengths == LengthsOf(AllPieces(paths, files))
  {
    tokenized, lengths, missing := [], [], 0;
    for i := 0 to |paths|
      invariant missing == 0
      invariant tokenized == CountsOf(u, AllPieces(paths[..i], files))
      invariant lengths == LengthsOf(AllPieces(paths[..i], files))
    {
      assert paths[..i + 1][..i] == paths[..i];
      if paths[i] in cache {
        var parts := cache[paths[i]];
        var counts, lens := Unzip(parts);
        GatherStep(u, AllPieces(paths[..i], files), files[paths[i]]);
        tokenized, lengths := tokenized + counts, lengths + lens;
      } else {
        missing := missing + 1;
      }
    }
    assert paths[..|paths|] == paths;
  }

  method Unzip(parts: seq<TokenizedChunk>) returns (counts: seq<Counts>, lens: seq<nat>)
    ensures counts == Firsts(parts) && lens == Seconds(parts)
  {
    counts, lens := [], [];
    for i := 0 to |parts|
      invariant |counts| == |lens| == i
      invariant forall j :: 0 <= j < i ==> counts[j] == parts[j].0 && lens[j] == parts[j].1
    {
      counts, lens := counts + [parts[i].0], lens + [parts[i].1];
    }
  }

  ghost function Firsts(parts: seq<TokenizedChunk>): seq<Counts> {
    seq(|parts|, i requires 0 <= i < |parts| => parts[i].0)
  }

  ghost function Seconds(parts: seq<TokenizedChunk>): seq<nat> {
    seq(|parts|, i requires 0 <= i < |parts| => parts[i].1)
  }

  lemma GatherStep(u: CharTable, before: seq<string>, content: string)
    ensures CountsOf(u, before + Pieces(content)) == CountsOf(u, before) + Firsts(FileChunks(u, content))
    ensures LengthsOf(before + Pieces(content)) == LengthsOf(before) + Seconds(FileChunks(u, content))
  {
  }

  /** An index made of the cached chunks in path order is the index built from scratch. */
  lemma GatheredIsFresh(u: CharTable, x: BM25Index, paths: seq<string>, files: Files)
    requires IsSortedListOf(paths, files.Keys) && IsBuild(u, x, AllPieces(paths, files), x.k1, x.b)
    ensures IsFresh(u, x, files)
  {
    forall q | IsSortedListOf(q, files.Keys)
      ensures IsBuild(u, x, AllPieces(q, files), x.k1, x.b)
    {
      LessIsOrder();
      SortedUnique(Less, q, paths, files.Keys);
    }
  }

  /** The index of the cached chunks; no path is missing from the cache. */
  method BuildFromCache(u: CharTable, paths: seq<string>, cache: map<string, seq<TokenizedChunk>>, ghost files: Files,
                        k1: real, b: real)
    returns (x: BM25Index)
    requires Caches(u, cache, files) && IsSortedListOf(paths, files.Keys)
    ensures IsFresh(u, x, files) && x.k1 == k1 && x.b == b
  {
    var tokenized, lengths, missing := Gather(u, paths, cache, files);
    assert missing == 0;
    x := FromTokenCounts(tokenized, lengths, k1, b);
    GatheredIsFresh(u, x, paths, files);
  }

  // ---- collisions ----

  /** The contents that the index stands for after a re-index: a file whose hash has not changed keeps
      the content that was tokenized before. */
  ghost function Carried(hash: string -> nat, seen: Files, files: Files): Files {
    map p | p in files :: if p in seen && hash(files[p]) == hash(seen[p]) then seen[p] else files[p]
  }

  /** No file has changed without changing its hash. */
  ghost predicate NoCollision(hash: string -> nat, seen: Files, files: Files) {
    forall p :: p in files && p in seen && hash(files[p]) == hash(seen[p]) ==> files[p] == seen[p]
  }

  /** What was carried over is the current files if and only if no file changed without changing its hash. */
  lemma CarriedExactly(hash: string -> nat, seen: Files, files: Files)
    ensures Carried(hash, seen, files) == files <==> NoCollision(hash, seen, files)
  {
    var c := Carried(hash, seen, files);
    assert c.Keys == files.Keys;
    if c == files {
      forall p | p in files && p in seen && hash(files[p]) == hash(seen[p])
        ensures files[p] == seen[p]
      {
        assert c[p] == seen[p];
      }
    }
  }

  /** In path order, the two contents have the same chunks, as far as token counts and byte lengths go. */
  ghost predicate SameChunks(u: CharTable, a: Files, b: Files)
    requires a.Keys == b.Keys
  {
    forall paths :: IsSortedListOf(paths, a.Keys) ==>
      && CountsOf(u, AllPieces(paths, a)) == CountsOf(u, AllPieces(paths, b))
      && LengthsOf(AllPieces(paths, a)) == LengthsOf(AllPieces(paths, b))
  }

  /** An index that is right for some contents is right for others on the same paths if and only if
      these have the same chunks. */
  lemma FreshExactly(u: CharTable, x: BM25Index, a: Files, b: Files)
    requires a.Keys == b.Keys && IsFresh(u, x, a)
    ensures IsFresh(u, x, b) <==> SameChunks(u, a, b)
  {
    if IsFresh(u, x, b) {
      forall paths | IsSortedListOf(paths, a.Keys)
        ensures CountsOf(u, AllPieces(paths, a)) == CountsOf(u, AllPieces(paths, b))
        ensures LengthsOf(AllPieces(paths, a)) == LengthsOf(AllPieces(paths, b))
      {
        var p, q := AllPieces(paths, a), AllPieces(paths, b);
        IndexDetermines(x, CountsOf(u, p), LengthsOf(p), CountsOf(u, q), LengthsOf(q), x.k1, x.b);
      }
    }
  }

  /** One file has changed without changing its hash: the index is still right if and only if the old
      and the new content have the same chunks. */
  lemma CollisionExactly(u: CharTable, hash: string -> nat, x: BM25Index, p: string, a: string, b: string)
    requires hash(a) == hash(b) && IsFresh(u, x, Carried(hash, map[p := a], map[p := b]))
    ensures IsFresh(u, x, map[p := b]) <==> FileChunks(u, a) == FileChunks(u, b)
  {
    var before, after := map[p := a], map[p := b];
    assert Carried(hash, before, after) == before;
    FreshExactly(u, x, before, after);
    OnePath(p);
    forall paths | IsSortedListOf(paths, {p})
      ensures AllPieces(paths, before) == Pieces(a) && AllPieces(paths, after) == Pieces(b)
    {
      LessIsOrder();
      SortedUnique(Less, paths, [p], {p});
      OneFile(p, a);
      OneFile(p, b);
    }
    ChunksOfPieces(u, a, b);
  }

  lemma OnePath(p: string)
    ensures IsSortedListOf([p], {p})
  {
  }

  lemma OneFile(p: string, content: string)
    ensures AllPieces([p], map[p := content]) == Pieces(content)
  {
    assert [p][..0] == [];
    assert AllPieces([], map[p := content]) == [];
  }

  lemma ChunksOfPieces(u: CharTable, a: string, b: string)
    ensures FileChunks(u, a) == FileChunks(u, b) <==>
              CountsOf(u, Pieces(a)) == CountsOf(u, Pieces(b)) && LengthsOf(Pieces(a)) == LengthsOf(Pieces(b))
  {
    ChunksByPart(u, a);
    ChunksByPart(u, b);
    if CountsOf(u, Pieces(a)) == CountsOf(u, Pieces(b)) && LengthsOf(Pieces(a)) == LengthsOf(Pieces(b)) {
      assert |Pieces(a)| == |Pieces(b)|;
      assert FileChunks(u, a) == FileChunks(u, b);
    }
  }

  lemma ChunksByPart(u: CharTable, content: string)
    ensures Firsts(FileChunks(u, content)) == CountsOf(u, Pieces(content))
    ensures Seconds(FileChunks(u, content)) == LengthsOf(Pieces(content))
    ensures forall i :: 0 <= i < |FileChunks(u, content)| ==>
              FileChunks(u, content)[i] == (CountsOf(u, Pieces(content))[i], LengthsOf(Pieces(content))[i])
  {
  }

  lemma OneLetter(u: CharTable, c: char)
    requires u.alphanumeric(c) && !IsCjk(c) && u.lower(c) == [c]
    ensures [c] in FileChunks(u, [c])[0].0 && forall t :: t in FileChunks(u, [c])[0].0 ==> t == [c]
  {
    assert "" + [c] == [c];
    assert Scan(u, [c], 1) == ([], [c]) by {
      assert Scan(u, [c], 0) == ([], "");
    }
    assert Tokens(u, [c]) == [[c]];
    CountsAreOccurrences([[c]]);
  }

  /** A file changed from "a" to "b" under a hash that does not tell them apart: the index is wrong. */
  lemma CollisionBreaksIndex(u: CharTable, hash: string -> nat, x: BM25Index)
    requires u.alphanumeric('a') && u.alphanumeric('b') && u.lower('a') == "a" && u.lower('b') == "b"
    requires hash("a") == hash("b") && IsFresh(u, x, Carried(hash, map["f" := "a"], map["f" := "b"]))
    ensures !IsFresh(u, x, map["f" := "b"])
  {
    OneLetter(u, 'a');
    OneLetter(u, 'b');
    CollisionExactly(u, hash, x, "f", "a", "b");
  }

  lemma NoToken(u: CharTable, c: char)
    requires !u.alphanumeric(c) && !IsCjk(c)
    ensures CountTokens(Tokens(u, [c])) == map[]
  {
    assert Scan(u, [c], 1) == ([], "") by {
      assert Scan(u, [c], 0) == ([], "");
    }
  }

  /** A file changed from "." to "," in the same way: the index is right all the same. */
  lemma CollisionWithoutHarm(u: CharTable, hash: string -> nat, x: BM25Index)
    requires !u.alphanumeric('.') && !u.alphanumeric(',')
    requires hash(".") == hash(",") && IsFresh(u, x, Carried(hash, map["f" := "."], map["f" := ","]))
    ensures IsFresh(u, x, map["f" := ","])
  {
    NoToken(u, '.');
    NoToken(u, ',');
    assert FileChunks(u, ".") == FileChunks(u, ",") by {
      assert Splitter.Offset(".", 1) == Splitter.Offset(",", 1) == 1;
    }
    CollisionExactly(u, hash, x, "f", ".", ",");
  }

  /** What the index stands for after a run of re-index calls. */
  ghost function SeenAfter(hash: string -> nat, runs: seq<Files>): Files {
    if runs == [] then map[] else Carried(hash, SeenAfter(hash, runs[..|runs| - 1]), runs[|runs| - 1])
  }

  /** The plan's total is the number of chunks that the index will hold, provided the tracker counted
      the contents that the index stands for. */
  lemma PlanTotals(hash: string -> nat, entries: map<string, FileFingerprint>, seen: Files, files: Files,
                   plan: IncrementalPlan)
    requires Tracks(hash, entries, seen) && IsPlan(hash, entries, files, plan)
    ensures var after := Carried(hash, seen, files);
            Counted(entries, seen) ==> plan.totalChunks == ChunkSum(after.Keys, after)
  {
    if Counted(entries, seen) {
      CountsAddUp(hash, entries, seen, files);
    }
  }

  /** The chunks of the changed files and those counted before for the others are all the chunks. */
  lemma CountsAddUp(hash: string -> nat, entries: map<string, FileFingerprint>, seen: Files, files: Files)
    requires Tracks(hash, entries, seen) && Counted(entries, seen)
    ensures var after := Carried(hash, seen, files);
            ChunkSum(Changed(hash, entries, files), files) + Sum(Unchanged(hash, entries, files), EntryCounts(entries))
              == ChunkSum(after.Keys, after)
  {
    var after := Carried(hash, seen, files);
    var changed, same := Changed(hash, entries, files), Unchanged(hash, entries, files);
    assert after.Keys == changed + same;
    SumUnion(changed, same, ChunkCounts(files), EntryCounts(entries), ChunkCounts(after));
  }

  /** The tracker after a commit. */
  lemma CommittedTracks(hash: string -> nat, entries: map<string, FileFingerprint>, seen: Files, files: Files)
    requires entries.Keys == files.Keys
    requires forall p :: p in files ==> entries[p] == FileFingerprint(hash(files[p]), ChunkCountOf(files[p]))
    ensures Tracks(hash, entries, Carried(hash, seen, files))
    ensures Counted(entries, files)
  {
  }

  /** If no call meets a collision with the call before it, the index stands for the last files. */
  lemma {:induction false} RunStaysCurrent(hash: string -> nat, runs: seq<Files>)
    requires forall i :: 0 < i < |runs| ==> NoCollision(hash, runs[i - 1], runs[i])
    ensures runs != [] ==> SeenAfter(hash, runs) == runs[|runs| - 1]
  {
    if runs != [] {
      var n := |runs| - 1;
      RunStaysCurrent(hash, runs[..n]);
      CarriedExactly(hash, SeenAfter(hash, runs[..n]), runs[n]);
      if n > 0 {
        assert NoCollision(hash, runs[n - 1], runs[n]);
        assert runs[..n][n - 1] == runs[n - 1];
      }
    }
  }

  // ---- parameters ----

  /** A floating-point argument, which may be a NaN or an infinity. */
  datatype Float = Finite(value: real) | NotFinite

  const EPSILON: real := 1.0 / 4503599627370496.0

  /** A finite positive `k1` is taken over; any other leaves the default. */
  function SaneK1(k1: Float, default: real): (r: real)
    ensures k1.Finite? && k1.value > 0.0 ==> r == k1.value
    ensures k1.NotFinite? || k1.value <= 0.0 ==> r == default
  {
    if k1.Finite? && k1.value > 0.0 then k1.value else default
  }

  /** A `b` from 0 to 1 is taken over; any other leaves the default. */
  function SaneB(b: Float, default: real): (r: real)
    ensures b.Finite? && 0.0 <= b.value <= 1.0 ==> r == b.value
    ensures b.NotFinite? || b.value < 0.0 || b.value > 1.0 ==> r == default
  {
    if b.Finite? && 0.0 <= b.value <= 1.0 then b.value else default
  }

  function Difference(x: real, y: real): real {
    if x < y then y - x else x - y
  }

  // ---- the index ----

  ghost function Before(q: seq<string>, i: nat): set<string>
    requires i <= |q|
  {
    set p | p in q[..i]
  }

  lemma BeforeGrows(q: seq<string>, i: nat)
    requires Ascending(Less, q) && i < |q|
    ensures Before(q, i + 1) == Before(q, i) + {q[i]} && q[i] !in Before(q, i)
  {
    assert q[..i + 1] == q[..i] + [q[i]];
    if q[i] in q[..i] {
      var j :| 0 <= j < i && q[..i][j] == q[i];
      LessTotal(q[j], q[i]);
    }
  }

  /** When nothing has been added, modified or removed, the index stands for what it stood for. */
  lemma NoopKeeps(hash: string -> nat, entries: map<string, FileFingerprint>, seen: Files, files: Files,
                  plan: IncrementalPlan)
    requires IsPlan(hash, entries, files, plan) && plan.IsNoop()
    requires Tracks(hash, entries, seen)
    ensures Carried(hash, seen, files) == seen && plan.chunksToReindex == 0
  {
    assert forall p :: p in Added(entries, files) ==> p in plan.added;
    assert forall p :: p in Modified(hash, entries, files) ==> p in plan.modified;
    assert forall p :: p in entries.Keys - files.Keys ==> p in plan.removed;
    assert Changed(hash, entries, files) == {};
  }

  /** The cache `before` with the files `done` tokenized anew. */
  ghost predicate Partly(u: CharTable, before: map<string, seq<TokenizedChunk>>,
                         cache: map<string, seq<TokenizedChunk>>,
                         files: Files, done: set<string>)
  {
    && done <= files.Keys
    && cache.Keys == before.Keys + done
    && forall p :: p in cache ==> cache[p] == if p in done then FileChunks(u, files[p]) else before[p]
  }

  lemma PartlyStep(u: CharTable, before: map<string, seq<TokenizedChunk>>, cache: map<string, seq<TokenizedChunk>>,
                   files: Files, done: set<string>, path: string)
    requires Partly(u, before, cache, files, done) && path in files
    ensures Partly(u, before, cache[path := FileChunks(u, files[path])], files, done + {path})
  {
  }

  /** Once all changed files are tokenized, the cache holds what the index will stand for. */
  lemma AllRetokenized(u: CharTable, hash: string -> nat, entries: map<string, FileFingerprint>, seen: Files,
                       before: map<string, seq<TokenizedChunk>>, cache: map<string, seq<TokenizedChunk>>, files: Files)
    requires Tracks(hash, entries, seen)
    requires before.Keys == seen.Keys * files.Keys && forall p :: p in before ==> before[p] == FileChunks(u, seen[p])
    requires Partly(u, before, cache, files, Changed(hash, entries, files))
    ensures Caches(u, cache, Carried(hash, seen, files))
  {
    assert cache.Keys == files.Keys;
  }

  /** Without the removed files, the cache holds the files that are known and still there. */
  lemma RemovedAreGone(u: CharTable, hash: string -> nat, entries: map<string, FileFingerprint>, seen: Files,
                       files: Files,
                       plan: IncrementalPlan, before: map<string, seq<TokenizedChunk>>,
                       cache: map<string, seq<TokenizedChunk>>)
    requires Tracks(hash, entries, seen) && IsPlan(hash, entries, files, plan) && Caches(u, before, seen)
    requires cache == before - (set p | p in plan.removed)
    ensures cache.Keys == seen.Keys * files.Keys && forall p :: p in cache ==> cache[p] == FileChunks(u, seen[p])
  {
    assert forall p :: p in seen.Keys - files.Keys <==> p in plan.removed;
  }

  /** The sorted, merged list of added and modified files is that of the changed ones. */
  lemma ListsChanged(hash: string -> nat, entries: map<string, FileFingerprint>, files: Files, plan: IncrementalPlan,
                     changed: seq<string>)
    requires IsPlan(hash, entries, files, plan)
    requires IsSortedListOf(changed, (set p | p in plan.added) + (set p | p in plan.modified))
    ensures Before(changed, |changed|) == Changed(hash, entries, files)
  {
    assert changed[..|changed|] == changed;
  }

  /** Tokenizes the listed files into the cache and counts their chunks. */
  method TokenizeFiles(u: CharTable, changed: seq<string>, files: Files, before: map<string, seq<TokenizedChunk>>)
    returns (cache: map<string, seq<TokenizedChunk>>, retokenized: nat)
    requires Ascending(Less, changed)
    requires forall i :: 0 <= i < |changed| ==> changed[i] in files
    ensures Partly(u, before, cache, files, Before(changed, |changed|))
    ensures retokenized == ChunkSum(Before(changed, |changed|), files)
  {
    cache, retokenized := before, 0;
    for i := 0 to |changed|
      invariant Partly(u, before, cache, files, Before(changed, i))
      invariant retokenized == ChunkSum(Before(changed, i), files)
    {
      var path := changed[i];
      BeforeGrows(changed, i);
      SumAdd(Before(changed, i) + {path}, ChunkCounts(files), path);
      assert Before(changed, i) + {path} - {path} == Before(changed, i);
      var chunks := TokenizeFile(u, files[path]);
      PartlyStep(u, before, cache, files, Before(changed, i), path);
      cache := cache[path := chunks];
      retokenized := retokenized + ChunkCountOf(files[path]);
    }
  }

  datatype ReindexReport = ReindexReport(plan: IncrementalPlan, indexedTerms: nat, chunkCount: nat,
                                         chunksRetokenized: nat)

  /** The tracker, the cache and the index are those of these contents. */
  ghost predicate Synced(u: CharTable, hash: string -> nat, entries: map<string, FileFingerprint>,
                         cache: map<string, seq<TokenizedChunk>>, index: BM25Index, seen: Files)
  {
    Tracks(hash, entries, seen) && Caches(u, cache, seen) && IsFresh(u, index, seen)
  }

  /** The parameters of the index are within EPSILON of these, and sane. */
  ghost predicate Close(index: BM25Index, k1: real, b: real) {
    && Difference(index.k1, k1) <= EPSILON && Difference(index.b, b) <= EPSILON
    && index.k1 > 0.0 && 0.0 <= index.b <= 1.0 && k1 > 0.0 && 0.0 <= b <= 1.0
  }

  class IncrementalIndex {
    const tracker: FileTracker
    const u: CharTable
    var index: BM25Index
    var cache: map<string, seq<TokenizedChunk>>
    var k1: real
    var b: real
    ghost var seen: Files

    /** The cache and the index are those of `seen`, whose hashes the tracker holds; the parameters of
        the index are within EPSILON of the configured ones, and sane. */
    ghost predicate Valid()
      reads this, tracker
    {
      && Synced(u, tracker.hash, tracker.entries, cache, index, seen)
      && Close(index, k1, b)
    }

    constructor (u: CharTable, hash: string -> nat)
      ensures Valid() && fresh(tracker) && seen == map[] && Counted(tracker.entries, seen)
      ensures tracker.hash == hash && this.u == u && k1 == 1.2 && b == 0.75
    {
      var t := new FileTracker(hash);
      var x := Build(u, [], 1.2, 0.75);
      this.u := u;
      tracker := t;
      index := x;
      cache := map[];
      k1, b := 1.2, 0.75;
      seen := map[];
      new;
      assert IsSortedListOf([], seen.Keys);
      assert AllPieces([], seen) == [];
      GatheredIsFresh(u, index, [], seen);
    }

    method Reindex(files: Files, k1Arg: Float, bArg: Float) returns (report: ReindexReport)
      requires Valid()
      modifies this, tracker
      ensures Valid()
      ensures seen == Carried(tracker.hash, old(seen), files)
      ensures NoCollision(tracker.hash, old(seen), files) ==> seen == files && IsFresh(u, index, files)
      ensures seen.Keys == files.Keys && (IsFresh(u, index, files) <==> SameChunks(u, seen, files))
      ensures IsPlan(tracker.hash, old(tracker.entries), files, report.plan)
      ensures report.chunksRetokenized == report.plan.chunksToReindex
      ensures report.indexedTerms == |index.index|
      ensures report.chunkCount == ChunkSum(seen.Keys, seen)
      ensures old(Counted(tracker.entries, seen)) ==> report.plan.totalChunks == report.chunkCount
      ensures old(Counted(tracker.entries, seen)) && NoCollision(tracker.hash, old(seen), files) ==>
                Counted(tracker.entries, seen)
      ensures Difference(index.k1, SaneK1(k1Arg, old(k1))) <= 2.0 * EPSILON
      ensures Difference(k1, SaneK1(k1Arg, old(k1))) <= EPSILON && Difference(b, SaneB(bArg, old(b))) <= EPSILON
      ensures Difference(index.b, SaneB(bArg, old(b))) <= 2.0 * EPSILON
    {
      var plan := tracker.Plan(files);
      CarriedExactly(tracker.hash, seen, files);
      PlanTotals(tracker.hash, tracker.entries, seen, files, plan);
      var retokenized := Update(plan, files, SaneK1(k1Arg, k1), SaneB(bArg, b));
      FreshExactly(u, index, seen, files);
      var chunkCount := CachedChunks();
      report := ReindexReport(plan, |index.index|, chunkCount, retokenized);
    }

    /** Rebuilds if the plan or the parameters ask for it. */
    method Update(plan: IncrementalPlan, files: Files, newK1: real, newB: real) returns (retokenized: nat)
      requires Valid() && IsPlan(tracker.hash, tracker.entries, files, plan)
      requires newK1 > 0.0 && 0.0 <= newB <= 1.0
      modifies this, tracker
      ensures Valid()
      ensures seen == Carried(tracker.hash, old(seen), files)
      ensures seen == files && old(Counted(tracker.entries, seen)) ==> Counted(tracker.entries, seen)
      ensures retokenized == plan.chunksToReindex
      ensures Difference(index.k1, newK1) <= 2.0 * EPSILON && Difference(index.b, newB) <= 2.0 * EPSILON
      ensures Difference(k1, newK1) <= EPSILON && Difference(b, newB) <= EPSILON
    {
      var paramsChanged := Difference(newK1, k1) > EPSILON || Difference(newB, b) > EPSILON;
      if !plan.IsNoop() || paramsChanged {
        if paramsChanged {
          k1, b := newK1, newB;
        }
        retokenized := Rebuild(plan, files, newK1, newB);
        assert Close(index, k1, b);
      } else {
        NoopKeeps(tracker.hash, tracker.entries, seen, files, plan);
        retokenized := 0;
      }
    }

    /** Brings the cache up to date, builds the index from it and commits. */
    method Rebuild(plan: IncrementalPlan, files: Files, newK1: real, newB: real) returns (retokenized: nat)
      requires Tracks(tracker.hash, tracker.entries, seen) && Caches(u, cache, seen)
      requires IsPlan(tracker.hash, tracker.entries, files, plan)
      modifies this`index, this`cache, this`seen, tracker
      ensures seen == Carried(tracker.hash, old(seen), files)
      ensures Synced(u, tracker.hash, tracker.entries, cache, index, seen)
      ensures seen == files ==> Counted(tracker.entries, seen)
      ensures index.k1 == newK1 && index.b == newB
      ensures retokenized == plan.chunksToReindex
    {
      ghost var after := Carried(tracker.hash, seen, files);
      DropRemoved(plan);
      RemovedAreGone(u, tracker.hash, tracker.entries, seen, files, plan, old(cache), cache);
      retokenized := Retokenize(plan, files);
      assert after.Keys == files.Keys;
      LessIsOrder();
      var paths := SortedList(Less, files.Keys);
      index := BuildFromCache(u, paths, cache, after, newK1, newB);
      tracker.Commit(files);
      CommittedTracks(tracker.hash, tracker.entries, seen, files);
      seen := after;
    }

    /** Forgets the chunks of the files that are gone. */
    method DropRemoved(plan: IncrementalPlan)
      modifies this`cache
      ensures cache == old(cache) - (set p | p in plan.removed)
    {
      for i := 0 to |plan.removed|
        invariant cache == old(cache) - (set p | p in plan.removed[..i])
      {
        assert plan.removed[..i + 1] == plan.removed[..i] + [plan.removed[i]];
        cache := cache - {plan.removed[i]};
      }
      assert plan.removed[..|plan.removed|] == plan.removed;
    }

    /** Tokenizes the added and modified files, and only those. */
    method Retokenize(plan: IncrementalPlan, files: Files) returns (retokenized: nat)
      requires Tracks(tracker.hash, tracker.entries, seen)
      requires IsPlan(tracker.hash, tracker.entries, files, plan)
      requires cache.Keys == seen.Keys * files.Keys
      requires forall p :: p in cache ==> cache[p] == FileChunks(u, seen[p])
      modifies this`cache
      ensures Caches(u, cache, Carried(tracker.hash, seen, files))
      ensures retokenized == plan.chunksToReindex
    {
      LessIsOrder();
      var changed := SortedList(Less, (set p | p in plan.added) + (set p | p in plan.modified));
      ghost var before := cache;
      assert forall i :: 0 <= i < |changed| ==> changed[i] in files by {
        assert forall i :: 0 <= i < |changed| ==> changed[i] in changed;
      }
      cache, retokenized := TokenizeFiles(u, changed, files, cache);
      ListsChanged(tracker.hash, tracker.entries, files, plan, changed);
      AllRetokenized(u, tracker.hash, tracker.entries, seen, before, cache, files);
    }

    /** The number of cached chunks. */
    method CachedChunks() returns (n: nat)
      requires Caches(u, cache, seen)
      ensures n == ChunkSum(seen.Keys, seen)
    {
      n := 0;
      var rest := cache.Keys;
      while rest != {}
        invariant rest <= seen.Keys && n + ChunkSum(rest, seen) == ChunkSum(seen.Keys, seen)
      {
        var p :| p in rest;
        SumAdd(rest, ChunkCounts(seen), p);
        PiecesOfContent(seen[p]);
        n := n + |cache[p]|;
        rest := rest - {p};
      }
    }
  }

  /** A run of re-index calls on a new index: at the end it stands for what the run leaves, and it is
      right for the last files if and only if that has the same chunks; so it is right if no call meets
      a collision with the call before it. */
  method ReindexAll(u: CharTable, hash: string -> nat, runs: seq<Files>, parameters: seq<(Float, Float)>)
    returns (x: IncrementalIndex)
    requires |parameters| == |runs|
    ensures fresh(x) && x.Valid() && x.seen == SeenAfter(hash, runs)
    ensures runs != [] ==>
              var last := runs[|runs| - 1];
              && SeenAfter(hash, runs).Keys == last.Keys
              && (IsFresh(u, x.index, last) <==> SameChunks(u, SeenAfter(hash, runs), last))
    ensures runs != [] && (forall i :: 0 < i < |runs| ==> NoCollision(hash, runs[i - 1], runs[i])) ==>
              IsFresh(u, x.index, runs[|runs| - 1])
  {
    x := new IncrementalIndex(u, hash);
    for i := 0 to |runs|
      invariant fresh(x) && fresh(x.tracker) && x.Valid() && x.u == u && x.tracker.hash == hash
      invariant x.seen == SeenAfter(hash, runs[..i])
    {
      assert runs[..i + 1][..i] == runs[..i];
      var report := x.Reindex(runs[i], parameters[i].0, parameters[i].1);
    }
    assert runs[..|runs|] == runs;
    if runs != [] {
      FreshExactly(u, x.index, x.seen, runs[|runs| - 1]);
    }
    if forall i :: 0 < i < |runs| ==> NoCollision(hash, runs[i - 1], runs[i]) {
      RunStaysCurrent(hash, runs);
    }
  }
}
