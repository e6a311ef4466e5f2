/** `split_fixed`: cutting a text into overlapping windows measured in UTF-16 code units, at byte
    offsets that never split a character. */
module Splitter {
  import opened Unicode

  datatype Chunk = Chunk(id: nat, text: string, start: nat, end: nat)

  // ---- measuring text ----

  /** UTF-16 code units of a character. */
  function Width(c: char): nat {
    if c as int > 0xFFFF then 2 else 1
  }

  /** UTF-8 bytes of a character. */
  function ByteLen(c: char): nat {
    if c as int < 0x80 then 1 else if c as int < 0x800 then 2 else if c as int < 0x10000 then 3 else 4
  }

  /** UTF-16 code units of the first `i` characters. */
  function Units(text: string, i: nat): (u: nat)
    requires i <= |text|
    ensures u >= i
  {
    if i == 0 then 0 else Units(text, i - 1) + Width(text[i - 1])
  }

  /** The byte offset of character `i`. */
  function Offset(text: string, i: nat): (b: nat)
    requires i <= |text|
    ensures b >= i
  {
    if i == 0 then 0 else Offset(text, i - 1) + ByteLen(text[i - 1])
  }

  /** Offsets count the bytes of the text in UTF-8, and units its code units in UTF-16. */
  lemma {:induction false} MeasuresAreEncodings(text: string, i: nat)
    requires i <= |text|
    ensures Offset(text, i) == |Encode8(text[..i])|
    ensures Units(text, i) == |Encode16(text[..i])|
  {
    if i > 0 {
      MeasuresAreEncodings(text, i - 1);
      assert text[..i][..i - 1] == text[..i - 1];
    }
  }

  predicate IsAscii(text: string) {
    forall i :: 0 <= i < |text| ==> text[i] as int < 0x80
  }

  lemma {:induction false} UnitsGrow(text: string, i: nat, j: nat)
    requires i <= j <= |text|
    ensures Units(text, i) + (j - i) <= Units(text, j) <= Units(text, i) + 2 * (j - i)
  {
    if i < j {
      UnitsGrow(text, i, j - 1);
    }
  }

  lemma {:induction false} OffsetGrows(text: string, i: nat, j: nat)
    requires i <= j <= |text|
    ensures Offset(text, i) + (j - i) <= Offset(text, j)
  {
    if i < j {
      OffsetGrows(text, i, j - 1);
    }
  }

  lemma {:induction false} AsciiMeasures(text: string, i: nat)
    requires IsAscii(text) && i <= |text|
    ensures Units(text, i) == i && Offset(text, i) == i
  {
    if i > 0 {
      AsciiMeasures(text, i - 1);
    }
  }

  // ---- byte offsets and characters ----

  /** `b` is the byte offset of a character, or the end of the text. */
  ghost predicate IsBoundary(text: string, b: nat) {
    exists i: nat :: i <= |text| && Offset(text, i) == b
  }

  /** The first character at or after `i` whose byte offset is at least `b`. */
  function CharFrom(text: string, b: nat, i: nat): (j: nat)
    requires i <= |text|
    ensures i <= j <= |text|
    decreases |text| - i
  {
    if i == |text| || Offset(text, i) >= b then i else CharFrom(text, b, i + 1)
  }

  /** `text[b..c]` of the program: the text between two byte offsets, which must be boundaries. */
  function Slice(text: string, b: nat, c: nat): string
    requires IsBoundary(text, b) && IsBoundary(text, c) && b <= c
  {
    SliceOk(text, b, c);
    text[CharFrom(text, b, 0)..CharFrom(text, c, 0)]
  }

  lemma {:induction false} CharFromOffset(text: string, i: nat, j: nat)
    requires i <= j <= |text|
    ensures CharFrom(text, Offset(text, j), i) == j
    decreases j - i
  {
    if i < j {
      OffsetGrows(text, i, j);
      CharFromOffset(text, i + 1, j);
    }
  }

  lemma SliceOk(text: string, b: nat, c: nat)
    requires IsBoundary(text, b) && IsBoundary(text, c) && b <= c
    ensures CharFrom(text, b, 0) <= CharFrom(text, c, 0)
  {
    var i: nat :| i <= |text| && Offset(text, i) == b;
    var j: nat :| j <= |text| && Offset(text, j) == c;
    if j < i {
      OffsetGrows(text, j, i);
    }
    CharFromOffset(text, 0, i);
    CharFromOffset(text, 0, j);
  }

  lemma SliceOffsets(text: string, i: nat, j: nat)
    requires i <= j <= |text|
    ensures IsBoundary(text, Offset(text, i)) && IsBoundary(text, Offset(text, j)) && Offset(text, i) <= Offset(text, j)
    ensures Slice(text, Offset(text, i), Offset(text, j)) == text[i..j]
  {
    OffsetGrows(text, i, j);
    CharFromOffset(text, 0, i);
    CharFromOffset(text, 0, j);
  }

  // ---- the windows ----

  /** The end of a window over the characters from `s` that holds at least those before `e`: it grows
      while the next character still fits. */
  ghost function WindowEnd(text: string, size: nat, s: nat, e: nat): (r: nat)
    requires s <= e <= |text|
    ensures e <= r <= |text|
    decreases |text| - e
  {
    if e == |text| || Units(text, e + 1) - Units(text, s) > size then e else WindowEnd(text, size, s, e + 1)
  }

  /** The start of the next window: back from `e`, but not before `s`, while the characters kept
      measure at most `overlap`. */
  ghost function NextStart(text: string, overlap: nat, s: nat, e: nat, cut: nat): (r: nat)
    requires s <= cut <= e <= |text|
    ensures s <= r <= cut
    decreases cut
  {
    if cut == s || Units(text, e) - Units(text, cut - 1) > overlap then cut
    else NextStart(text, overlap, s, e, cut - 1)
  }

  /** The windows, as pairs of character positions, from one that starts at `s` and holds the
      character `m` on. */
  ghost function Spans(text: string, size: nat, overlap: nat, s: nat, m: nat): (r: seq<(nat, nat)>)
    requires s <= m < |text|
    ensures r != [] && r[0].0 == s
    decreases |text| - m
  {
    var e := WindowEnd(text, size, s, m + 1);
    if e == |text| then [(s, e)]
    else [(s, e)] + Spans(text, size, overlap, NextStart(text, overlap, s, e, e), e)
  }

  function Clamp(size: nat, overlap: nat): nat {
    if overlap <= size / 2 then overlap else size / 2
  }

  ghost function AllSpans(text: string, size: nat, overlap: nat): seq<(nat, nat)> {
    if text == [] || size == 0 then [] else Spans(text, size, Clamp(size, overlap), 0, 0)
  }

  ghost predicate SpansInText(text: string, spans: seq<(nat, nat)>) {
    forall k :: 0 <= k < |spans| ==> spans[k].0 <= spans[k].1 <= |text|
  }

  /** `chunks` are the windows `spans` of the text, numbered from `id` on. */
  ghost predicate Holds(text: string, spans: seq<(nat, nat)>, chunks: seq<Chunk>)
    requires SpansInText(text, spans)
  {
    && |chunks| == |spans|
    && forall k :: 0 <= k < |spans| ==>
         chunks[k] == Chunk(k, text[spans[k].0..spans[k].1], Offset(text, spans[k].0), Offset(text, spans[k].1))
  }

  lemma {:induction false} SpansAreInText(text: string, size: nat, overlap: nat, s: nat, m: nat)
    requires s <= m < |text|
    ensures SpansInText(text, Spans(text, size, overlap, s, m))
    decreases |text| - m
  {
    var e := WindowEnd(text, size, s, m + 1);
    if e < |text| {
      SpansAreInText(text, size, overlap, NextStart(text, overlap, s, e, e), e);
    }
  }

  // ---- the fast path ----

  lemma {:induction false} AsciiEnd(text: string, size: nat, s: nat, e: nat)
    requires IsAscii(text) && s <= e <= |text| && e <= s + size
    ensures WindowEnd(text, size, s, e) == if s + size <= |text| then s + size else |text|
    decreases |text| - e
  {
    AsciiMeasures(text, s);
    AsciiMeasures(text, e);
    if e < |text| {
      AsciiMeasures(text, e + 1);
      if e + 1 <= s + size {
        AsciiEnd(text, size, s, e + 1);
      }
    }
  }

  lemma {:induction false} AsciiStart(text: string, overlap: nat, s: nat, e: nat, cut: nat)
    requires IsAscii(text) && s <= e - overlap <= cut <= e <= |text|
    ensures NextStart(text, overlap, s, e, cut) == e - overlap
    decreases cut
  {
    AsciiMeasures(text, e);
    if cut > s {
      AsciiMeasures(text, cut - 1);
      if cut > e - overlap {
        AsciiStart(text, overlap, s, e, cut - 1);
      }
    }
  }

  /** `chunks` are the windows of `all` before the one that starts at `s` and holds `m`. */
  ghost predicate Pending(text: string, size: nat, overlap: nat, all: seq<(nat, nat)>, chunks: seq<Chunk>, s: nat,
                          m: nat) {
    && s <= m < |text|
    && exists done ::
         SpansInText(text, done) && Holds(text, done, chunks) && all == done + Spans(text, size, overlap, s, m)
  }

  lemma Begin(text: string, size: nat, overlap: nat)
    requires text != []
    ensures Pending(text, size, overlap, Spans(text, size, overlap, 0, 0), [], 0, 0)
  {
    assert Spans(text, size, overlap, 0, 0) == [] + Spans(text, size, overlap, 0, 0);
    assert Holds(text, [], []);
  }

  /** The chunk between two characters. */
  ghost function ChunkOf(text: string, id: nat, s: nat, e: nat): Chunk
    requires s <= e <= |text|
  {
    Chunk(id, text[s..e], Offset(text, s), Offset(text, e))
  }

  /** The chunk between two byte offsets, which are those of the characters `s` and `e`. */
  method MakeChunk(text: string, id: nat, start: nat, end: nat, ghost s: nat, ghost e: nat) returns (c: Chunk)
    requires s <= e <= |text| && start == Offset(text, s) && end == Offset(text, e)
    ensures c == ChunkOf(text, id, s, e)
  {
    SliceOffsets(text, s, e);
    c := Chunk(id, Slice(text, start, end), start, end);
  }

  lemma SpansAppend(text: string, spans: seq<(nat, nat)>, chunks: seq<Chunk>, s: nat, e: nat)
    requires SpansInText(text, spans) && Holds(text, spans, chunks) && s <= e <= |text|
    ensures SpansInText(text, spans + [(s, e)])
    ensures Holds(text, spans + [(s, e)], chunks + [ChunkOf(text, |chunks|, s, e)])
  {
  }

  /** A window that ends before the text does is emitted, and the next one begins. */
  lemma EmitWindow(text: string, size: nat, overlap: nat, all: seq<(nat, nat)>, chunks: seq<Chunk>, s: nat, m: nat,
                   e: nat)
    requires Pending(text, size, overlap, all, chunks, s, m) && m < e < |text|
    requires WindowEnd(text, size, s, m + 1) == e
    ensures Pending(text, size, overlap, all, chunks + [ChunkOf(text, |chunks|, s, e)],
                    NextStart(text, overlap, s, e, e), e)
  {
    var done :| SpansInText(text, done) && Holds(text, done, chunks) && all == done + Spans(text, size, overlap, s, m);
    var later := Spans(text, size, overlap, NextStart(text, overlap, s, e, e), e);
    assert Spans(text, size, overlap, s, m) == [(s, e)] + later;
    assert done + ([(s, e)] + later) == (done + [(s, e)]) + later;
    SpansAppend(text, done, chunks, s, e);
  }

  /** The window that reaches the end of the text is the last. */
  lemma EmitLast(text: string, size: nat, overlap: nat, all: seq<(nat, nat)>, chunks: seq<Chunk>, s: nat, m: nat)
    requires Pending(text, size, overlap, all, chunks, s, m)
    requires WindowEnd(text, size, s, m + 1) == |text|
    ensures SpansInText(text, all) && Holds(text, all, chunks + [ChunkOf(text, |chunks|, s, |text|)])
  {
    var done :| SpansInText(text, done) && Holds(text, done, chunks) && all == done + Spans(text, size, overlap, s, m);
    assert Spans(text, size, overlap, s, m) == [(s, |text|)];
    SpansAppend(text, done, chunks, s, |text|);
  }

  /** In ASCII text, byte offsets are character positions. */
  method AsciiChunk(text: string, id: nat, start: nat, end: nat) returns (c: Chunk)
    requires IsAscii(text) && start <= end <= |text|
    ensures c == ChunkOf(text, id, start, end)
  {
    AsciiMeasures(text, start);
    AsciiMeasures(text, end);
    c := MakeChunk(text, id, start, end, start, end);
  }

  /** One turn of the fast path. */
  lemma AsciiWindow(text: string, size: nat, overlap: nat, all: seq<(nat, nat)>, chunks: seq<Chunk>, s: nat, m: nat,
                    e: nat)
    requires IsAscii(text) && Pending(text, size, overlap, all, chunks, s, m)
    requires 0 < size && m < s + size && overlap <= size && e == if s + size <= |text| then s + size else |text|
    ensures e <= |text| && s <= e
    ensures e == |text| ==> SpansInText(text, all) && Holds(text, all, chunks + [ChunkOf(text, |chunks|, s, e)])
    ensures e < |text| ==>
              Pending(text, size, overlap, all, chunks + [ChunkOf(text, |chunks|, s, e)], e - overlap, e)
  {
    AsciiEnd(text, size, s, m + 1);
    if e == |text| {
      EmitLast(text, size, overlap, all, chunks, s, m);
    } else {
      EmitWindow(text, size, overlap, all, chunks, s, m, e);
      AsciiStart(text, overlap, s, e, e);
    }
  }

  /** The fast path: plain byte slicing. */
  method SplitAscii(text: string, size: nat, overlap: nat) returns (chunks: seq<Chunk>)
    requires text != [] && IsAscii(text) && 0 < size && overlap <= size / 2
    ensures SpansInText(text, Spans(text, size, overlap, 0, 0))
    ensures Holds(text, Spans(text, size, overlap, 0, 0), chunks)
  {
    ghost var all := Spans(text, size, overlap, 0, 0);
    Begin(text, size, overlap);
    ghost var m: nat := 0;
    var len := |text|;
    var start: nat := 0;
    chunks := [];
    while start < len
      invariant m <= start + size / 2
      invariant Pending(text, size, overlap, all, chunks, start, m)
      decreases len - m
    {
      var end := if start + size <= len then start + size else len;
      var chunk := AsciiChunk(text, |chunks|, start, end);
      AsciiWindow(text, size, overlap, all, chunks, start, m, end);
      chunks := chunks + [chunk];
      if end >= len {
        return;
      }
      start, m := end - overlap, end;
    }
  }

  // ---- the streaming path ----

  /** The character positions from `s` to `e` with their byte offsets and widths. */
  ghost predicate IsWindow(text: string, window: seq<(nat, nat)>, s: nat, e: nat) {
    && s <= e <= |text|
    && |window| == e - s
    && forall k :: 0 <= k < |window| ==> window[k] == (Offset(text, s + k), Width(text[s + k]))
  }

  /** Keeps the trailing characters of the window that measure at most `overlap`. */
  method Rewind(window: seq<(nat, nat)>, overlap: nat, ghost text: string, ghost s: nat, ghost e: nat)
    returns (cut: nat, kept: nat)
    requires IsWindow(text, window, s, e)
    ensures cut <= |window| && s + cut == NextStart(text, overlap, s, e, e)
    ensures kept == Units(text, e) - Units(text, s + cut)
  {
    kept := 0;
    cut := |window|;
    while cut > 0
      invariant cut <= |window| && kept == Units(text, e) - Units(text, s + cut)
      invariant NextStart(text, overlap, s, e, e) == NextStart(text, overlap, s, e, s + cut)
    {
      var pw := window[cut - 1].1;
      if kept + pw > overlap {
        break;
      }
      kept := kept + pw;
      cut := cut - 1;
    }
  }

  lemma WindowCut(text: string, window: seq<(nat, nat)>, s: nat, e: nat, cut: nat)
    requires IsWindow(text, window, s, e) && cut <= |window|
    ensures IsWindow(text, window[cut..], s + cut, e)
    ensures Offset(text, s + cut) == if cut < |window| then window[cut].0 else Offset(text, e)
  {
  }

  /** The state of the stream at character `i`: the window runs from `s` and must hold `m`, if `m`
      has been pushed yet. */
  ghost predicate Streaming(text: string, size: nat, s: nat, m: nat, i: nat, window: seq<(nat, nat)>, units: nat) {
    && s <= m <= i && m < |text|
    && IsWindow(text, window, s, i)
    && units == Units(text, i) - Units(text, s)
    && (m < i ==> WindowEnd(text, size, s, m + 1) == WindowEnd(text, size, s, i))
  }

  lemma Push(text: string, size: nat, s: nat, m: nat, i: nat, window: seq<(nat, nat)>, units: nat)
    requires Streaming(text, size, s, m, i, window, units) && i < |text|
    requires m < i ==> units + Width(text[i]) <= size
    ensures Streaming(text, size, s, m, i + 1, window + [(Offset(text, i), Width(text[i]))], units + Width(text[i]))
  {
  }

  /** The units are positive once a character is held, and a window ends at the end of the text or
      before a character that does not fit. */
  lemma StreamUnits(text: string, size: nat, s: nat, m: nat, i: nat, window: seq<(nat, nat)>, units: nat)
    requires Streaming(text, size, s, m, i, window, units)
    ensures units > 0 <==> s < i
    ensures m < i && (i == |text| || units + Width(text[i]) > size) ==> WindowEnd(text, size, s, m + 1) == i
  {
    UnitsGrow(text, s, i);
  }

  /** Closes the window over the characters from `s` to `i` and rewinds by the overlap. */
  method CloseWindow(text: string, size: nat, overlap: nat, chunks: seq<Chunk>, window: seq<(nat, nat)>,
                     chunkStart: nat, bi: nat, ghost all: seq<(nat, nat)>, ghost s: nat, ghost m: nat, ghost i: nat)
    returns (chunks': seq<Chunk>, window': seq<(nat, nat)>, chunkStart': nat, units: nat)
    requires Pending(text, size, overlap, all, chunks, s, m) && m < i < |text| && WindowEnd(text, size, s, m + 1) == i
    requires IsWindow(text, window, s, i) && chunkStart == Offset(text, s) && bi == Offset(text, i)
    ensures chunks' == chunks + [ChunkOf(text, |chunks|, s, i)]
    ensures var next := NextStart(text, overlap, s, i, i);
            && Pending(text, size, overlap, all, chunks', next, i) && chunkStart' == Offset(text, next)
            && Streaming(text, size, next, i, i, window', units)
  {
    EmitWindow(text, size, overlap, all, chunks, s, m, i);
    var chunk := MakeChunk(text, |chunks|, chunkStart, bi, s, i);
    chunks' := chunks + [chunk];
    var cut, kept := Rewind(window, overlap, text, s, i);
    WindowCut(text, window, s, i, cut);
    chunkStart' := if cut < |window| then window[cut].0 else bi;
    units := kept;
    window' := window[cut..];
  }

  /** The streaming path: characters are pushed one by one, and a window is closed when the next
      character does not fit. */
  method SplitStream(text: string, size: nat, overlap: nat) returns (chunks: seq<Chunk>)
    requires text != [] && 0 < size
    ensures SpansInText(text, Spans(text, size, overlap, 0, 0))
    ensures Holds(text, Spans(text, size, overlap, 0, 0), chunks)
  {
    ghost var all := Spans(text, size, overlap, 0, 0);
    Begin(text, size, overlap);
    ghost var s: nat, m: nat := 0, 0;
    chunks := [];
    var window: seq<(nat, nat)> := [];
    var chunkStart: nat, units: nat, bi: nat := 0, 0, 0;
    for i := 0 to |text|
      invariant Streaming(text, size, s, m, i, window, units) && (i > 0 ==> m < i)
      invariant bi == Offset(text, i) && chunkStart == Offset(text, s)
      invariant Pending(text, size, overlap, all, chunks, s, m)
    {
      var w := Width(text[i]);
      StreamUnits(text, size, s, m, i, window, units);
      if units + w > size && units > 0 {
        chunks, window, chunkStart, units :=
          CloseWindow(text, size, overlap, chunks, window, chunkStart, bi, all, s, m, i);
        s, m := NextStart(text, overlap, s, i, i), i;
      }
      Push(text, size, s, m, i, window, units);
      window := window + [(bi, w)];
      units := units + w;
      bi := bi + ByteLen(text[i]);
    }
    StreamUnits(text, size, s, m, |text|, window, units);
    EmitLast(text, size, overlap, all, chunks, s, m);
    if units > 0 {
      var chunk := MakeChunk(text, |chunks|, chunkStart, bi, s, |text|);
      chunks := chunks + [chunk];
    }
  }

  /** `split_fixed`. */
  method SplitFixed(text: string, size: nat, overlap: nat) returns (chunks: seq<Chunk>)
    ensures SpansInText(text, AllSpans(text, size, overlap))
    ensures Holds(text, AllSpans(text, size, overlap), chunks)
  {
    if text == [] || size == 0 {
      return [];
    }
    var clamped := Clamp(size, overlap);
    if IsAscii(text) {
      chunks := SplitAscii(text, size, clamped);
    } else {
      chunks := SplitStream(text, size, clamped);
    }
  }

  /** The result is determined: on ASCII text both paths give the same chunk list. */
  lemma SamePaths(text: string, spans: seq<(nat, nat)>, fast: seq<Chunk>, streamed: seq<Chunk>)
    requires SpansInText(text, spans) && Holds(text, spans, fast) && Holds(text, spans, streamed)
    ensures fast == streamed
  {
    forall k | 0 <= k < |spans|
      ensures fast[k] == streamed[k]
    {
    }
  }

  // ---- what the windows are good for ----

  /** The windows cover the text in order: each is nonempty, ends strictly after the previous one and
      starts inside it, sharing as many characters as there are in `overlap` units; none could have taken
      one character more. */
  ghost predicate Covers(text: string, size: nat, overlap: nat, spans: seq<(nat, nat)>)
    requires SpansInText(text, spans)
  {
    && spans != []
    && spans[|spans| - 1].1 == |text|
    && (forall k :: 0 <= k < |spans| ==> spans[k].0 < spans[k].1)
    && (forall k :: 0 <= k < |spans| - 1 ==> Linked(text, size, overlap, spans[k], spans[k + 1]))
  }

  ghost predicate Linked(text: string, size: nat, overlap: nat, a: (nat, nat), b: (nat, nat))
    requires a.0 <= a.1 <= |text| && b.0 <= b.1 <= |text|
  {
    && a.1 < b.1 && a.0 <= b.0 <= a.1
    && Units(text, a.1) - Units(text, b.0) <= overlap
    && (b.0 == a.0 || Units(text, a.1) - Units(text, b.0 - 1) > overlap)
    && Units(text, a.1 + 1) - Units(text, a.0) > size
  }

  lemma {:induction false} NextStartKeeps(text: string, overlap: nat, s: nat, e: nat, cut: nat)
    requires s <= cut <= e <= |text| && Units(text, e) - Units(text, cut) <= overlap
    ensures var r := NextStart(text, overlap, s, e, cut);
            && Units(text, e) - Units(text, r) <= overlap
            && (r == s || Units(text, e) - Units(text, r - 1) > overlap)
    decreases cut
  {
    if cut > s && Units(text, e) - Units(text, cut - 1) <= overlap {
      NextStartKeeps(text, overlap, s, e, cut - 1);
    }
  }

  lemma {:induction false} WindowEndStops(text: string, size: nat, s: nat, e: nat)
    requires s <= e <= |text|
    ensures var r := WindowEnd(text, size, s, e);
            && (r < |text| ==> Units(text, r + 1) - Units(text, s) > size)
            && (Units(text, e) - Units(text, s) <= size ==> Units(text, r) - Units(text, s) <= size)
    decreases |text| - e
  {
    if e < |text| && Units(text, e + 1) - Units(text, s) <= size {
      WindowEndStops(text, size, s, e + 1);
    }
  }

  lemma {:induction false} SpansCover(text: string, size: nat, overlap: nat, s: nat, m: nat)
    requires s <= m < |text|
    ensures SpansInText(text, Spans(text, size, overlap, s, m))
    ensures Covers(text, size, overlap, Spans(text, size, overlap, s, m))
    ensures Spans(text, size, overlap, s, m)[0].1 > m
    decreases |text| - m
  {
    SpansAreInText(text, size, overlap, s, m);
    var e := WindowEnd(text, size, s, m + 1);
    WindowEndStops(text, size, s, m + 1);
    if e < |text| {
      var next := NextStart(text, overlap, s, e, e);
      SpansCover(text, size, overlap, next, e);
      WindowLinks(text, size, overlap, s, m, Spans(text, size, overlap, next, e)[0].1);
      CoversFront(text, size, overlap, (s, e), Spans(text, size, overlap, next, e));
    }
  }

  /** A window is linked to the one after it, wherever that ends. */
  lemma WindowLinks(text: string, size: nat, overlap: nat, s: nat, m: nat, end: nat)
    requires s <= m < |text| && WindowEnd(text, size, s, m + 1) < end <= |text|
    ensures var e := WindowEnd(text, size, s, m + 1);
            Linked(text, size, overlap, (s, e), (NextStart(text, overlap, s, e, e), end))
  {
    var e := WindowEnd(text, size, s, m + 1);
    WindowEndStops(text, size, s, m + 1);
    NextStartKeeps(text, overlap, s, e, e);
  }

  /** A window linked to the first one may be put in front. */
  lemma CoversFront(text: string, size: nat, overlap: nat, a: (nat, nat), later: seq<(nat, nat)>)
    requires SpansInText(text, later) && Covers(text, size, overlap, later)
    requires a.0 < a.1 <= |text| && Linked(text, size, overlap, a, later[0])
    ensures SpansInText(text, [a] + later) && Covers(text, size, overlap, [a] + later)
  {
    var all := [a] + later;
    forall k | 0 <= k < |all| - 1
      ensures Linked(text, size, overlap, all[k], all[k + 1])
    {
      if k > 0 {
        assert Linked(text, size, overlap, later[k - 1], later[k]);
      }
    }
  }

  // ---- chunk sizes ----

  ghost predicate Fits(text: string, size: nat, spans: seq<(nat, nat)>)
    requires SpansInText(text, spans)
  {
    forall k :: 0 <= k < |spans| ==> Units(text, spans[k].1) - Units(text, spans[k].0) <= size
  }

  ghost predicate Advances(spans: seq<(nat, nat)>) {
    forall k :: 0 <= k < |spans| - 1 ==> spans[k].0 < spans[k + 1].0
  }

  lemma {:induction false} SpansFit(text: string, size: nat, overlap: nat, s: nat, m: nat)
    requires s <= m < |text| && Units(text, m + 1) - Units(text, s) <= size && overlap + 2 <= size
    ensures SpansInText(text, Spans(text, size, overlap, s, m)) && Fits(text, size, Spans(text, size, overlap, s, m))
    decreases |text| - m
  {
    SpansAreInText(text, size, overlap, s, m);
    var e := WindowEnd(text, size, s, m + 1);
    WindowEndStops(text, size, s, m + 1);
    if e < |text| {
      var next := NextStart(text, overlap, s, e, e);
      NextStartKeeps(text, overlap, s, e, e);
      SpansFit(text, size, overlap, next, e);
    }
  }

  lemma {:induction false} SpansAdvance(text: string, size: nat, overlap: nat, s: nat, m: nat)
    requires s <= m < |text| && (overlap + 2 <= size || overlap == 0)
    ensures Advances(Spans(text, size, overlap, s, m))
    decreases |text| - m
  {
    var e := WindowEnd(text, size, s, m + 1);
    WindowEndStops(text, size, s, m + 1);
    if e < |text| {
      var next := NextStart(text, overlap, s, e, e);
      NextStartKeeps(text, overlap, s, e, e);
      UnitsGrow(text, s, e);
      SpansAdvance(text, size, overlap, next, e);
    }
  }

  /** Some call with this size and overlap reports a chunk of more than `size` units, if and only if
      the size is 1, or is 2 with any overlap. */
  lemma SizeBoundExactly(size: nat, overlap: nat)
    ensures (forall text: string ::
               SpansInText(text, AllSpans(text, size, overlap)) && Fits(text, size, AllSpans(text, size, overlap)))
            <==> size != 1 && (size != 2 || overlap == 0)
  {
    if size != 1 && (size != 2 || overlap == 0) {
      forall text: string
        ensures SpansInText(text, AllSpans(text, size, overlap)) && Fits(text, size, AllSpans(text, size, overlap))
      {
        if text != [] && size != 0 {
          assert Units(text, 1) == Units(text, 0) + Width(text[0]);
          SpansFit(text, size, Clamp(size, overlap), 0, 0);
        }
      }
    } else if size == 1 {
      var text := WIDE;
      assert Units(text, 1) == Units(text, 0) + Width(text[0]) == 2;
      assert AllSpans(text, 1, overlap) == [(0, 1)];
      assert !Fits(text, 1, [(0, 1)]);
    } else {
      WideTextStalls(overlap);
      var spans := AllSpans(['a'] + WIDE, 2, overlap);
      assert Units(['a'] + WIDE, spans[1].1) - Units(['a'] + WIDE, spans[1].0) > 2;
      assert !(SpansInText(['a'] + WIDE, spans) && Fits(['a'] + WIDE, 2, spans));
    }
  }

  /** Every window starts strictly after the previous one in every text, if and only if it is not the
      case that the size is 2 and there is an overlap. */
  lemma AdvanceExactly(size: nat, overlap: nat)
    ensures (forall text: string :: Advances(AllSpans(text, size, overlap))) <==> size != 2 || overlap == 0
  {
    if size != 2 || overlap == 0 {
      forall text: string
        ensures Advances(AllSpans(text, size, overlap))
      {
        if text != [] && size != 0 {
          SpansAdvance(text, size, Clamp(size, overlap), 0, 0);
        }
      }
    } else {
      WideTextStalls(overlap);
      var spans := AllSpans(['a'] + WIDE, 2, overlap);
      assert spans[0].0 == spans[1].0;
      assert !Advances(spans);
    }
  }

  const WIDE: string := ['\U{1F600}']

  /** With size 2 and an overlap, a wide character after a narrow one is put into a window of three
      units that starts where the previous window did. */
  lemma WideTextStalls(overlap: nat)
    requires overlap >= 1
    ensures var text := ['a'] + WIDE;
            && AllSpans(text, 2, overlap) == [(0, 1), (0, 2)]
            && Units(text, 2) == 3
  {
    var text := ['a'] + WIDE;
    assert Units(text, 1) == Units(text, 0) + Width(text[0]) == 1;
    assert Units(text, 2) == Units(text, 1) + Width(text[1]) == 3;
    assert WindowEnd(text, 2, 0, 1) == 1;
    assert NextStart(text, 1, 0, 1, 1) == 0;
    assert Spans(text, 2, 1, 0, 1) == [(0, 2)];
    assert Spans(text, 2, 1, 0, 0) == [(0, 1), (0, 2)];
  }

  // ---- rebuilding the text ----

  function DropBytes(t: string, n: nat): string {
    t[CharFrom(t, n, 0)..]
  }

  /** The chunk texts one after the other, each without the bytes it shares with the previous one. */
  function Rebuild(chunks: seq<Chunk>): string {
    RebuildFirst(chunks, |chunks|)
  }

  /** The same for the first `k` chunks. */
  function RebuildFirst(chunks: seq<Chunk>, k: nat): string
    requires k <= |chunks|
  {
    if k == 0 then ""
    else if k == 1 then chunks[0].text
    else RebuildFirst(chunks, k - 1) + Fresh(chunks[k - 2], chunks[k - 1])
  }

  /** The text of `last` without the bytes it shares with the chunk before it. */
  function Fresh(before: Chunk, last: Chunk): string {
    if before.end < last.start then last.text else DropBytes(last.text, before.end - last.start)
  }

  lemma {:induction false} OffsetInside(text: string, s: nat, e: nat, i: nat)
    requires s <= s + i <= e <= |text|
    ensures Offset(text[s..e], i) == Offset(text, s + i) - Offset(text, s)
    decreases i
  {
    if i > 0 {
      OffsetInside(text, s, e, i - 1);
    }
  }

  lemma DropShared(text: string, s: nat, p: nat, e: nat, n: int)
    requires s <= p <= e <= |text| && n == Offset(text, p) - Offset(text, s)
    ensures n >= 0
    ensures DropBytes(text[s..e], n) == text[p..e]
  {
    OffsetGrows(text, s, p);
    var t := text[s..e];
    OffsetInside(text, s, e, p - s);
    CharFromOffset(t, 0, p - s);
    assert t[p - s..] == text[p..e];
  }

  /** What is new in a chunk that begins inside the one before it. */
  lemma FreshPart(text: string, before: Chunk, last: Chunk, s: nat, p: nat, e: nat)
    requires s <= p <= e <= |text| && before.end == Offset(text, p)
    requires last.text == text[s..e] && last.start == Offset(text, s)
    ensures Fresh(before, last) == text[p..e]
  {
    DropShared(text, s, p, e, Offset(text, p) - Offset(text, s));
  }

  lemma {:induction false} RebuildPrefix(text: string, size: nat, overlap: nat, spans: seq<(nat, nat)>,
                                         chunks: seq<Chunk>, k: nat)
    requires SpansInText(text, spans) && Holds(text, spans, chunks) && Covers(text, size, overlap, spans)
    requires spans[0].0 == 0 && 0 < k <= |spans|
    ensures RebuildFirst(chunks, k) == text[..spans[k - 1].1]
    decreases k
  {
    if k > 1 {
      RebuildPrefix(text, size, overlap, spans, chunks, k - 1);
      assert Linked(text, size, overlap, spans[k - 2], spans[k - 1]);
      var (s, p, e) := (spans[k - 1].0, spans[k - 2].1, spans[k - 1].1);
      FreshPart(text, chunks[k - 2], chunks[k - 1], s, p, e);
      PrefixGrows(text, p, e);
    }
  }

  lemma PrefixGrows(text: string, p: nat, e: nat)
    requires p <= e <= |text|
    ensures text[..p] + text[p..e] == text[..e]
  {
  }

  /** The windows of `split_fixed` cover the text, whatever the size and overlap. */
  lemma AllSpansCover(text: string, size: nat, overlap: nat)
    requires text != [] && size > 0
    ensures SpansInText(text, AllSpans(text, size, overlap))
    ensures Covers(text, size, Clamp(size, overlap), AllSpans(text, size, overlap))
    ensures AllSpans(text, size, overlap)[0].0 == 0
  {
    SpansCover(text, size, Clamp(size, overlap), 0, 0);
  }

  /** What consecutive windows share, by the size and the overlap that the caller passes: no more than
      the overlap and half the size, and the most characters of which that is true. */
  lemma OverlapExactly(text: string, size: nat, overlap: nat, k: nat)
    requires text != [] && size > 0 && k + 1 < |AllSpans(text, size, overlap)|
    ensures SpansInText(text, AllSpans(text, size, overlap))
    ensures var a, b := AllSpans(text, size, overlap)[k], AllSpans(text, size, overlap)[k + 1];
            && a.0 <= b.0 <= a.1
            && Units(text, a.1) - Units(text, b.0) <= overlap
            && Units(text, a.1) - Units(text, b.0) <= size / 2
            && (b.0 == a.0 || Units(text, a.1) - Units(text, b.0 - 1) > overlap
                || Units(text, a.1) - Units(text, b.0 - 1) > size / 2)
  {
    AllSpansCover(text, size, overlap);
    var spans := AllSpans(text, size, overlap);
    assert Linked(text, size, Clamp(size, overlap), spans[k], spans[k + 1]);
  }

  /** In ASCII text every window but the first begins the overlap, but at most half the size, before the
      end of the one before it, and every window but the last has exactly the size. */
  lemma AsciiOverlap(text: string, size: nat, overlap: nat, k: nat)
    requires text != [] && size > 0 && IsAscii(text) && k + 1 < |AllSpans(text, size, overlap)|
    ensures var a, b := AllSpans(text, size, overlap)[k], AllSpans(text, size, overlap)[k + 1];
            && a.1 == a.0 + size
            && (overlap <= size / 2 ==> b.0 == a.1 - overlap)
            && (overlap >= size / 2 ==> b.0 == a.1 - size / 2)
  {
    OverlapExactly(text, size, overlap, k);
    var spans := AllSpans(text, size, overlap);
    var a, b := spans[k], spans[k + 1];
    AllSpansCover(text, size, overlap);
    assert Linked(text, size, Clamp(size, overlap), a, b);
    AsciiFits(text, size, overlap);
    AsciiMeasures(text, a.0);
    AsciiMeasures(text, a.1);
    AsciiMeasures(text, a.1 + 1);
    AsciiMeasures(text, b.0);
    if b.0 > 0 {
      AsciiMeasures(text, b.0 - 1);
    }
  }

  /** No window of an ASCII text exceeds the size. */
  lemma AsciiFits(text: string, size: nat, overlap: nat)
    requires text != [] && size > 0 && IsAscii(text)
    ensures SpansInText(text, AllSpans(text, size, overlap)) && Fits(text, size, AllSpans(text, size, overlap))
  {
    AsciiMeasures(text, 0);
    AsciiMeasures(text, 1);
    AsciiSpansFit(text, size, Clamp(size, overlap), 0, 0);
  }

  lemma {:induction false} AsciiSpansFit(text: string, size: nat, overlap: nat, s: nat, m: nat)
    requires IsAscii(text) && s <= m < |text| && m < s + size && overlap <= size / 2
    ensures SpansInText(text, Spans(text, size, overlap, s, m)) && Fits(text, size, Spans(text, size, overlap, s, m))
    decreases |text| - m
  {
    SpansAreInText(text, size, overlap, s, m);
    var e := WindowEnd(text, size, s, m + 1);
    AsciiEnd(text, size, s, m + 1);
    AsciiMeasures(text, s);
    AsciiMeasures(text, e);
    if e < |text| {
      AsciiStart(text, overlap, s, e, e);
      AsciiSpansFit(text, size, overlap, e - overlap, e);
    }
  }

  /** The chunks of `split_fixed` run from the first byte to the last, and without their overlaps
      they are the text. */
  lemma SplitRebuilds(text: string, size: nat, overlap: nat, spans: seq<(nat, nat)>, chunks: seq<Chunk>)
    requires text != [] && size > 0 && spans == AllSpans(text, size, overlap)
    requires SpansInText(text, spans) && Holds(text, spans, chunks)
    ensures chunks != [] && chunks[0].start == 0 && chunks[|chunks| - 1].end == Offset(text, |text|)
    ensures Rebuild(chunks) == text
  {
    AllSpansCover(text, size, overlap);
    RebuildPrefix(text, size, Clamp(size, overlap), spans, chunks, |chunks|);
    assert text[..|text|] == text;
  }
}
