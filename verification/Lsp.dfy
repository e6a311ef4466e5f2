/** The framing of the Language Server Protocol's Base Protocol over a byte stream: how messages
    are written, and how the reader's buffer turns chunks back into messages. */
module Lsp {
  import opened Wrappers
  import opened Sets
  import opened Unicode

  newtype byte = x: int | 0 <= x < 256
  type Bytes = seq<byte>

  const CRLFCRLF: Bytes := [13, 10, 13, 10]

  // "Content-Length:" in lower case
  const FIELD: Bytes := [99, 111, 110, 116, 101, 110, 116, 45, 108, 101, 110, 103, 116, 104, 58]

  // "Content-Length: " as it is written
  const PREFIX: Bytes := [67, 111, 110, 116, 101, 110, 116, 45, 76, 101, 110, 103, 116, 104, 58, 32]

  // ---- searching ----

  predicate OccursAt(buf: Bytes, pat: Bytes, i: nat) {
    i + |pat| <= |buf| && buf[i..i + |pat|] == pat
  }

  /** `Buffer.indexOf` from position `i` on. */
  function IndexFrom(buf: Bytes, pat: Bytes, i: nat): (r: Option<nat>)
    ensures r.Some? ==> i <= r.value && r.value + |pat| <= |buf|
    decreases |buf| - i
  {
    if i + |pat| > |buf| then None
    else if OccursAt(buf, pat, i) then Some(i)
    else IndexFrom(buf, pat, i + 1)
  }

  /** The result is the first occurrence, if there is one. */
  lemma {:induction false} IndexIsFirst(buf: Bytes, pat: Bytes, i: nat)
    ensures var r := IndexFrom(buf, pat, i);
            if r.Some? then OccursAt(buf, pat, r.value) && forall j :: i <= j < r.value ==> !OccursAt(buf, pat, j)
            else forall j :: i <= j ==> !OccursAt(buf, pat, j)
    decreases |buf| - i
  {
    if i + |pat| <= |buf| && !OccursAt(buf, pat, i) {
      IndexIsFirst(buf, pat, i + 1);
    }
  }

  function HeaderEnd(buf: Bytes): (r: Option<nat>)
    ensures r.Some? ==> r.value + 4 <= |buf|
  {
    IndexFrom(buf, CRLFCRLF, 0)
  }

  // ---- the header field:  /Content-Length:\s*(\d+)/i  ----

  function Lower(b: byte): byte {
    if 65 <= b <= 90 then b + 32 else b
  }

  predicate FieldAt(h: Bytes, i: nat) {
    i + |FIELD| <= |h| && forall k :: 0 <= k < |FIELD| ==> Lower(h[i + k]) == FIELD[k]
  }

  /** The length in bytes of the whitespace character that starts at `i`, 0 if there is none: the
      ASCII ones and the UTF-8 forms of U+00A0, U+1680, U+2000-200A, U+2028, U+2029, U+202F, U+205F,
      U+3000 and U+FEFF. */
  function SpaceAt(h: Bytes, i: nat): (n: nat)
    ensures n > 0 ==> i + n <= |h|
  {
    if i >= |h| then 0
    else if 9 <= h[i] <= 13 || h[i] == 32 then 1
    else if i + 1 < |h| && h[i] == 0xC2 && h[i + 1] == 0xA0 then 2
    else if i + 2 < |h| && WideSpace(h[i], h[i + 1], h[i + 2]) then 3
    else 0
  }

  predicate WideSpace(a: byte, b: byte, c: byte) {
    || (a == 0xE1 && b == 0x9A && c == 0x80)
    || (a == 0xE2 && b == 0x80 && (0x80 <= c <= 0x8A || c == 0xA8 || c == 0xA9 || c == 0xAF))
    || (a == 0xE2 && b == 0x81 && c == 0x9F)
    || (a == 0xE3 && b == 0x80 && c == 0x80)
    || (a == 0xEF && b == 0xBB && c == 0xBF)
  }

  function SkipSpace(h: Bytes, i: nat): (j: nat)
    requires i <= |h|
    ensures i <= j <= |h|
    decreases |h| - i
  {
    if SpaceAt(h, i) > 0 then SkipSpace(h, i + SpaceAt(h, i)) else i
  }

  predicate IsDigit(b: byte) {
    48 <= b <= 57
  }

  function DigitsEnd(h: Bytes, i: nat): (j: nat)
    requires i <= |h|
    ensures i <= j <= |h|
    ensures forall k :: i <= k < j ==> IsDigit(h[k])
    decreases |h| - i
  {
    if i < |h| && IsDigit(h[i]) then DigitsEnd(h, i + 1) else i
  }

  /** `parseInt(digits, 10)`. */
  function ParseDigits(d: Bytes): nat
    requires forall k :: 0 <= k < |d| ==> IsDigit(d[k])
  {
    if d == [] then 0
    else assert IsDigit(d[|d| - 1]); 10 * ParseDigits(d[..|d| - 1]) + (d[|d| - 1] as int - 48)
  }

  /** The number captured by the first match at or after `i`, if any. */
  function MatchFrom(h: Bytes, i: nat): Option<nat>
    decreases |h| - i
  {
    if i + |FIELD| > |h| then None
    else if FieldAt(h, i) then
      var d := SkipSpace(h, i + |FIELD|);
      var e := DigitsEnd(h, d);
      if d < e then Some(ParseDigits(h[d..e])) else MatchFrom(h, i + 1)
    else MatchFrom(h, i + 1)
  }

  function ContentLength(h: Bytes): Option<nat> {
    MatchFrom(h, 0)
  }

  // ---- what the search for the field finds ----

  /** The code points that `\s` stands for: white space, line ends and the byte order mark. */
  ghost predicate IsWhite(c: nat) {
    || c in {9, 10, 11, 12, 13, 32, 0xA0, 0x1680, 0x2028, 0x2029, 0x202F, 0x205F, 0x3000, 0xFEFF}
    || 0x2000 <= c <= 0x200A
  }

  /** The UTF-8 form of a white code point starts at `i`. */
  ghost predicate WhiteAt(h: Bytes, i: nat, c: nat) {
    && c <= LAST && IsWhite(c)
    && i + |Utf8(c)| <= |h| && forall k :: 0 <= k < |Utf8(c)| ==> h[i + k] as int == Utf8(c)[k]
  }

  /** A white character of `n` bytes starts at `i`. */
  ghost predicate WhiteChar(h: Bytes, i: nat, n: nat) {
    exists c: nat :: WhiteAt(h, i, c) && |Utf8(c)| == n
  }

  /** There is white space only from `i` up to `d`. */
  ghost predicate White(h: Bytes, i: nat, d: nat)
    decreases d - i
  {
    || i == d
    || (i < d && exists n: nat {:trigger WhiteChar(h, i, n)} ::
          0 < n && WhiteChar(h, i, n) && White(h, i + n, d))
  }

  /** The field name starts at `i`, in any case of letters. */
  ghost predicate NameAt(h: Bytes, i: nat) {
    && i + 15 <= |h|
    && forall k :: 0 <= k < 15 ==>
         h[i + k] as int == "content-length:"[k] as int || h[i + k] as int == "CONTENT-LENGTH:"[k] as int
  }

  /** The pattern matches from `i`: the name, white space up to `d`, and a run of digits from `d` to `e`
      that goes no further. */
  ghost predicate MatchAt(h: Bytes, i: nat, d: nat, e: nat) {
    && NameAt(h, i) && i + 15 <= d < e <= |h| && White(h, i + 15, d)
    && (forall k :: d <= k < e ==> 48 <= h[k] <= 57)
    && (e == |h| || !(48 <= h[e] <= 57))
  }

  lemma NameIsField(h: Bytes, i: nat)
    ensures FieldAt(h, i) <==> NameAt(h, i)
  {
    if i + 15 <= |h| {
      forall k | 0 <= k < 15
        ensures Lower(h[i + k]) == FIELD[k] <==>
                  h[i + k] as int == "content-length:"[k] as int || h[i + k] as int == "CONTENT-LENGTH:"[k] as int
      {
        LetterEitherCase(h[i + k], k);
      }
    }
  }

  lemma LetterEitherCase(b: byte, k: nat)
    requires k < 15
    ensures Lower(b) == FIELD[k] <==>
              b as int == "content-length:"[k] as int || b as int == "CONTENT-LENGTH:"[k] as int
  {
  }

  /** The whitespace test recognises exactly the code points of `\s`. */
  lemma SpaceIsWhite(h: Bytes, i: nat, n: nat)
    requires n > 0
    ensures SpaceAt(h, i) == n <==> WhiteChar(h, i, n)
  {
    if SpaceAt(h, i) == n {
      var c := WhiteCode(h, i);
    }
    if WhiteChar(h, i, n) {
      var c: nat :| WhiteAt(h, i, c) && |Utf8(c)| == n;
      WhiteBytes(h, i, c);
    }
  }

  lemma WhiteCode(h: Bytes, i: nat) returns (c: nat)
    requires SpaceAt(h, i) > 0
    ensures WhiteAt(h, i, c) && |Utf8(c)| == SpaceAt(h, i)
  {
    if SpaceAt(h, i) == 1 {
      c := h[i] as int;
    } else if SpaceAt(h, i) == 2 {
      c := 0xA0;
    } else {
      c := WideCode(h[i], h[i + 1], h[i + 2]);
    }
  }

  lemma WideCode(x: byte, y: byte, z: byte) returns (c: nat)
    requires WideSpace(x, y, z)
    ensures c <= LAST && IsWhite(c) && Utf8(c) == [x as int, y as int, z as int]
  {
    c := Payload([x as int, y as int, z as int]);
  }

  lemma WhiteBytes(h: Bytes, i: nat, c: nat)
    requires WhiteAt(h, i, c)
    ensures |Utf8(c)| == SpaceAt(h, i)
  {
    assert h[i + 0] as int == Utf8(c)[0];
    if |Utf8(c)| > 1 {
      assert h[i + 1] as int == Utf8(c)[1];
    }
    if |Utf8(c)| > 2 {
      assert h[i + 2] as int == Utf8(c)[2];
    }
  }

  /** White space ends at the first character that is none, so before a digit it is what is skipped. */
  lemma {:induction false} WhiteSkipped(h: Bytes, i: nat, d: nat)
    requires i <= |h| && White(h, i, d) && d < |h| && 48 <= h[d] <= 57
    ensures SkipSpace(h, i) == d
    decreases d - i
  {
    if i == d {
      DigitStops(h, d);
    } else {
      WhiteStep(h, i, d);
      WhiteSkipped(h, i + SpaceAt(h, i), d);
    }
  }

  lemma WhiteStep(h: Bytes, i: nat, d: nat)
    requires White(h, i, d) && i < d
    ensures SpaceAt(h, i) > 0 && White(h, i + SpaceAt(h, i), d)
  {
    var n: nat :| 0 < n && WhiteChar(h, i, n) && White(h, i + n, d);
    SpaceIsWhite(h, i, n);
  }

  lemma {:induction false} SkippedIsWhite(h: Bytes, i: nat)
    requires i <= |h|
    ensures White(h, i, SkipSpace(h, i))
    decreases |h| - i
  {
    var n := SpaceAt(h, i);
    if n > 0 {
      SpaceIsWhite(h, i, n);
      SkippedIsWhite(h, i + n);
    }
  }

  lemma {:induction false} DigitsRun(h: Bytes, d: nat, e: nat)
    requires d <= e <= |h| && (forall k :: d <= k < e ==> 48 <= h[k] <= 57) && (e == |h| || !(48 <= h[e] <= 57))
    ensures DigitsEnd(h, d) == e
    decreases e - d
  {
    if d < e {
      DigitsRun(h, d + 1, e);
    }
  }

  lemma {:induction false} DigitsStop(h: Bytes, d: nat)
    requires d <= |h|
    ensures var e := DigitsEnd(h, d); e == |h| || !(48 <= h[e] <= 57)
    decreases |h| - d
  {
    if d < |h| && IsDigit(h[d]) {
      DigitsStop(h, d + 1);
    }
  }

  /** At one position there is at most one match: the one that the program takes. */
  lemma MatchHere(h: Bytes, i: nat)
    requires i + 15 <= |h|
    ensures var d := SkipSpace(h, i + 15);
            var e := DigitsEnd(h, d);
            && (FieldAt(h, i) && d < e ==> MatchAt(h, i, d, e))
            && forall x, y :: MatchAt(h, i, x, y) ==> FieldAt(h, i) && x == d && y == e && d < e
  {
    var d := SkipSpace(h, i + 15);
    NameIsField(h, i);
    SkippedIsWhite(h, i + 15);
    DigitsStop(h, d);
    forall x, y | MatchAt(h, i, x, y)
      ensures x == d && y == DigitsEnd(h, d)
    {
      WhiteSkipped(h, i + 15, x);
      DigitsRun(h, x, y);
    }
  }

  ghost predicate NoMatch(h: Bytes, i: nat) {
    forall d: nat, e: nat :: !MatchAt(h, i, d, e)
  }

  /** `r` is the number of the first match at or after `i`. */
  ghost predicate FirstMatch(h: Bytes, i: nat, r: Option<nat>) {
    if r.None? then forall j: nat {:trigger NoMatch(h, j)} :: i <= j ==> NoMatch(h, j)
    else exists j: nat {:trigger MatchFound(h, i, j, r.value)} :: MatchFound(h, i, j, r.value)
  }

  /** The first match at or after `i` is at `j`, and its number is `n`. */
  ghost predicate MatchFound(h: Bytes, i: nat, j: nat, n: nat) {
    && i <= j
    && (exists d: nat, e: nat :: MatchAt(h, j, d, e) && n == ParseDigits(h[d..e]))
    && forall k: nat {:trigger NoMatch(h, k)} :: i <= k < j ==> NoMatch(h, k)
  }

  lemma {:induction false} MatchIsFirst(h: Bytes, i: nat)
    ensures FirstMatch(h, i, MatchFrom(h, i))
    decreases |h| - i
  {
    if i + 15 <= |h| {
      MatchHere(h, i);
      var d := SkipSpace(h, i + 15);
      var e := DigitsEnd(h, d);
      if FieldAt(h, i) && d < e {
        assert MatchAt(h, i, d, e);
        assert MatchFound(h, i, i, ParseDigits(h[d..e]));
      } else {
        MatchIsFirst(h, i + 1);
        FirstFurther(h, i, MatchFrom(h, i + 1));
      }
    } else {
      TooShort(h, i);
    }
  }

  lemma TooShort(h: Bytes, i: nat)
    requires i + 15 > |h|
    ensures forall j: nat {:trigger NoMatch(h, j)} :: i <= j ==> NoMatch(h, j)
  {
  }

  lemma FirstFurther(h: Bytes, i: nat, r: Option<nat>)
    requires FirstMatch(h, i + 1, r) && NoMatch(h, i)
    ensures FirstMatch(h, i, r)
  {
    if r.Some? {
      var j: nat :| MatchFound(h, i + 1, j, r.value);
      assert MatchFound(h, i, j, r.value);
    }
  }

  /** The length of a header block is that of the first match of the pattern, wherever it is; there is
      none if and only if there is no match. */
  lemma LengthExactly(h: Bytes)
    ensures FirstMatch(h, 0, ContentLength(h))
    ensures ContentLength(h).None? <==> forall i: nat, d: nat, e: nat :: !MatchAt(h, i, d, e)
  {
    MatchIsFirst(h, 0);
    if ContentLength(h).None? {
      forall i: nat, d: nat, e: nat
        ensures !MatchAt(h, i, d, e)
      {
        assert NoMatch(h, i);
      }
    } else {
      var j: nat :| MatchFound(h, 0, j, ContentLength(h).value);
    }
  }

  function Pow10(k: nat): nat {
    if k == 0 then 1 else 10 * Pow10(k - 1)
  }

  /** Digits are read by place: the last one counts once, any other part ten times as much for each
      digit after it. */
  lemma {:induction false} DigitsByPlace(a: Bytes, b: Bytes)
    requires (forall k :: 0 <= k < |a| ==> 48 <= a[k] <= 57) && forall k :: 0 <= k < |b| ==> 48 <= b[k] <= 57
    ensures (forall k :: 0 <= k < |a + b| ==> IsDigit((a + b)[k]))
    ensures ParseDigits(a + b) == ParseDigits(a) * Pow10(|b|) + ParseDigits(b)
    ensures |b| == 1 ==> ParseDigits(b) == b[0] as int - 48
    decreases |b|
  {
    if b == [] {
      assert a + b == a;
    } else {
      var n := |b| - 1;
      assert (a + b)[..|a + b| - 1] == a + b[..n];
      DigitsByPlace(a, b[..n]);
      PlaceUp(ParseDigits(a), Pow10(n), ParseDigits(b[..n]));
    }
  }

  lemma PlaceUp(a: nat, p: nat, b: nat)
    ensures 10 * (a * p + b) == a * (10 * p) + 10 * b
  {
  }

  // ---- the reader ----

  /** What one turn of the loop does with the buffer: wait for more bytes, drop a malformed header
      block, or deliver a body. */
  datatype Turn = Wait | Drop(rest: Bytes) | Deliver(body: Bytes, rest: Bytes)

  function NextTurn(buf: Bytes): (t: Turn)
    ensures !t.Wait? ==> |t.rest| + 4 <= |buf|
  {
    match HeaderEnd(buf)
    case None => Wait
    case Some(headerEnd) =>
      match ContentLength(buf[..headerEnd])
      case None => Drop(buf[headerEnd + 4..])
      case Some(contentLen) =>
        var bodyStart := headerEnd + 4;
        if |buf| < bodyStart + contentLen then Wait
        else Deliver(buf[bodyStart..bodyStart + contentLen], buf[bodyStart + contentLen..])
  }

  /** The bodies delivered from a buffer, and the buffer left behind. */
  datatype Parsed = Parsed(bodies: seq<Bytes>, rest: Bytes)

  function Parse(buf: Bytes): Parsed
    decreases |buf|
  {
    match NextTurn(buf)
    case Wait => Parsed([], buf)
    case Drop(rest) => Parse(rest)
    case Deliver(body, rest) =>
      var p := Parse(rest);
      Parsed([body] + p.bodies, p.rest)
  }

  /** A first occurrence stays the first occurrence when more bytes arrive. */
  lemma {:induction false} IndexExtends(buf: Bytes, more: Bytes, pat: Bytes, i: nat)
    requires pat != [] && IndexFrom(buf, pat, i).Some?
    ensures IndexFrom(buf + more, pat, i) == IndexFrom(buf, pat, i)
    decreases |buf| - i
  {
    assert (buf + more)[i..i + |pat|] == buf[i..i + |pat|];
    if !OccursAt(buf, pat, i) {
      IndexExtends(buf, more, pat, i + 1);
    }
  }

  /** A turn that does not wait goes the same way when more bytes have arrived. */
  lemma TurnExtends(buf: Bytes, more: Bytes)
    requires !NextTurn(buf).Wait?
    ensures var t := NextTurn(buf);
            NextTurn(buf + more) == if t.Drop? then Drop(t.rest + more) else Deliver(t.body, t.rest + more)
  {
    IndexExtends(buf, more, CRLFCRLF, 0);
    var headerEnd := HeaderEnd(buf).value;
    assert (buf + more)[..headerEnd] == buf[..headerEnd];
    assert (buf + more)[headerEnd + 4..] == buf[headerEnd + 4..] + more;
    if NextTurn(buf).Deliver? {
      var contentLen := ContentLength(buf[..headerEnd]).value;
      var bodyEnd := headerEnd + 4 + contentLen;
      assert (buf + more)[headerEnd + 4..bodyEnd] == buf[headerEnd + 4..bodyEnd];
      assert (buf + more)[bodyEnd..] == buf[bodyEnd..] + more;
    }
  }

  /** Reading what has arrived first and the rest later is reading everything at once. */
  lemma {:induction false} ParseChunks(buf: Bytes, more: Bytes)
    ensures Parse(buf + more) ==
            var p := Parse(buf);
            var q := Parse(p.rest + more);
            Parsed(p.bodies + q.bodies, q.rest)
    decreases |buf|
  {
    match NextTurn(buf) {
      case Wait =>
        assert [] + Parse(buf + more).bodies == Parse(buf + more).bodies;
      case Drop(rest) =>
        TurnExtends(buf, more);
        ParseChunks(rest, more);
      case Deliver(body, rest) =>
        TurnExtends(buf, more);
        ParseChunks(rest, more);
        var p := Parse(rest);
        var q := Parse(p.rest + more);
        assert [body] + (p.bodies + q.bodies) == ([body] + p.bodies) + q.bodies;
    }
  }

  /** What is left in the buffer waits for more bytes. */
  lemma {:induction false} ParseSettles(buf: Bytes)
    ensures NextTurn(Parse(buf).rest).Wait?
    decreases |buf|
  {
    match NextTurn(buf) {
      case Wait =>
      case Drop(rest) => ParseSettles(rest);
      case Deliver(_, rest) => ParseSettles(rest);
    }
  }

  // ---- streams of header blocks and bodies ----

  /** One block of a stream: a header and the content that follows it. */
  datatype Block = Block(header: Bytes, content: Bytes) {

    /** The header ends at its blank line; it announces the content's length, or has no length
        field and no content. */
    predicate Valid() {
      && HeaderEnd(header + CRLFCRLF) == Some(|header|)
      && match ContentLength(header)
         case Some(n) => n == |content|
         case None => content == []
    }

    function Encode(): Bytes {
      header + CRLFCRLF + content
    }

    /** The content, if the header announces its length. */
    function Announced(): seq<Bytes> {
      if ContentLength(header).Some? then [content] else []
    }
  }

  function Concat(parts: seq<Bytes>): Bytes {
    if parts == [] then [] else parts[0] + Concat(parts[1..])
  }

  function Encode(blocks: seq<Block>): Bytes {
    if blocks == [] then [] else blocks[0].Encode() + Encode(blocks[1..])
  }

  /** The contents of the blocks that announce a length. */
  function Contents(blocks: seq<Block>): seq<Bytes> {
    if blocks == [] then []
    else blocks[0].Announced() + Contents(blocks[1..])
  }

  lemma BlockTurn(b: Block, more: Bytes)
    requires b.Valid()
    ensures NextTurn(b.Encode() + more) ==
            if ContentLength(b.header).Some? then Deliver(b.content, more) else Drop(more)
  {
    var buf := b.Encode() + more;
    var h := |b.header|;
    assert buf == (b.header + CRLFCRLF) + (b.content + more);
    IndexExtends(b.header + CRLFCRLF, b.content + more, CRLFCRLF, 0);
    assert buf[..h] == b.header;
    assert buf[h + 4..] == b.content + more;
    assert buf[h + 4..h + 4 + |b.content|] == b.content;
    assert buf[h + 4 + |b.content|..] == more;
  }

  /** The reader recovers a stream of blocks: it delivers the announced contents in order, drops the
      header blocks without a length, and goes on with what follows. */
  lemma {:induction false} ParseBlocks(blocks: seq<Block>, more: Bytes)
    requires forall b :: b in blocks ==> b.Valid()
    ensures Parse(Encode(blocks) + more) == Parsed(Contents(blocks) + Parse(more).bodies, Parse(more).rest)
  {
    if blocks == [] {
      assert Encode(blocks) + more == more;
      assert [] + Parse(more).bodies == Parse(more).bodies;
    } else {
      var b, later := blocks[0], Encode(blocks[1..]) + more;
      Assoc(b.Encode(), Encode(blocks[1..]), more);
      BlockParsed(b, later);
      assert forall c :: c in blocks[1..] ==> c in blocks;
      ParseBlocks(blocks[1..], more);
      Assoc(b.Announced(), Contents(blocks[1..]), Parse(more).bodies);
    }
  }

  /** A block at the front adds its content, if announced, to what is parsed after it. */
  lemma BlockParsed(b: Block, later: Bytes)
    requires b.Valid()
    ensures Parse(b.Encode() + later) == Parsed(b.Announced() + Parse(later).bodies, Parse(later).rest)
  {
    BlockTurn(b, later);
    TurnParsed(b.Encode() + later);
    assert [] + Parse(later).bodies == Parse(later).bodies;
  }

  /** What is parsed after the first turn. */
  lemma TurnParsed(buf: Bytes)
    ensures var t := NextTurn(buf);
            Parse(buf) == if t.Wait? then Parsed([], buf)
                          else if t.Drop? then Parse(t.rest)
                          else Parsed([t.body] + Parse(t.rest).bodies, Parse(t.rest).rest)
  {
  }

  // ---- the writer ----

  /** A number in decimal. */
  function Digits(n: nat): (d: Bytes)
    ensures d != [] && forall k :: 0 <= k < |d| ==> IsDigit(d[k])
  {
    if n < 10 then [(48 + n) as byte] else Digits(n / 10) + [(48 + n % 10) as byte]
  }

  lemma {:induction false} DigitsRoundTrip(n: nat)
    ensures ParseDigits(Digits(n)) == n
  {
    if n >= 10 {
      DigitsRoundTrip(n / 10);
      assert Digits(n)[..|Digits(n)| - 1] == Digits(n / 10);
    }
  }

  /** The frame written for a message whose JSON text is `json`, in UTF-8. */
  function Frame(json: Bytes): Bytes {
    PREFIX + Digits(|json|) + CRLFCRLF + json
  }

  /** The bytes of an ASCII text. */
  function Ascii(text: string): (r: Bytes)
    requires forall i :: 0 <= i < |text| ==> text[i] as int < 128
    ensures |r| == |text|
  {
    seq(|text|, i requires 0 <= i < |text| => text[i] as int as byte)
  }

  /** What is written: the length field, a blank line, and the message. */
  lemma FrameBytes(json: Bytes)
    ensures Frame(json) == Ascii("Content-Length: ") + Digits(|json|) + Ascii("\r\n\r\n") + json
  {
    PrefixText();
    BlankLineText();
  }

  lemma PrefixText()
    ensures Ascii("Content-Length: ") == PREFIX
  {
    var text := Ascii("Content-Length: ");
    forall k | 0 <= k < 16
      ensures text[k] == PREFIX[k]
    {
      PrefixAt(k);
    }
    SameBytes(text, PREFIX);
  }

  lemma BlankLineText()
    ensures Ascii("\r\n\r\n") == CRLFCRLF
  {
    SameBytes(Ascii("\r\n\r\n"), CRLFCRLF);
  }

  lemma PrefixAt(k: nat)
    requires k < 16
    ensures PREFIX[k] as int == "Content-Length: "[k] as int
  {
  }

  lemma SameBytes(a: Bytes, b: Bytes)
    requires |a| == |b| && forall k :: 0 <= k < |a| ==> a[k] == b[k]
    ensures a == b
  {
  }

  /** The decimal form has no leading zero. */
  lemma {:induction false} DigitsLead(n: nat)
    ensures n < 10 ==> |Digits(n)| == 1
    ensures n > 0 ==> Digits(n)[0] != 48
  {
    if n >= 10 {
      DigitsLead(n / 10);
      assert Digits(n)[0] == Digits(n / 10)[0];
    }
  }

  function Frames(messages: seq<Bytes>): seq<Block> {
    seq(|messages|, i requires 0 <= i < |messages| => Block(PREFIX + Digits(|messages[i]|), messages[i]))
  }

  lemma {:induction false} DigitsToEnd(h: Bytes, i: nat)
    requires i <= |h| && forall k :: i <= k < |h| ==> IsDigit(h[k])
    ensures DigitsEnd(h, i) == |h|
    decreases |h| - i
  {
    if i < |h| {
      DigitsToEnd(h, i + 1);
    }
  }

  /** The header that is written announces the length that it was written for. */
  lemma WrittenLength(n: nat)
    ensures ContentLength(PREFIX + Digits(n)) == Some(n)
  {
    WrittenAfter([], n);
    assert [] + (PREFIX + Digits(n)) == PREFIX + Digits(n);
  }

  /** Wherever it stands, a written header matches. */
  lemma WrittenAfter(lines: Bytes, n: nat)
    ensures MatchFrom(lines + (PREFIX + Digits(n)), |lines|) == Some(n)
  {
    var d, m := Digits(n), |lines|;
    var h := lines + (PREFIX + d);
    WrittenField(lines, d);
    WrittenParts(lines, d);
    OneSpace(h, m + 15);
    DigitsToEnd(h, m + 16);
    MatchTaken(h, m, m + 16, |h|);
    DigitsRoundTrip(n);
  }

  lemma WrittenParts(lines: Bytes, d: Bytes)
    requires d != [] && forall k :: 0 <= k < |d| ==> IsDigit(d[k])
    ensures var h, m := lines + (PREFIX + d), |lines|;
            && |h| == m + 16 + |d| && h[m + 15] == 32 && h[m + 16..|h|] == d
            && forall k :: m + 16 <= k < |h| ==> IsDigit(h[k])
  {
    var h, m := lines + (PREFIX + d), |lines|;
    assert |PREFIX| == 16 && PREFIX[15] == 32;
    assert h[m + 15] == (PREFIX + d)[15];
    assert forall k :: m + 16 <= k < |h| ==> h[k] == d[k - m - 16];
  }

  lemma MatchTaken(h: Bytes, i: nat, d: nat, e: nat)
    requires FieldAt(h, i) && SkipSpace(h, i + 15) == d && DigitsEnd(h, d) == e && d < e
    ensures MatchFrom(h, i) == Some(ParseDigits(h[d..e]))
  {
  }

  lemma MatchPassed(h: Bytes, i: nat)
    requires FieldAt(h, i) ==> DigitsEnd(h, SkipSpace(h, i + 15)) == SkipSpace(h, i + 15)
    ensures MatchFrom(h, i) == MatchFrom(h, i + 1)
  {
  }

  lemma WrittenField(lines: Bytes, rest: Bytes)
    ensures FieldAt(lines + (PREFIX + rest), |lines|)
  {
    var h := lines + (PREFIX + rest);
    forall k | 0 <= k < 15
      ensures Lower(h[|lines| + k]) == FIELD[k]
    {
      PrefixIsField(k);
      assert h[|lines| + k] == PREFIX[k];
    }
  }

  lemma PrefixIsField(k: nat)
    requires k < 15
    ensures Lower(PREFIX[k]) == FIELD[k]
  {
  }

  lemma OneSpace(h: Bytes, i: nat)
    requires i + 1 < |h| && h[i] == 32 && 48 <= h[i + 1] <= 57
    ensures SkipSpace(h, i) == i + 1
  {
    DigitStops(h, i + 1);
  }

  lemma DigitStops(h: Bytes, d: nat)
    requires d < |h| && 48 <= h[d] <= 57
    ensures SkipSpace(h, d) == d
  {
  }

  /** Header lines without a match, put in front of a written header, leave its length as it is. */
  lemma LinesBefore(lines: Bytes, n: nat)
    requires ContentLength(lines).None?
    ensures ContentLength(lines + (PREFIX + Digits(n))) == Some(n)
  {
    NoMatchBefore(lines, PREFIX + Digits(n), 0);
    WrittenAfter(lines, n);
  }

  /** A message with further header lines before its length is delivered, if they have no match and the
      first blank line is the one after the length. */
  lemma ExtraLines(lines: Bytes, json: Bytes, more: Bytes)
    requires ContentLength(lines).None?
    requires var head := lines + (PREFIX + Digits(|json|));
             forall i: nat :: OccursAt(head + CRLFCRLF, CRLFCRLF, i) ==> i >= |head|
    ensures NextTurn((lines + Frame(json)) + more) == Deliver(json, more)
  {
    var head := lines + (PREFIX + Digits(|json|));
    LinesBefore(lines, |json|);
    FirstBlankLine(head);
    BlockTurn(Block(head, json), more);
    FrameAfter(lines, json);
  }

  lemma FirstBlankLine(head: Bytes)
    requires forall i: nat :: OccursAt(head + CRLFCRLF, CRLFCRLF, i) ==> i >= |head|
    ensures HeaderEnd(head + CRLFCRLF) == Some(|head|)
  {
    IndexIsFirst(head + CRLFCRLF, CRLFCRLF, 0);
    EndsWith(head, CRLFCRLF);
  }

  lemma FrameAfter(lines: Bytes, json: Bytes)
    ensures lines + Frame(json) == Block(lines + (PREFIX + Digits(|json|)), json).Encode()
  {
    var field := PREFIX + Digits(|json|);
    Assoc(lines, field + CRLFCRLF, json);
    Assoc(lines, field, CRLFCRLF);
  }

  lemma EndsWith(head: Bytes, pat: Bytes)
    ensures OccursAt(head + pat, pat, |head|)
  {
  }

  /** Nothing is found before a header that begins with a capital C. */
  lemma {:induction false} NoMatchBefore(lines: Bytes, p: Bytes, i: nat)
    requires i <= |lines| && MatchFrom(lines, i).None? && p != [] && p[0] == 67
    ensures MatchFrom(lines + p, i) == MatchFrom(lines + p, |lines|)
    decreases |lines| - i
  {
    if i < |lines| {
      var h := lines + p;
      assert MatchFrom(lines, i + 1).None?;
      NoMatchBefore(lines, p, i + 1);
      if i + 15 <= |lines| {
        SameField(lines, p, i);
        SameSkip(lines, p, i + 15);
        if FieldAt(lines, i) {
          NoDigit(lines, p, SkipSpace(lines, i + 15));
        }
      } else {
        assert h[|lines|] == 67;
        FieldBegins(h, i, |lines| - i);
      }
      MatchPassed(h, i);
    }
  }

  lemma NoDigit(lines: Bytes, p: Bytes, d: nat)
    requires d <= |lines| && DigitsEnd(lines, d) == d && p != [] && p[0] == 67
    ensures DigitsEnd(lines + p, d) == d
  {
    assert (lines + p)[d] == if d < |lines| then lines[d] else p[0];
  }

  /** The field name has its first letter nowhere else. */
  lemma FieldBegins(h: Bytes, i: nat, k: nat)
    requires 0 < k < 15 && i + k < |h| && h[i + k] == 67
    ensures !FieldAt(h, i)
  {
    assert Lower(h[i + k]) == 99 && FIELD[k] != 99;
  }

  lemma SameField(lines: Bytes, p: Bytes, i: nat)
    requires i + 15 <= |lines|
    ensures FieldAt(lines + p, i) <==> FieldAt(lines, i)
  {
    assert forall k :: i <= k < i + 15 ==> (lines + p)[k] == lines[k];
  }

  lemma {:induction false} SameSkip(lines: Bytes, p: Bytes, i: nat)
    requires i <= |lines| && p != [] && p[0] == 67
    ensures SkipSpace(lines + p, i) == SkipSpace(lines, i)
    decreases |lines| - i
  {
    SameSpace(lines, p, i);
    if SpaceAt(lines, i) > 0 {
      SameSkip(lines, p, i + SpaceAt(lines, i));
    }
  }

  lemma SameSpace(lines: Bytes, p: Bytes, i: nat)
    requires i <= |lines| && p != [] && p[0] == 67
    ensures SpaceAt(lines + p, i) == SpaceAt(lines, i)
  {
    var h := lines + p;
    assert h[|lines|] == 67;
    assert forall k :: 0 <= k < |lines| ==> h[k] == lines[k];
  }

  /** A header without a carriage return ends at the blank line after it. */
  lemma {:induction false} HeaderEndAfter(h: Bytes, i: nat)
    requires 13 !in h && i <= |h|
    ensures IndexFrom(h + CRLFCRLF, CRLFCRLF, i) == Some(|h|)
    decreases |h| - i
  {
    var buf := h + CRLFCRLF;
    if i < |h| {
      assert buf[i..i + 4][0] == h[i];
      HeaderEndAfter(h, i + 1);
    } else {
      assert buf[i..i + 4] == CRLFCRLF;
    }
  }

  lemma NoReturn(n: nat)
    ensures 13 !in PREFIX + Digits(n)
  {
    var h := PREFIX + Digits(n);
    forall k | 0 <= k < |h|
      ensures h[k] != 13
    {
      if k >= |PREFIX| {
        assert h[k] == Digits(n)[k - |PREFIX|];
      }
    }
  }

  lemma FrameValid(json: Bytes)
    ensures Block(PREFIX + Digits(|json|), json).Valid()
  {
    var header := PREFIX + Digits(|json|);
    WrittenLength(|json|);
    NoReturn(|json|);
    HeaderValid(header, json);
  }

  lemma HeaderValid(header: Bytes, content: Bytes)
    requires 13 !in header && ContentLength(header) == Some(|content|)
    ensures Block(header, content).Valid()
  {
    HeaderEndAfter(header, 0);
  }

  /** Written frames are valid blocks; they encode to what is written, and announce the messages. */
  lemma {:induction false} FramesAreBlocks(messages: seq<Bytes>)
    ensures forall b :: b in Frames(messages) ==> b.Valid()
    ensures Encode(Frames(messages)) == Concat(Written(messages))
    ensures Contents(Frames(messages)) == messages
  {
    FramesValid(messages);
    if messages != [] {
      FrameAnnounced(messages[0]);
      FramesAreBlocks(messages[1..]);
      FramesTail(messages);
      WrittenTail(messages);
      assert messages == [messages[0]] + messages[1..];
    }
  }

  lemma FramesValid(messages: seq<Bytes>)
    ensures forall b :: b in Frames(messages) ==> b.Valid()
  {
    forall b | b in Frames(messages)
      ensures b.Valid()
    {
      var i :| 0 <= i < |messages| && Frames(messages)[i] == b;
      FrameValid(messages[i]);
    }
  }

  lemma FrameAnnounced(json: Bytes)
    ensures var b := Block(PREFIX + Digits(|json|), json); b.Encode() == Frame(json) && b.Announced() == [json]
  {
    WrittenLength(|json|);
  }

  lemma FramesTail(messages: seq<Bytes>)
    requires messages != []
    ensures Frames(messages)[1..] == Frames(messages[1..])
  {
  }

  /** The frames written for some messages. */
  function Written(messages: seq<Bytes>): (r: seq<Bytes>)
    ensures |r| == |messages|
  {
    seq(|messages|, i requires 0 <= i < |messages| => Frame(messages[i]))
  }

  lemma WrittenTail(messages: seq<Bytes>)
    requires messages != []
    ensures Written(messages)[0] == Frame(messages[0]) && Written(messages)[1..] == Written(messages[1..])
  {
  }

  // ---- runs ----

  /** The whole run of a reader fed `chunks` one after the other, starting with `buf`. */
  function Feed(buf: Bytes, chunks: seq<Bytes>): Parsed
    decreases chunks
  {
    if chunks == [] then Parsed([], buf)
    else
      var p := Parse(buf + chunks[0]);
      var q := Feed(p.rest, chunks[1..]);
      Parsed(p.bodies + q.bodies, q.rest)
  }

  /** How the stream is cut into chunks makes no difference. */
  lemma {:induction false} FeedIsParse(buf: Bytes, chunks: seq<Bytes>)
    requires NextTurn(buf).Wait?
    ensures Feed(buf, chunks) == Parse(buf + Concat(chunks))
    decreases chunks
  {
    if chunks == [] {
      assert buf + Concat(chunks) == buf;
    } else {
      var rest := Concat(chunks[1..]);
      var p := Parse(buf + chunks[0]);
      ParseSettles(buf + chunks[0]);
      FeedIsParse(p.rest, chunks[1..]);
      Assoc(buf, chunks[0], rest);
      ParseChunks(buf + chunks[0], rest);
    }
  }

  /** Messages written as frames and cut anywhere arrive complete and in order, leaving nothing. */
  lemma Conversation(messages: seq<Bytes>, chunks: seq<Bytes>)
    requires Concat(chunks) == Concat(Written(messages))
    ensures Feed([], chunks) == Parsed(messages, [])
  {
    FramesAreBlocks(messages);
    ParseBlocks(Frames(messages), []);
    FeedIsParse([], chunks);
    assert [] + Concat(chunks) == Concat(chunks);
    assert Concat(chunks) + [] == Concat(chunks);
    assert messages + [] == messages;
  }

  /** What has been delivered, with what the buffer still holds, is what has been received. */
  ghost predicate Accounts(received: Bytes, delivered: seq<Bytes>, buf: Bytes) {
    Parse(received) == Parsed(delivered + Parse(buf).bodies, Parse(buf).rest)
  }

  lemma AccountsReceive(received: Bytes, delivered: seq<Bytes>, buf: Bytes, chunk: Bytes)
    requires Parse(received) == Parsed(delivered, buf)
    ensures Accounts(received + chunk, delivered, buf + chunk)
  {
    ParseChunks(received, chunk);
  }

  lemma AccountsTurn(received: Bytes, delivered: seq<Bytes>, buf: Bytes)
    requires Accounts(received, delivered, buf)
    ensures NextTurn(buf).Wait? ==> Parse(received) == Parsed(delivered, buf)
    ensures NextTurn(buf).Drop? ==> Accounts(received, delivered, NextTurn(buf).rest)
    ensures NextTurn(buf).Deliver? ==> Accounts(received, delivered + [NextTurn(buf).body], NextTurn(buf).rest)
  {
    TurnParsed(buf);
    match NextTurn(buf) {
      case Wait => assert delivered + [] == delivered;
      case Drop(_) =>
      case Deliver(body, rest) =>
        assert delivered + ([body] + Parse(rest).bodies) == (delivered + [body]) + Parse(rest).bodies;
    }
  }

  // ---- the client ----

  /** The reading and writing halves of the client.  `delivered` is what has been handed to the
      message handler; `sent` is what has been written to the server's input. */
  class LspClient {
    var messageBuffer: Bytes
    var delivered: seq<Bytes>
    var stdinWritable: bool
    var sent: Bytes
    ghost var received: Bytes

    /** At every moment the delivered bodies and the buffer are those of all bytes received. */
    ghost predicate Valid()
      reads this
    {
      Parse(received) == Parsed(delivered, messageBuffer)
    }

    constructor (stdinWritable: bool)
      ensures Valid() && received == [] && delivered == [] && sent == [] && messageBuffer == []
      ensures this.stdinWritable == stdinWritable
    {
      messageBuffer, delivered, sent, received := [], [], [], [];
      this.stdinWritable := stdinWritable;
    }

    method WriteMessage(json: Bytes)
      modifies this`sent
      ensures sent == old(sent) + (if stdinWritable then Frame(json) else [])
    {
      if !stdinWritable {
        return;
      }
      var header := PREFIX + Digits(|json|) + CRLFCRLF;
      sent := sent + (header + json);
    }

    method HandleStdout(chunk: Bytes)
      requires Valid()
      modifies this`messageBuffer, this`delivered, this`received
      ensures Valid() && received == old(received) + chunk
      ensures old(delivered) <= delivered
      ensures NextTurn(messageBuffer).Wait?
    {
      AccountsReceive(received, delivered, messageBuffer, chunk);
      received := received + chunk;
      messageBuffer := messageBuffer + chunk;
      while true
        invariant old(delivered) <= delivered && received == old(received) + chunk
        invariant Accounts(received, delivered, messageBuffer)
        decreases |messageBuffer|
      {
        AccountsTurn(received, delivered, messageBuffer);
        var turn := TakeTurn();
        if turn.Wait? {
          break;
        }
        if turn.Deliver? {
          delivered := delivered + [turn.body];
        }
      }
    }

    /** One turn of the loop over the buffer. */
    method TakeTurn() returns (turn: Turn)
      modifies this`messageBuffer
      ensures turn == NextTurn(old(messageBuffer))
      ensures messageBuffer == if turn.Wait? then old(messageBuffer) else turn.rest
    {
      var headerEnd := IndexFrom(messageBuffer, CRLFCRLF, 0);
      if headerEnd.None? {
        return Wait;
      }
      var contentLen := ContentLength(messageBuffer[..headerEnd.value]);
      if contentLen.None? {
        messageBuffer := messageBuffer[headerEnd.value + 4..];
        return Drop(messageBuffer);
      }
      var bodyStart := headerEnd.value + 4;
      if |messageBuffer| < bodyStart + contentLen.value {
        return Wait;
      }
      var body := messageBuffer[bodyStart..bodyStart + contentLen.value];
      messageBuffer := messageBuffer[bodyStart + contentLen.value..];
      return Deliver(body, messageBuffer);
    }
  }
}
