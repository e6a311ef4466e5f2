/** The encodings of Unicode text: UTF-8 (section 3 of RFC 3629) and UTF-16 (section 2.1 of RFC 2781). */
module Unicode {

  const LAST: nat := 0x10FFFF

  /** The UTF-8 bytes of a code point. */
  function Utf8(c: nat): (r: seq<nat>)
    requires c <= LAST
    ensures r != [] && forall k :: 0 <= k < |r| ==> r[k] < 0x100
  {
    if c < 0x80 then [c]
    else if c < 0x800 then [0xC0 + c / 0x40, 0x80 + c % 0x40]
    else if c < 0x10000 then [0xE0 + c / 0x1000, 0x80 + c / 0x40 % 0x40, 0x80 + c % 0x40]
    else [0xF0 + c / 0x40000, 0x80 + c / 0x1000 % 0x40, 0x80 + c / 0x40 % 0x40, 0x80 + c % 0x40]
  }

  /** The code units of a code point in UTF-16. */
  function Utf16(c: nat): (r: seq<nat>)
    requires c <= LAST
    ensures r != [] && forall k :: 0 <= k < |r| ==> r[k] < 0x10000
  {
    if c < 0x10000 then [c]
    else [0xD800 + (c - 0x10000) / 0x400, 0xDC00 + (c - 0x10000) % 0x400]
  }

  function Encode8(text: string): seq<nat> {
    if text == "" then [] else Encode8(text[..|text| - 1]) + Utf8(text[|text| - 1] as int)
  }

  function Encode16(text: string): seq<nat> {
    if text == "" then [] else Encode16(text[..|text| - 1]) + Utf16(text[|text| - 1] as int)
  }

  /** The number that the payload bits of one to four bytes spell. */
  function Payload(b: seq<int>): int
    requires 1 <= |b| <= 4
  {
    if |b| == 1 then b[0]
    else if |b| == 2 then (b[0] - 0xC0) * 0x40 + (b[1] - 0x80)
    else if |b| == 3 then (b[0] - 0xE0) * 0x1000 + (b[1] - 0x80) * 0x40 + (b[2] - 0x80)
    else (b[0] - 0xF0) * 0x40000 + (b[1] - 0x80) * 0x1000 + (b[2] - 0x80) * 0x40 + (b[3] - 0x80)
  }

  /** The bytes spell the code point. */
  lemma Utf8Decodes(c: nat)
    requires c <= LAST
    ensures |Utf8(c)| <= 4 && Payload(Utf8(c)) == c
  {
    SixBits(c);
    SixBits(c / 0x40);
    SixBits(c / 0x1000);
  }

  lemma SixBits(c: nat)
    ensures c == c / 0x40 * 0x40 + c % 0x40
    ensures c / 0x40 / 0x40 == c / 0x1000 && c / 0x1000 / 0x40 == c / 0x40000
  {
  }

  /** The code units spell the code point. */
  lemma Utf16Decodes(c: nat)
    requires c <= LAST
    ensures var u := Utf16(c);
            if |u| == 1 then u[0] == c else |u| == 2 && (u[0] - 0xD800) * 0x400 + (u[1] - 0xDC00) + 0x10000 == c
  {
  }
}
