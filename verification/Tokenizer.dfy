/** `tokenize`: lower-cased runs of alphanumeric characters, and CJK characters one by one. */
module Tokenizer {

  /** The Unicode tables: what is alphanumeric, and how a character is lower-cased. */
  datatype CharTable = CharTable(alphanumeric: char -> bool, lower: char -> string)

  /** A character of one of the three CJK blocks of code points. */
  predicate IsCjk(c: char): (r: bool)
    ensures r <==> (0x4e00 <= c as int <= 0x9fff) || (0x3400 <= c as int <= 0x4dbf) || (0xf900 <= c as int <= 0xfaff)
  {
    || '\U{4e00}' <= c <= '\U{9fff}'
    || '\U{3400}' <= c <= '\U{4dbf}'
    || '\U{f900}' <= c <= '\U{faff}'
  }

  /** The token list and the word that is being collected, after one more character. */
  function Feed(u: CharTable, tokens: seq<string>, current: string, c: char): (seq<string>, string) {
    if IsCjk(c) then (Flush(tokens, current) + [[c]], "")
    else if u.alphanumeric(c) then (tokens, current + u.lower(c))
    else (Flush(tokens, current), "")
  }

  function Flush(tokens: seq<string>, current: string): seq<string> {
    if current != "" then tokens + [current] else tokens
  }

  ghost function Scan(u: CharTable, text: string, k: nat): (seq<string>, string)
    requires k <= |text|
  {
    if k == 0 then ([], "")
    else
      var (tokens, current) := Scan(u, text, k - 1);
      Feed(u, tokens, current, text[k - 1])
  }

  ghost function Tokens(u: CharTable, text: string): seq<string> {
    var (tokens, current) := Scan(u, text, |text|);
    Flush(tokens, current)
  }

  method Tokenize(u: CharTable, text: string) returns (tokens: seq<string>)
    ensures tokens == Tokens(u, text)
  {
    tokens := [];
    var current := "";
    for i := 0 to |text|
      invariant (tokens, current) == Scan(u, text, i)
    {
      var c := text[i];
      if IsCjk(c) {
        if current != "" {
          tokens := tokens + [current];
          current := "";
        }
        tokens := tokens + [[c]];
      } else if u.alphanumeric(c) {
        current := current + u.lower(c);
      } else if current != "" {
        tokens := tokens + [current];
        current := "";
      }
    }
    if current != "" {
      tokens := tokens + [current];
    }
  }

  // ---- nothing is lost ----

  function Concat(tokens: seq<string>): string {
    if tokens == [] then "" else Concat(tokens[..|tokens| - 1]) + tokens[|tokens| - 1]
  }

  /** What a text contributes to its tokens, character by character. */
  function Kept(u: CharTable, text: string): string {
    if text == "" then ""
    else
      Kept(u, text[..|text| - 1]) + Contribution(u, text[|text| - 1])
  }

  function Contribution(u: CharTable, c: char): string {
    if IsCjk(c) then [c] else if u.alphanumeric(c) then u.lower(c) else ""
  }

  lemma ConcatFlush(tokens: seq<string>, current: string)
    ensures Concat(Flush(tokens, current)) == Concat(tokens) + current
  {
    if current != "" {
      ConcatAppend(tokens, current);
    }
  }

  lemma ConcatAppend(tokens: seq<string>, t: string)
    ensures Concat(tokens + [t]) == Concat(tokens) + t
  {
    assert (tokens + [t])[..|tokens|] == tokens;
  }

  lemma Joins(a: string, b: string, c: string)
    ensures a + (b + c) == (a + b) + c
    ensures (a + b) + "" == a + b
  {
  }

  /** One more character adds what it contributes. */
  lemma FeedKeeps(u: CharTable, tokens: seq<string>, current: string, c: char)
    ensures var f := Feed(u, tokens, current, c);
            Concat(f.0) + f.1 == (Concat(tokens) + current) + Contribution(u, c)
  {
    ConcatFlush(tokens, current);
    if IsCjk(c) {
      ConcatAppend(Flush(tokens, current), [c]);
      Joins(Concat(tokens) + current, [c], "");
    } else {
      Joins(Concat(tokens), current, Contribution(u, c));
    }
  }

  lemma FeedNotEmpty(u: CharTable, tokens: seq<string>, current: string, c: char)
    requires forall i :: 0 <= i < |tokens| ==> tokens[i] != ""
    ensures var f := Feed(u, tokens, current, c);
            forall i :: 0 <= i < |f.0| ==> f.0[i] != ""
  {
  }

  lemma {:induction false} ScanKeeps(u: CharTable, text: string, k: nat)
    requires k <= |text|
    ensures Concat(Scan(u, text, k).0) + Scan(u, text, k).1 == Kept(u, text[..k])
    ensures forall i :: 0 <= i < |Scan(u, text, k).0| ==> Scan(u, text, k).0[i] != ""
  {
    if k > 0 {
      ScanKeeps(u, text, k - 1);
      assert text[..k][..k - 1] == text[..k - 1];
      var (tokens, current) := Scan(u, text, k - 1);
      FeedKeeps(u, tokens, current, text[k - 1]);
      FeedNotEmpty(u, tokens, current, text[k - 1]);
    }
  }

  /** The tokens, put together, are the kept characters of the text in order; no token is empty. */
  lemma TokensKeepText(u: CharTable, text: string)
    ensures Concat(Tokens(u, text)) == Kept(u, text)
    ensures forall t :: t in Tokens(u, text) ==> t != ""
  {
    ScanKeeps(u, text, |text|);
    var (tokens, current) := Scan(u, text, |text|);
    ConcatFlush(tokens, current);
    assert text[..|text|] == text;
  }

  /** A text with a token is not empty. */
  lemma EmptyText(u: CharTable, text: string)
    requires Tokens(u, text) != []
    ensures text != ""
  {
  }

  // ---- what the token list is ----

  /** Scanning goes on from where no word is being collected as from the beginning. */
  lemma {:induction false} ScanOn(u: CharTable, a: string, b: string, k: nat)
    requires k <= |b| && Scan(u, a, |a|).1 == ""
    ensures Scan(u, a + b, |a| + k) == (Scan(u, a, |a|).0 + Scan(u, b, k).0, Scan(u, b, k).1)
  {
    if k == 0 {
      ScanPrefix(u, a, b, |a|);
      assert Scan(u, a, |a|).0 + [] == Scan(u, a, |a|).0;
    } else {
      ScanOn(u, a, b, k - 1);
      ScanBoth(u, a + b, |a| + k - 1, b, k - 1, Scan(u, a, |a|).0);
    }
  }

  /** Two scans that differ by earlier tokens only go on alike over the same character. */
  lemma {:induction false} ScanBoth(u: CharTable, x: string, m: nat, y: string, k: nat, earlier: seq<string>)
    requires m < |x| && k < |y| && x[m] == y[k]
    requires Scan(u, x, m) == (earlier + Scan(u, y, k).0, Scan(u, y, k).1)
    ensures Scan(u, x, m + 1) == (earlier + Scan(u, y, k + 1).0, Scan(u, y, k + 1).1)
  {
    var (tokens, current) := Scan(u, y, k);
    FeedAfter(u, earlier, tokens, current, y[k]);
  }

  lemma {:induction false} ScanPrefix(u: CharTable, a: string, b: string, k: nat)
    requires k <= |a|
    ensures Scan(u, a + b, k) == Scan(u, a, k)
  {
    if k > 0 {
      ScanPrefix(u, a, b, k - 1);
    }
  }

  /** Earlier tokens stay in front. */
  lemma FeedAfter(u: CharTable, earlier: seq<string>, tokens: seq<string>, current: string, c: char)
    ensures var f := Feed(u, tokens, current, c);
            Feed(u, earlier + tokens, current, c) == (earlier + f.0, f.1)
  {
    FlushAfter(earlier, tokens, current);
    assert earlier + (Flush(tokens, current) + [[c]]) == (earlier + Flush(tokens, current)) + [[c]];
  }

  lemma FlushAfter(earlier: seq<string>, tokens: seq<string>, current: string)
    ensures Flush(earlier + tokens, current) == earlier + Flush(tokens, current)
  {
    assert (earlier + tokens) + [current] == earlier + (tokens + [current]);
  }

  /** After a character that ends a word, the rest of the text is tokenized by itself. */
  lemma TokensAfter(u: CharTable, a: string, b: string)
    requires Scan(u, a, |a|).1 == ""
    ensures Tokens(u, a + b) == Tokens(u, a) + Tokens(u, b)
  {
    ScanOn(u, a, b, |b|);
    var (tokens, current) := Scan(u, b, |b|);
    FlushAfter(Scan(u, a, |a|).0, tokens, current);
  }

  /** A character that is neither CJK nor alphanumeric separates: no token spans it, and it is in none. */
  lemma SeparatorSplits(u: CharTable, a: string, c: char, b: string)
    requires !IsCjk(c) && !u.alphanumeric(c)
    ensures Tokens(u, a + [c] + b) == Tokens(u, a) + Tokens(u, b)
  {
    ScanPrefix(u, a, [c], |a|);
    assert (a + [c])[|a|] == c;
    TokensAfter(u, a + [c], b);
  }

  /** A CJK character separates as well, and is a token of its own. */
  lemma CjkStandsAlone(u: CharTable, a: string, c: char, b: string)
    requires IsCjk(c)
    ensures Tokens(u, a + [c] + b) == Tokens(u, a) + [[c]] + Tokens(u, b)
  {
    ScanPrefix(u, a, [c], |a|);
    assert (a + [c])[|a|] == c;
    TokensAfter(u, a + [c], b);
  }

  /** The lower-case forms of all characters, one after the other. */
  ghost function Lowered(u: CharTable, text: string): string {
    if text == "" then "" else Lowered(u, text[..|text| - 1]) + u.lower(text[|text| - 1])
  }

  /** A text of alphanumeric characters is one token, its lower-case form. */
  lemma WordIsToken(u: CharTable, text: string)
    requires forall i :: 0 <= i < |text| ==> u.alphanumeric(text[i]) && !IsCjk(text[i])
    ensures Tokens(u, text) == if Lowered(u, text) == "" then [] else [Lowered(u, text)]
  {
    ScanWord(u, text, |text|);
    assert text[..|text|] == text;
  }

  lemma {:induction false} ScanWord(u: CharTable, text: string, k: nat)
    requires k <= |text| && forall i :: 0 <= i < |text| ==> u.alphanumeric(text[i]) && !IsCjk(text[i])
    ensures Scan(u, text, k) == ([], Lowered(u, text[..k]))
  {
    if k > 0 {
      ScanWord(u, text, k - 1);
      assert text[..k][..k - 1] == text[..k - 1];
    }
  }
}
