/** The search text of a literal: how createContainsPattern (literalterm.cpp) cuts it into tokens,
    and what it means for a value to match the text. */
module FullText {

  predicate IsQuote(c: char) {
    c == '"' || c == '\''
  }

  /** QChar::isSpace */
  predicate IsSpace(c: char) {
    var u := c as int;
    9 <= u <= 13 || u == 0x20 || u == 0xA0 || u == 0x1680 || u == 0x180E || 0x2000 <= u <= 0x200A ||
    u == 0x2028 || u == 0x2029 || u == 0x202F || u == 0x205F || u == 0x3000
  }

  function LowerChar(c: char): char {
    if 'A' <= c <= 'Z' then (c as int + 32) as char else c
  }

  function Lower(s: string): string {
    seq(|s|, i requires 0 <= i < |s| => LowerChar(s[i]))
  }

  // ----- cutting the text into raw tokens -----

  /** What the scanner does with one character: the unfinished token after it, and whether it ends. */
  function Grown(c: char, inQuotes: bool, token: string): string {
    if IsQuote(c) || (IsSpace(c) && !inQuotes) then token else token + [c]
  }

  function Toggled(c: char, inQuotes: bool): bool {
    if IsQuote(c) then !inQuotes else inQuotes
  }

  predicate Ends(c: char, inQuotes: bool, isLast: bool) {
    (IsQuote(c) && inQuotes) || (!IsQuote(c) && IsSpace(c) && !inQuotes) || isLast
  }

  /** The raw tokens of `text` from a position with the scanner's quote flag and unfinished token.
      A token ends at a closing quote, at a space outside quotes, and at the end of the text. */
  function Lex(text: string, inQuotes: bool, token: string): seq<string> {
    if text == "" then []
    else
      var grown := Grown(text[0], inQuotes, token);
      if Ends(text[0], inQuotes, |text| == 1) && grown != ""
      then [grown] + Lex(text[1..], Toggled(text[0], inQuotes), "")
      else Lex(text[1..], Toggled(text[0], inQuotes), grown)
  }

  /** The characters that reach a token. */
  function Kept(text: string, inQuotes: bool): string {
    if text == "" then "" else Grown(text[0], inQuotes, "") + Kept(text[1..], Toggled(text[0], inQuotes))
  }

  function Concat(tokens: seq<string>): string {
    if tokens == [] then "" else tokens[0] + Concat(tokens[1..])
  }

  /** No character is lost, moved or invented: the tokens spell the text without its quotes and
      without the spaces outside quotes. */
  lemma {:induction false} TokensSpellText(text: string, inQuotes: bool, token: string)
    requires text != ""
    ensures Concat(Lex(text, inQuotes, token)) == token + Kept(text, inQuotes)
  {
    var c, tail := text[0], text[1..];
    var grown, quotes := Grown(c, inQuotes, token), Toggled(c, inQuotes);
    var isCut := Ends(c, inQuotes, |text| == 1) && grown != "";
    var rest := Lex(tail, quotes, if isCut then "" else grown);
    assert grown + Kept(tail, quotes) == token + Kept(text, inQuotes) by {
      assert grown == token + Grown(c, inQuotes, "");
    }
    if tail != "" {
      TokensSpellText(tail, quotes, if isCut then "" else grown);
    }
    if isCut {
      assert ([grown] + rest)[1..] == rest;
    }
  }

  // ----- reading the raw tokens -----

  datatype Token = Token(text: string, negated: bool)

  /** The scanner's memory between raw tokens. */
  datatype Reading = Reading(contains: seq<Token>, regex: seq<Token>, isUnion: bool, nextIsNegated: bool)

  const START := Reading([], [], false, false)

  /** Virtuoso needs four characters in front of a wildcard; `offset` counts within a sub-token. */
  predicate NeedsRegex(token: string, offset: nat) {
    if token == "" then false
    else if token[0] == ' ' then NeedsRegex(token[1..], 0)
    else if (token[0] == '?' || token[0] == '*') && offset < 4 then true
    else NeedsRegex(token[1..], offset + 1)
  }

  function Read(r: Reading, token: string): Reading {
    var word := Lower(token);
    var next :=
      if word == "and" then r.(isUnion := false)
      else if word == "or" then r.(isUnion := true)
      else if word == "not" then r.(nextIsNegated := true)
      else if NeedsRegex(token, 0) then r.(regex := r.regex + [Token(token, r.nextIsNegated)])
      else r.(contains := r.contains + [Token(token, r.nextIsNegated)]);
    next.(nextIsNegated := false)
  }

  function ReadAll(r: Reading, tokens: seq<string>): Reading
    decreases |tokens|
  {
    if tokens == [] then r else ReadAll(Read(r, tokens[0]), tokens[1..])
  }

  function ReadText(text: string): Reading {
    ReadAll(START, Lex(text, false, ""))
  }

  // ----- what the text asks of a value -----

  predicate SomeHolds(tokens: seq<Token>, matches: string -> bool) {
    exists t | t in tokens :: matches(t.text) != t.negated
  }

  predicate AllHold(tokens: seq<Token>, matches: string -> bool) {
    forall t | t in tokens :: matches(t.text) != t.negated
  }

  /** `contains` and `regex` say which tokens the value matches in the full text search and as regular
      expressions. A text without tokens asks for nothing. */
  predicate Accepts(r: Reading, contains: string -> bool, regex: string -> bool) {
    if r.contains == [] && r.regex == [] then true
    else if r.isUnion then SomeHolds(r.contains, contains) || SomeHolds(r.regex, regex)
    else AllHold(r.contains, contains) && AllHold(r.regex, regex)
  }

  predicate Positive(tokens: seq<Token>) {
    forall t | t in tokens :: !t.negated
  }

  /** The flag that "not" raises is lowered again at the end of the very same token
      (literalterm.cpp:168), so no token is ever negated. */
  lemma {:induction false} NothingIsNegated(r: Reading, tokens: seq<string>)
    requires Positive(r.contains) && Positive(r.regex) && !r.nextIsNegated
    ensures var all := ReadAll(r, tokens);
            Positive(all.contains) && Positive(all.regex) && !all.nextIsNegated
    decreases |tokens|
  {
    if tokens != [] {
      NothingIsNegated(Read(r, tokens[0]), tokens[1..]);
    }
  }

  /** The reading that the "not" keyword is there for: the flag survives until the next token. */
  function ReadHonouringNot(r: Reading, token: string): Reading {
    if Lower(token) == "not" then r.(nextIsNegated := true) else Read(r, token)
  }

  function ReadAllHonouringNot(r: Reading, tokens: seq<string>): Reading
    decreases |tokens|
  {
    if tokens == [] then r else ReadAllHonouringNot(ReadHonouringNot(r, tokens[0]), tokens[1..])
  }

  /** Two readings that hold the same token texts in the same places. */
  predicate SameTexts(a: seq<Token>, b: seq<Token>) {
    |a| == |b| && forall i | 0 <= i < |a| :: a[i].text == b[i].text
  }

  lemma {:induction false} ReadingsAgree(r: Reading, s: Reading, tokens: seq<string>)
    requires SameTexts(r.contains, s.contains) && SameTexts(r.regex, s.regex) && r.isUnion == s.isUnion
    ensures var a := ReadAll(r, tokens);
            var b := ReadAllHonouringNot(s, tokens);
            SameTexts(a.contains, b.contains) && SameTexts(a.regex, b.regex) && a.isUnion == b.isUnion
    decreases |tokens|
  {
    if tokens != [] {
      ReadingsAgree(Read(r, tokens[0]), ReadHonouringNot(s, tokens[0]), tokens[1..]);
    }
  }

  /** The scanner gives a text its intended meaning for every value exactly when the text negates
      no token; otherwise some value is wrongly accepted or wrongly rejected. */
  lemma NegationIsLost(text: string)
    ensures var intended := ReadAllHonouringNot(START, Lex(text, false, ""));
            (forall c: string -> bool, x: string -> bool :: Accepts(ReadText(text), c, x) <==> Accepts(intended, c, x))
            <==> Positive(intended.contains) && Positive(intended.regex)
  {
    var tokens := Lex(text, false, "");
    var got := ReadText(text);
    var intended := ReadAllHonouringNot(START, tokens);
    ReadingsAgree(START, START, tokens);
    NothingIsNegated(START, tokens);
    if Positive(intended.contains) && Positive(intended.regex) {
      assert got.contains == intended.contains && got.regex == intended.regex;
    } else {
      NegatedTokenTells(got, intended);
    }
  }

  lemma NegatedTokenTells(got: Reading, intended: Reading)
    requires SameTexts(got.contains, intended.contains) && SameTexts(got.regex, intended.regex)
    requires got.isUnion == intended.isUnion && Positive(got.contains) && Positive(got.regex)
    requires !Positive(intended.contains) || !Positive(intended.regex)
    ensures exists c: string -> bool, x: string -> bool :: Accepts(got, c, x) != Accepts(intended, c, x)
  {
    var m: string -> bool := if got.isUnion then _ => false else _ => true;
    var k: nat;
    if !Positive(intended.contains) {
      k :| k < |intended.contains| && intended.contains[k].negated;
      assert intended.contains[k] in intended.contains && got.contains[k] in got.contains;
    } else {
      k :| k < |intended.regex| && intended.regex[k].negated;
      assert intended.regex[k] in intended.regex && got.regex[k] in got.regex;
    }
    assert Accepts(got, m, m) != Accepts(intended, m, m);
  }
}
