/** What the scanner of a search text (libnepomukcore/query/literalterm.cpp:107-173) makes of it, said
    without the scanner: where it cuts the text, and what it reads from the pieces. */
module SearchText {
  import opened FullText

  // ----- quotes -----

  predicate OddQuotes(text: string) {
    text != "" && IsQuote(text[0]) != OddQuotes(text[1..])
  }

  /** Behind this character a token ends: it closes a quote or is a space outside of quotes. */
  predicate Cuts(before: string, c: char) {
    if IsQuote(c) then OddQuotes(before) else IsSpace(c) && !OddQuotes(before)
  }

  /** The character is part of a token. */
  predicate IsVisible(before: string, c: char) {
    !IsQuote(c) && (IsSpace(c) ==> OddQuotes(before))
  }

  /** The characters that the tokens are made of. */
  function Visible(text: string): string {
    if text == "" then ""
    else
      var n := |text| - 1;
      Visible(text[..n]) + if IsVisible(text[..n], text[n]) then [text[n]] else ""
  }

  // ----- where the text is cut -----

  /** The flag of the scanner after `text`. */
  predicate Quoted(inQuotes: bool, text: string) {
    inQuotes != OddQuotes(text)
  }

  predicate CutsIn(inQuotes: bool, before: string, c: char) {
    if IsQuote(c) then Quoted(inQuotes, before) else IsSpace(c) && !Quoted(inQuotes, before)
  }

  lemma {:induction false} SplitsFrom(a: string, c: char, b: string, inQuotes: bool, token: string)
    requires CutsIn(inQuotes, a, c)
    ensures Lex(a + [c] + b, inQuotes, token) == Lex(a + [c], inQuotes, token) + Lex(b, false, "")
    decreases |a|
  {
    if a == "" {
      assert a + [c] + b == [c] + b && a + [c] == [c];
      assert ([c] + b)[1..] == b;
    } else {
      var grown, quotes := Grown(a[0], inQuotes, token), Toggled(a[0], inQuotes);
      assert (a + [c] + b)[1..] == a[1..] + [c] + b && (a + [c])[1..] == a[1..] + [c];
      SplitsFrom(a[1..], c, b, quotes, if Ends(a[0], inQuotes, false) && grown != "" then "" else grown);
    }
  }

  /** Behind a closing quote and behind a space outside of quotes the text is read afresh. */
  lemma LexSplits(a: string, c: char, b: string)
    requires Cuts(a, c)
    ensures Lex(a + [c] + b, false, "") == Lex(a + [c], false, "") + Lex(b, false, "")
  {
    SplitsFrom(a, c, b, false, "");
  }

  lemma {:induction false} KeepsFrom(text: string, inQuotes: bool, token: string)
    requires text != "" && forall i | 0 <= i < |text| - 1 :: !CutsIn(inQuotes, text[..i], text[i])
    ensures var all := token + Kept(text, inQuotes);
            Lex(text, inQuotes, token) == if all == "" then [] else [all]
    decreases |text|
  {
    var rest, grown, quotes := text[1..], Grown(text[0], inQuotes, token), Toggled(text[0], inQuotes);
    GrownKept(text, inQuotes, token);
    if rest == "" {
      assert Lex(rest, quotes, "") == [] && [grown] + [] == [grown];
      assert grown + "" == grown;
    } else {
      assert text[..0] == "" && !CutsIn(inQuotes, text[..0], text[0]);
      CutsInRest(text, inQuotes);
      KeepsFrom(rest, quotes, grown);
    }
  }

  lemma GrownKept(text: string, inQuotes: bool, token: string)
    requires text != ""
    ensures Grown(text[0], inQuotes, token) + Kept(text[1..], Toggled(text[0], inQuotes)) == token + Kept(text, inQuotes)
  {
    var g, k := Grown(text[0], inQuotes, ""), Kept(text[1..], Toggled(text[0], inQuotes));
    assert Grown(text[0], inQuotes, token) == token + g;
    Regrouped(token, g, k);
  }

  lemma Regrouped(a: string, b: string, c: string)
    ensures (a + b) + c == a + (b + c)
  {
  }

  lemma CutsInRest(text: string, inQuotes: bool)
    requires text != "" && forall i | 0 <= i < |text| - 1 :: !CutsIn(inQuotes, text[..i], text[i])
    ensures var rest := text[1..];
            forall i | 0 <= i < |rest| - 1 :: !CutsIn(Toggled(text[0], inQuotes), rest[..i], rest[i])
  {
    var rest := text[1..];
    forall i | 0 <= i < |rest| - 1 ensures !CutsIn(Toggled(text[0], inQuotes), rest[..i], rest[i]) {
      assert text[..i + 1][1..] == rest[..i];
      assert !CutsIn(inQuotes, text[..i + 1], text[i + 1]);
    }
  }

  lemma {:induction false} KeptSnoc(a: string, c: char, inQuotes: bool)
    ensures Kept(a + [c], inQuotes) ==
            Kept(a, inQuotes) + if IsQuote(c) || (IsSpace(c) && !Quoted(inQuotes, a)) then "" else [c]
    decreases |a|
  {
    if a == "" {
      assert a + [c] == [c];
    } else {
      assert (a + [c])[1..] == a[1..] + [c];
      KeptSnoc(a[1..], c, Toggled(a[0], inQuotes));
    }
  }

  lemma {:induction false} KeptIsVisible(text: string)
    ensures Kept(text, false) == Visible(text)
    decreases |text|
  {
    if text != "" {
      var n := |text| - 1;
      KeptIsVisible(text[..n]);
      KeptSnoc(text[..n], text[n], false);
      assert text[..n] + [text[n]] == text;
    }
  }

  lemma CutsAsIn(before: string, c: char)
    ensures CutsIn(false, before, c) == Cuts(before, c)
  {
  }

  /** Nowhere else: what lies between two cuts is one token, if anything of it can be seen. */
  lemma LexKeepsTogether(text: string)
    requires forall i | 0 <= i < |text| - 1 :: !Cuts(text[..i], text[i])
    ensures Lex(text, false, "") == if Visible(text) == "" then [] else [Visible(text)]
  {
    KeptIsVisible(text);
    if text != "" {
      forall i | 0 <= i < |text| - 1 ensures !CutsIn(false, text[..i], text[i]) { CutsAsIn(text[..i], text[i]); }
      KeepsFrom(text, false, "");
      assert "" + Visible(text) == Visible(text);
    }
  }

  lemma {:induction false} SpaceEndsFrom(a: string, c: char, inQuotes: bool, token: string)
    requires IsSpace(c) && !IsQuote(c) && !Quoted(inQuotes, a)
    ensures Lex(a + [c], inQuotes, token) ==
            if a == "" then if token == "" then [] else [token] else Lex(a, inQuotes, token)
    decreases |a|
  {
    if a == "" {
      assert a + [c] == [c];
    } else {
      var grown, quotes := Grown(a[0], inQuotes, token), Toggled(a[0], inQuotes);
      assert (a + [c])[1..] == a[1..] + [c];
      SpaceEndsFrom(a[1..], c, quotes, if Ends(a[0], inQuotes, false) && grown != "" then "" else grown);
    }
  }

  /** No token reaches across a space outside of quotes. */
  lemma WordsAreApart(a: string, c: char, b: string)
    requires IsSpace(c) && !OddQuotes(a)
    ensures Lex(a + [c] + b, false, "") == Lex(a, false, "") + Lex(b, false, "")
  {
    LexSplits(a, c, b);
    SpaceEndsFrom(a, c, false, "");
  }

  lemma {:induction false} NoQuotes(p: string, inQuotes: bool)
    requires forall c | c in p :: !IsQuote(c) && (IsSpace(c) ==> inQuotes)
    ensures !OddQuotes(p) && Kept(p, inQuotes) == p
    decreases |p|
  {
    if p != "" {
      assert p[0] in p && forall c | c in p[1..] :: c in p;
      NoQuotes(p[1..], inQuotes);
    }
  }

  /** A quoted phrase is one token, spaces included. */
  lemma PhraseIsOneToken(open: char, p: string, close: char, b: string)
    requires IsQuote(open) && IsQuote(close) && p != "" && forall c | c in p :: !IsQuote(c)
    ensures Lex([open] + p + [close] + b, false, "") == [p] + Lex(b, false, "")
  {
    NoQuotes(p, true);
    assert ([open] + p)[1..] == p;
    LexSplits([open] + p, close, b);
    PhraseAlone(open, p, close);
  }

  lemma PhraseAlone(open: char, p: string, close: char)
    requires IsQuote(open) && IsQuote(close) && p != "" && forall c | c in p :: !IsQuote(c)
    ensures Lex([open] + p + [close], false, "") == [p]
  {
    var inside := p + [close];
    assert [open] + p + [close] == [open] + inside && ([open] + inside)[1..] == inside;
    assert Lex([open] + inside, false, "") == Lex(inside, true, "");
    forall i | 0 <= i < |inside| - 1 ensures !CutsIn(true, inside[..i], inside[i]) {
      assert inside[..i] == p[..i] && inside[i] == p[i] && p[i] in p;
      NoQuotes(p[..i], true);
    }
    KeepsFrom(inside, true, "");
    NoQuotes(p, true);
    KeptSnoc(p, close, true);
    assert "" + (p + "") == p;
  }

  /** A word is one token. */
  lemma WordIsOneToken(p: string)
    requires p != "" && forall c | c in p :: !IsQuote(c) && !IsSpace(c)
    ensures Lex(p, false, "") == [p]
  {
    NoQuotes(p, false);
    forall i | 0 <= i < |p| - 1 ensures !CutsIn(false, p[..i], p[i]) { assert p[i] in p; }
    KeepsFrom(p, false, "");
    assert "" + p == p;
  }

  // ----- keywords -----

  predicate Spells(token: string, lower: string, upper: string)
    requires |lower| == |upper|
  {
    |token| == |lower| && forall i | 0 <= i < |token| :: token[i] == lower[i] || token[i] == upper[i]
  }

  predicate IsAnd(token: string) {
    Spells(token, "and", "AND")
  }

  predicate IsOr(token: string) {
    Spells(token, "or", "OR")
  }

  predicate IsKeyword(token: string) {
    IsAnd(token) || IsOr(token) || Spells(token, "not", "NOT")
  }

  lemma LowerSpells(token: string, lower: string, upper: string)
    requires |lower| == |upper|
    requires forall i | 0 <= i < |lower| :: 'a' <= lower[i] <= 'z' && lower[i] as int == upper[i] as int + 32
    ensures Lower(token) == lower <==> Spells(token, lower, upper)
  {
    var l := Lower(token);
    if l == lower {
      forall i | 0 <= i < |token| ensures token[i] == lower[i] || token[i] == upper[i] {
        assert l[i] == LowerChar(token[i]);
      }
    }
    if Spells(token, lower, upper) {
      forall i | 0 <= i < |token| ensures l[i] == lower[i] { assert l[i] == LowerChar(token[i]); }
    }
  }

  lemma KeywordsAreWords(token: string)
    ensures (Lower(token) == "and" <==> IsAnd(token)) && (Lower(token) == "or" <==> IsOr(token))
    ensures Lower(token) in {"and", "or", "not"} <==> IsKeyword(token)
  {
    LowerSpells(token, "and", "AND");
    LowerSpells(token, "or", "OR");
    LowerSpells(token, "not", "NOT");
  }

  // ----- wildcards -----

  predicate IsWildcard(c: char) {
    c == '?' || c == '*'
  }

  /** How many characters lie before position `i` in its part, if the first part began `offset`
      characters earlier. Parts are separated by spaces. */
  function Column(token: string, offset: nat, i: nat): nat
    requires i < |token|
  {
    if i == 0 then offset else if token[i - 1] == ' ' then 0 else Column(token, offset, i - 1) + 1
  }

  predicate HasEarlyWildcard(token: string, offset: nat) {
    exists i | 0 <= i < |token| :: IsWildcard(token[i]) && Column(token, offset, i) < 4
  }

  lemma {:induction false} ColumnInTail(token: string, offset: nat, i: nat)
    requires token != "" && i < |token[1..]|
    ensures Column(token[1..], if token[0] == ' ' then 0 else offset + 1, i) == Column(token, offset, i + 1)
    decreases i
  {
    if i > 0 { ColumnInTail(token, offset, i - 1); }
  }

  /** A token is searched by regular expression exactly if one of its parts has a wildcard among its
      first four characters. */
  lemma {:induction false} NeedsRegexExactly(token: string, offset: nat)
    ensures NeedsRegex(token, offset) <==> HasEarlyWildcard(token, offset)
    decreases |token|
  {
    if token != "" {
      var tail, next := token[1..], if token[0] == ' ' then 0 else offset + 1;
      NeedsRegexExactly(tail, next);
      forall i: nat | i < |tail| ensures Column(tail, next, i) == Column(token, offset, i + 1) {
        ColumnInTail(token, offset, i);
      }
      if i :| 0 <= i < |token| && IsWildcard(token[i]) && Column(token, offset, i) < 4 {
        if i > 0 { assert tail[i - 1] == token[i]; }
      }
      if i :| 0 <= i < |tail| && IsWildcard(tail[i]) && Column(tail, next, i) < 4 {
        assert token[i + 1] == tail[i];
      }
    }
  }

  // ----- reading the tokens -----

  function Texts(tokens: seq<Token>): seq<string> {
    seq(|tokens|, i requires 0 <= i < |tokens| => tokens[i].text)
  }

  /** The tokens that are no keyword, those with an early wildcard or the others. */
  function Searched(ts: seq<string>, byRegex: bool): seq<string> {
    if ts == [] then []
    else
      (if !IsKeyword(ts[0]) && HasEarlyWildcard(ts[0], 0) == byRegex then [ts[0]] else []) + Searched(ts[1..], byRegex)
  }

  /** The last "and" or "or" is an "or"; without any, `before` decides. */
  predicate LastIsOr(ts: seq<string>, before: bool) {
    || (before && forall k | 0 <= k < |ts| :: !IsAnd(ts[k]))
    || exists k | 0 <= k < |ts| :: IsOr(ts[k]) && forall j | k < j < |ts| :: !IsAnd(ts[j])
  }

  lemma {:induction false} ReadsOn(r: Reading, ts: seq<string>)
    ensures var all := ReadAll(r, ts);
            && Texts(all.contains) == Texts(r.contains) + Searched(ts, false)
            && Texts(all.regex) == Texts(r.regex) + Searched(ts, true)
            && (all.isUnion <==> LastIsOr(ts, r.isUnion))
    decreases |ts|
  {
    if ts != [] {
      var next := Read(r, ts[0]);
      ReadsOne(r, ts[0]);
      ReadsOn(next, ts[1..]);
      LastInTail(ts, r.isUnion);
    }
  }

  lemma ReadsOne(r: Reading, token: string)
    ensures var next := Read(r, token);
            && Texts(next.contains) == Texts(r.contains) + Searched([token], false)
            && Texts(next.regex) == Texts(r.regex) + Searched([token], true)
            && (next.isUnion <==> IsOr(token) || (r.isUnion && !IsAnd(token)))
  {
    KeywordsAreWords(token);
    NeedsRegexExactly(token, 0);
  }

  lemma LastInTail(ts: seq<string>, before: bool)
    requires ts != []
    ensures LastIsOr(ts, before) <==> LastIsOr(ts[1..], IsOr(ts[0]) || (before && !IsAnd(ts[0])))
  {
  }

  /** What the scanner reads from a text: the words between its keywords in their order, and a
      disjunction exactly if the last "and" or "or" is an "or". */
  lemma ReadTextIs(text: string)
    ensures var ts, r := Lex(text, false, ""), ReadText(text);
            && Texts(r.contains) == Searched(ts, false) && Texts(r.regex) == Searched(ts, true)
            && (r.isUnion <==> exists k | 0 <= k < |ts| :: IsOr(ts[k]) && forall j | k < j < |ts| :: !IsAnd(ts[j]))
  {
    ReadsOn(START, Lex(text, false, ""));
  }

  // ----- what "not" would ask for -----

  predicate IsNot(token: string) {
    Spells(token, "not", "NOT")
  }

  /** A word comes directly behind a "not". */
  predicate NegatesAWord(ts: seq<string>) {
    exists k | 0 <= k < |ts| - 1 :: IsNot(ts[k]) && !IsKeyword(ts[k + 1])
  }

  predicate AllPositive(r: Reading) {
    Positive(r.contains) && Positive(r.regex)
  }

  lemma {:induction false} NegatesFrom(r: Reading, ts: seq<string>)
    ensures AllPositive(ReadAllHonouringNot(r, ts)) <==>
            AllPositive(r) && !NegatesAWord(ts) && !(r.nextIsNegated && ts != [] && !IsKeyword(ts[0]))
    decreases |ts|
  {
    if ts != [] {
      var next := ReadHonouringNot(r, ts[0]);
      NegatesFrom(next, ts[1..]);
      NegatesOne(r, ts[0]);
      NegatesInTail(ts);
    }
  }

  lemma NegatesOne(r: Reading, token: string)
    ensures var next := ReadHonouringNot(r, token);
            && (AllPositive(next) <==> AllPositive(r) && !(r.nextIsNegated && !IsKeyword(token)))
            && next.nextIsNegated == IsNot(token)
  {
    KeywordsAreWords(token);
    LowerSpells(token, "not", "NOT");
  }

  lemma NegatesInTail(ts: seq<string>)
    requires ts != []
    ensures NegatesAWord(ts) <==> NegatesAWord(ts[1..]) || (|ts| > 1 && IsNot(ts[0]) && !IsKeyword(ts[1]))
  {
    var tail := ts[1..];
    if k :| 0 <= k < |ts| - 1 && IsNot(ts[k]) && !IsKeyword(ts[k + 1]) {
      if k > 0 { assert IsNot(tail[k - 1]) && !IsKeyword(tail[k]); }
    }
    if k :| 0 <= k < |tail| - 1 && IsNot(tail[k]) && !IsKeyword(tail[k + 1]) {
      assert IsNot(ts[k + 1]) && !IsKeyword(ts[k + 2]);
    }
  }

  /** So the scanner gives a text its intended meaning exactly if no word comes directly behind a
      "not". */
  lemma NotIsLostExactly(text: string)
    ensures var ts := Lex(text, false, "");
            (forall c: string -> bool, x: string -> bool ::
               Accepts(ReadText(text), c, x) <==> Accepts(ReadAllHonouringNot(START, ts), c, x))
            <==> !NegatesAWord(ts)
  {
    NegationIsLost(text);
    NegatesFrom(START, Lex(text, false, ""));
  }
}
