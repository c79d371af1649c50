/** The `!` that negates a regular expression in place is put into the generated text behind the
    first "FILTER" (libnepomukcore/query/negationterm.cpp:34-39): when it hits the filter, and what
    it hits otherwise. */
module NegatedText {
  import opened Terms
  import opened Denotation
  import opened Texts
  import opened Sparql
  import opened Compiler

  const FILTER := "FILTER"

  // ----- searching and inserting -----

  predicate FilterAt(s: string, i: int) {
    0 <= i && i + 6 <= |s| && s[i..i + 6] == FILTER
  }

  predicate HasFilter(s: string) {
    exists i | 0 <= i < |s| :: FilterAt(s, i)
  }

  /** QString::indexOf, from a position on. */
  function FilterFrom(s: string, i: nat): (pos: int)
    ensures pos == -1 ==> forall j | i <= j :: !FilterAt(s, j)
    ensures pos != -1 ==> i <= pos && FilterAt(s, pos) && forall j | i <= j < pos :: !FilterAt(s, j)
    decreases |s| - i
  {
    if i + 6 > |s| then -1 else if FilterAt(s, i) then i else FilterFrom(s, i + 1)
  }

  function Blanks(n: nat): (s: string)
    ensures |s| == n
  {
    if n == 0 then "" else " " + Blanks(n - 1)
  }

  /** QString::insert; a position behind the end is reached by blanks. */
  function Insert(s: string, pos: nat, c: char): string {
    if pos <= |s| then s[..pos] + [c] + s[pos..] else s + Blanks(pos - |s|) + [c]
  }

  function Marked(text: string): string {
    Insert(text, FilterFrom(text, 0) + 7, '!')
  }

  predicate MarkTurns(text: string, into: string) {
    Marked(text) == into
  }

  // ----- the generated text -----

  function VarText(v: Var): string {
    match v
    case ResultVar => "?r"
    case Fresh(n) => "?v" + NatText(n)
    case Named(name) => "?" + name
  }

  /** Variables and resources; the patterns at hand have no literals in their triples. */
  function OperandText(o: Operand): string {
    match o
    case V(v) => VarText(v)
    case N(UriNode(u)) => "<" + u + ">"
    case N(LitNode(_)) => ""
  }

  function Line(s: string, p: string, o: string): string {
    s + " " + p + " " + o + " . "
  }

  function TripleText(s: Operand, p: Operand, o: Operand): string {
    Line(OperandText(s), OperandText(p), OperandText(o))
  }

  function RegexTestText(v: Operand, regex: string): string {
    "REGEX(STR(" + OperandText(v) + "), '" + regex + "', 'i')) . "
  }

  function FilterText(negated: bool, v: Operand, regex: string): string {
    "FILTER(" + (if negated then "!" else "") + RegexTestText(v, regex)
  }

  /** A triple pattern with a regular expression behind it. */
  predicate IsRegexpPattern(es: Pattern) {
    |es| == 2 && es[0].TriplePattern? && es[1].Filter? && |es[1].atoms| == 1 && es[1].atoms[0].test.RegexText?
  }

  function PatternText(es: Pattern): string
    requires IsRegexpPattern(es)
  {
    TripleText(es[0].s, es[0].p, es[0].o)
    + FilterText(es[1].atoms[0].negated, es[1].atoms[0].operand, es[1].atoms[0].test.text)
  }

  // ----- where the word can occur -----

  lemma NoBlankInFilter(s: string, i: nat, k: nat)
    requires FilterAt(s, i) && i <= k < i + 6
    ensures s[k] != ' '
  {
    assert s[k] == s[i..i + 6][k - i];
    assert forall j | 0 <= j < 6 :: FILTER[j] != ' ';
  }

  /** Texts with a blank between them have the word exactly if one of them has it. */
  lemma FilterInParts(a: string, b: string)
    ensures HasFilter(a + " " + b) <==> HasFilter(a) || HasFilter(b)
  {
    var s := a + " " + b;
    if i :| 0 <= i < |s| && FilterAt(s, i) {
      if i + 6 <= |a| {
        assert a[i..i + 6] == s[i..i + 6] && FilterAt(a, i);
      } else if i > |a| {
        var k := i - |a| - 1;
        assert b[k..k + 6] == s[i..i + 6] && FilterAt(b, k);
      } else {
        NoBlankInFilter(s, i, |a|);
        assert false;
      }
    }
    if i :| 0 <= i < |a| && FilterAt(a, i) { assert s[i..i + 6] == a[i..i + 6] && FilterAt(s, i); }
    if i :| 0 <= i < |b| && FilterAt(b, i) {
      var k := i + |a| + 1;
      assert s[k..k + 6] == b[i..i + 6] && FilterAt(s, k);
    }
  }

  lemma FilterInLine(a: string, b: string, c: string)
    ensures HasFilter(Line(a, b, c)) <==> HasFilter(a) || HasFilter(b) || HasFilter(c)
  {
    FilterInParts(a, b);
    FilterInParts(a + " " + b, c);
    FilterInParts(a + " " + b + " " + c, ".");
    FilterInParts(a + " " + b + " " + c + " " + ".", "");
    assert Line(a, b, c) == (a + " " + b + " " + c + " " + ".") + " " + "";
  }

  // ----- what the mark hits -----

  /** Where the word first occurs. */
  lemma FirstFilter(h: string, rest: string)
    ensures var text := h + " FILTER(" + rest;
            && FilterFrom(text, 0) + 7 <= |h| + 8 && FilterFrom(text, 0) >= 0
            && (HasFilter(h) ==> FilterFrom(text, 0) <= |h|)
            && (!HasFilter(h) ==> FilterFrom(text, 0) == |h| + 1)
  {
    var text := h + " FILTER(" + rest;
    assert text[|h| + 1..|h| + 7] == FILTER && FilterAt(text, |h| + 1);
    var pos := FilterFrom(text, 0);
    if pos <= |h| {
      if pos + 6 <= |h| {
        assert h[pos..pos + 6] == text[pos..pos + 6] && FilterAt(h, pos);
      } else {
        NoBlankInFilter(text, pos, |h|);
        assert false;
      }
    }
    if i :| 0 <= i < |h| && FilterAt(h, i) { assert text[i..i + 6] == h[i..i + 6] && FilterAt(text, i); }
  }

  /** The mark comes in front of the test exactly if the word does not occur before. */
  lemma MarkHitsExactly(h: string, rest: string)
    ensures MarkTurns(h + " FILTER(" + rest, h + " FILTER(!" + rest) <==> !HasFilter(h)
  {
    var text, wanted := h + " FILTER(" + rest, h + " FILTER(!" + rest;
    var pos := FilterFrom(text, 0);
    FirstFilter(h, rest);
    assert text[|h| + 7] == '(' && wanted[|h| + 8] == '!';
    if HasFilter(h) {
      assert Marked(text)[|h| + 8] == text[|h| + 7];
    } else {
      assert text[..|h| + 8] == h + " FILTER(" && text[|h| + 8..] == rest;
    }
  }

  /** The word occurs in a URI or in a name given by the user. */
  predicate Misleads(o: Operand) {
    match o
    case V(Named(name)) => HasFilter(name)
    case N(UriNode(u)) => HasFilter(u)
    case _ => false
  }

  lemma FilterBehind(c: char, s: string)
    requires c != 'F'
    ensures HasFilter([c] + s) <==> HasFilter(s)
  {
    var t := [c] + s;
    if i :| 0 <= i < |t| && FilterAt(t, i) {
      assert t[i] == t[i..i + 6][0] == 'F';
      assert s[i - 1..i + 5] == t[i..i + 6] && FilterAt(s, i - 1);
    }
    if i :| 0 <= i < |s| && FilterAt(s, i) { assert t[i + 1..i + 7] == s[i..i + 6] && FilterAt(t, i + 1); }
  }

  lemma FilterBefore(s: string, c: char)
    requires c != 'R'
    ensures HasFilter(s + [c]) <==> HasFilter(s)
  {
    var t := s + [c];
    if i :| 0 <= i < |t| && FilterAt(t, i) {
      assert t[i + 5] == t[i..i + 6][5] == 'R';
      assert s[i..i + 6] == t[i..i + 6] && FilterAt(s, i);
    }
    if i :| 0 <= i < |s| && FilterAt(s, i) { assert t[i..i + 6] == s[i..i + 6] && FilterAt(t, i); }
  }

  lemma {:induction false} NumbersAreDigits(n: nat)
    ensures forall c | c in NatText(n) :: c != 'F'
    decreases n
  {
    assert forall d: nat | d < 10 :: Digit(d) != 'F';
    if n >= 10 { NumbersAreDigits(n / 10); }
  }

  lemma FilterHasF(s: string)
    ensures HasFilter(s) ==> 'F' in s
  {
    if i :| 0 <= i < |s| && FilterAt(s, i) { assert s[i] == s[i..i + 6][0]; }
  }

  lemma OperandHasFilter(o: Operand)
    ensures HasFilter(OperandText(o)) <==> Misleads(o)
  {
    match o
    case V(ResultVar) =>
    case V(Named(name)) => FilterBehind('?', name);
    case V(Fresh(n)) =>
      NumbersAreDigits(n);
      FilterHasF(OperandText(o));
    case N(UriNode(u)) => UriHasFilter(u);
    case N(LitNode(_)) =>
  }

  lemma UriHasFilter(u: Uri)
    ensures HasFilter("<" + u + ">") <==> HasFilter(u)
  {
    FilterBehind('<', u + ">");
    FilterBefore(u, '>');
    assert "<" + u + ">" == ['<'] + (u + ">");
  }

  /** A regular expression comparison with an operand: marking its text gives the text of the pattern
      for its negation exactly if the word occurs neither in its property nor in a name. */
  lemma MarkNegatesExactly(s: Term, x: Var, isReal: bool, cfg: Config, cnt: nat)
    requires IsRegexp(s) && s.subTerm.Literal? && IsValid(s.subTerm)
    ensures var es := Compile(s, V(x), isReal, cfg, cnt).0;
            var negated := Compile(Negation(s), V(x), isReal, cfg, cnt).0;
            && IsRegexpPattern(es) && IsRegexpPattern(negated)
            && (MarkTurns(PatternText(es), PatternText(negated))
                <==> && !(s.property.Some? && HasFilter(s.property.value))
                     && !(s.aggregate == NoAggregateFunction && HasFilter(s.variableName))
                     && !(x.Named? && HasFilter(x.name)))
  {
    var head := RegexpShape(s, x, isReal, cfg, cnt);
    OperandHasFilter(head.s);
    OperandHasFilter(head.p);
    OperandHasFilter(head.o);
    MarkedPattern(head, LiteralText(s.subTerm.value));
  }

  /** Both patterns: the same triple pattern, and the filter without and with the mark. */
  lemma RegexpShape(s: Term, x: Var, isReal: bool, cfg: Config, cnt: nat) returns (head: Element)
    requires IsRegexp(s) && s.subTerm.Literal? && IsValid(s.subTerm)
    ensures head.TriplePattern? && head.s == V(x)
    ensures Misleads(head.p) <==> s.property.Some? && HasFilter(s.property.value)
    ensures Misleads(head.o) <==> s.aggregate == NoAggregateFunction && HasFilter(s.variableName)
    ensures Compile(s, V(x), isReal, cfg, cnt).0 == WithTest(head, false, LiteralText(s.subTerm.value))
    ensures Compile(Negation(s), V(x), isReal, cfg, cnt).0 == WithTest(head, true, LiteralText(s.subTerm.value))
  {
    var regex := LiteralText(s.subTerm.value);
    var main := MainVariable(s.variableName, s.aggregate, cnt);
    head := TriplePattern(V(x), PropertyOperand(s.property, main.1).0, V(main.0));
    var test := SingleTest(V(main.0), RegexText(regex));
    assert Compile(s, V(x), isReal, cfg, cnt).0 == [head] + [test] == WithTest(head, false, regex);
    assert ([head] + [test])[1..] == [test] && [test][1..] == [] && test.atoms[1..] == [];
    assert [Atom(true, V(main.0), RegexText(regex))] + [] == [Atom(true, V(main.0), RegexText(regex))];
    assert NegateFirstFilter([test]) == [Filter(false, [Atom(true, V(main.0), RegexText(regex))])] + [];
  }

  function WithTest(head: Element, negated: bool, regex: string): (es: Pattern)
    requires head.TriplePattern?
    ensures IsRegexpPattern(es)
  {
    [head, Filter(false, [Atom(negated, head.o, RegexText(regex))])]
  }

  lemma MarkedPattern(head: Element, regex: string)
    requires head.TriplePattern?
    ensures MarkTurns(PatternText(WithTest(head, false, regex)), PatternText(WithTest(head, true, regex)))
       <==> !HasFilter(OperandText(head.s)) && !HasFilter(OperandText(head.p)) && !HasFilter(OperandText(head.o))
  {
    var triple, rest := TripleText(head.s, head.p, head.o), RegexTestText(head.o, regex);
    var h := TripleStart(head);
    FilterInLine(OperandText(head.s), OperandText(head.p), OperandText(head.o));
    FilterInParts(h, "");
    assert h + " " + "" == triple;
    MarkHitsExactly(h, rest);
    Glued(h, rest);
  }

  /** The text of a triple pattern but for the blank at its end. */
  lemma TripleStart(head: Element) returns (h: string)
    requires head.TriplePattern?
    ensures TripleText(head.s, head.p, head.o) == h + " "
  {
    h := OperandText(head.s) + " " + OperandText(head.p) + " " + OperandText(head.o) + " .";
  }

  lemma Glued(h: string, rest: string)
    ensures (h + " ") + ("FILTER(" + "" + rest) == h + " FILTER(" + rest
    ensures (h + " ") + ("FILTER(" + "!" + rest) == h + " FILTER(!" + rest
  {
  }

  // ----- without a filter -----

  /** A URI with the mark in it. */
  function WithMark(p: Uri, k: nat): (q: Uri)
    requires k <= |p|
    ensures q != p
  {
    var q := p[..k] + "!" + p[k..];
    assert |q| == |p| + 1;
    q
  }

  /** A regular expression comparison without an operand has no filter. Behind a short variable the
      mark goes into the property, so that the text asks for another one. */
  lemma MarkMovesProperty(s: Term, x: Var, isReal: bool, cfg: Config, cnt: nat)
    requires IsRegexp(s) && !IsValid(s.subTerm) && s.property.Some? && !HasFilter(s.property.value)
    requires !HasFilter(s.variableName) && (x.Named? ==> !HasFilter(x.name))
    requires var start := Compile(s, V(x), isReal, cfg, cnt).0[0].s;
             |OperandText(start)| <= 4 <= |OperandText(start)| + |s.property.value|
    ensures var es := Compile(s, V(x), isReal, cfg, cnt).0;
            var (p, start, end) := (s.property.value, OperandText(es[0].s), OperandText(es[0].o));
            && es == [TriplePattern(es[0].s, N(UriNode(p)), es[0].o)]
            && MarkTurns(Line(start, "<" + p + ">", end), Line(start, "<" + WithMark(p, 4 - |start|) + ">", end))
  {
    var e := Compile(s, V(x), isReal, cfg, cnt).0[0];
    OperandHasFilter(e.s);
    OperandHasFilter(e.o);
    MarkedAtSix(OperandText(e.s), s.property.value, OperandText(e.o));
  }

  lemma MarkedAtSix(a: string, p: Uri, b: string)
    requires |a| <= 4 <= |a| + |p| && !HasFilter(a) && !HasFilter(p) && !HasFilter(b)
    ensures MarkTurns(Line(a, "<" + p + ">", b), Line(a, "<" + WithMark(p, 4 - |a|) + ">", b))
  {
    UriHasFilter(p);
    FilterInLine(a, "<" + p + ">", b);
    assert FilterFrom(Line(a, "<" + p + ">", b), 0) == -1;
    MarkInside(a, p, b);
  }

  lemma MarkInside(a: string, p: Uri, b: string)
    requires |a| <= 4 <= |a| + |p|
    ensures Insert(Line(a, "<" + p + ">", b), 6, '!') == Line(a, "<" + WithMark(p, 4 - |a|) + ">", b)
  {
  }
}
