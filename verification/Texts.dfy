/** Numbers, truth values and lists of names as texts, and back. */
module Texts {
  function BoolText(b: bool): string {
    if b then "true" else "false"
  }

  function Digit(d: nat): char
    requires d < 10
  {
    "0123456789"[d]
  }

  function DigitValue(c: char): (d: int)
    ensures -1 <= d < 10
  {
    if '0' <= c <= '9' then c as int - '0' as int else -1
  }

  function NatText(n: nat): (s: string)
    ensures s != ""
  {
    if n < 10 then [Digit(n)] else NatText(n / 10) + [Digit(n % 10)]
  }

  /** QString::number */
  function IntText(n: int): string {
    if n < 0 then "-" + NatText(-n) else NatText(n)
  }

  /** The value of a text of digits, -1 if it is something else. */
  function NatValue(s: string): (n: int)
    ensures n >= -1
  {
    if s == "" then -1
    else
      var d := DigitValue(s[|s| - 1]);
      if |s| == 1 then d
      else
        var rest := NatValue(s[..|s| - 1]);
        if d < 0 || rest < 0 then -1 else 10 * rest + d
  }

  /** QString::toInt: 0 for anything that is not a number. */
  function IntValue(s: string): int {
    if s != "" && s[0] == '-' then
      var n := NatValue(s[1..]);
      if n < 0 then 0 else -n
    else
      var n := NatValue(s);
      if n < 0 then 0 else n
  }

  lemma {:induction false} NatReadsBack(n: nat)
    ensures NatValue(NatText(n)) == n && NatText(n)[0] != '-'
  {
    if n >= 10 {
      NatReadsBack(n / 10);
      var s := NatText(n);
      assert s[..|s| - 1] == NatText(n / 10);
    }
  }

  /** A number comes back from its text. */
  lemma IntReadsBack(n: int)
    ensures IntValue(IntText(n)) == n
  {
    var s := NatText(if n < 0 then -n else n);
    NatReadsBack(if n < 0 then -n else n);
    SignReadsBack(n, s, IntText(n));
  }

  lemma SignReadsBack(n: int, s: string, text: string)
    requires s != "" && s[0] != '-' && NatValue(s) == if n < 0 then -n else n
    requires text == if n < 0 then "-" + s else s
    ensures IntValue(text) == n
  {
    if n < 0 { assert text[1..] == s; }
  }

  // ----- lists joined with '|' -----

  function JoinBars(names: seq<string>): string {
    if names == [] then "" else if |names| == 1 then names[0] else names[0] + "|" + JoinBars(names[1..])
  }

  /** QString::split at '|' without the empty parts; `part` is what was read since the last one. */
  function SplitBars(s: string, part: string): seq<string>
    decreases |s|
  {
    if s == "" then (if part == "" then [] else [part])
    else if s[0] == '|' then (if part == "" then [] else [part]) + SplitBars(s[1..], "")
    else SplitBars(s[1..], part + [s[0]])
  }

  lemma {:induction false} SplitAfter(name: string, rest: string, part: string)
    requires '|' !in name && (rest == "" || rest[0] == '|')
    ensures SplitBars(name + rest, part) == SplitBars(rest, part + name)
    decreases |name|
  {
    if name == "" {
      assert name + rest == rest && part + name == part;
    } else {
      assert (name + rest)[1..] == name[1..] + rest && (name + rest)[0] == name[0];
      SplitAfter(name[1..], rest, part + [name[0]]);
      assert part + [name[0]] + name[1..] == part + name;
    }
  }

  /** Texts are split apart at every '|', and JoinSplits says that they are nowhere else. */
  lemma {:induction false} BarsSplit(a: string, b: string, part: string)
    ensures SplitBars(a + "|" + b, part) == SplitBars(a, part) + SplitBars(b, "")
    decreases |a|
  {
    if a == "" {
      assert a + "|" + b == "|" + b && ("|" + b)[1..] == b;
    } else {
      assert (a + "|" + b)[1..] == a[1..] + "|" + b;
      BarsSplit(a[1..], b, if a[0] == '|' then "" else part + [a[0]]);
    }
  }

  /** Nonempty names without '|' come back from their joined text. */
  lemma {:induction false} JoinSplits(names: seq<string>)
    requires forall n | n in names :: n != "" && '|' !in n
    ensures SplitBars(JoinBars(names), "") == names
    decreases |names|
  {
    if names != [] {
      assert names[0] in names;
      var n := names[0];
      if |names| == 1 {
        SplitAfter(n, "", "");
        assert n + "" == n && "" + n == n;
      } else {
        var rest := JoinBars(names[1..]);
        SplitAfter(n, "|" + rest, "");
        assert names[0] + "|" + rest == n + ("|" + rest) && "" + n == n && ("|" + rest)[1..] == rest;
        JoinSplits(names[1..]);
        assert [n] + names[1..] == names;
      }
    }
  }
}
