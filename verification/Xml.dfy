/** The XML a QXmlStreamWriter is told to write and a QXmlStreamReader reports, element names and
    attribute names as values. */
module Xml {
  datatype Tag =
    | LiteralTag | ResourceTag | AndTag | OrTag | ComparisonTag | TypeTag | NotTag | OptionalTag
    | QueryTag | FileQueryTag | RequestPropertyTag | FolderTag | OtherTag(name: string)

  datatype Attr =
    | Lang | Datatype | UriAttr | Property | ComparatorAttr | VarName | Aggregate | SortWeight | SortOrderAttr | Inverted
    | Limit | Offset | FullTextScoring | FullTextScoringOrder | Flags | OptionalAttr | Url | Include | Recursive
    | QueryFilesAttr | QueryFoldersAttr

  type Attrs = map<Attr, string>

  datatype Token = StartDocument | StartElement(tag: Tag, attrs: Attrs) | Characters(text: string) | EndElement

  /** The rest of a document; the reader stands on its first token. */
  datatype Tokens = Nil | Cons(head: Token, tail: Tokens)

  function Len(tokens: Tokens): nat {
    if tokens.Nil? then 0 else 1 + Len(tokens.tail)
  }

  /** A written piece, followed by the rest of the document. */
  function Onto(written: seq<Token>, rest: Tokens): Tokens {
    if written == [] then rest else Cons(written[0], Onto(written[1..], rest))
  }

  lemma {:induction false} OntoBoth(a: seq<Token>, b: seq<Token>, rest: Tokens)
    ensures Onto(a + b, rest) == Onto(a, Onto(b, rest))
    decreases |a|
  {
    if a == [] {
      assert a + b == b;
    } else {
      assert (a + b)[1..] == a[1..] + b;
      OntoBoth(a[1..], b, rest);
    }
  }

  function Value(attrs: Attrs, a: Attr): string {
    if a in attrs then attrs[a] else ""
  }

  predicate IsStart(tokens: Tokens) {
    tokens.Cons? && tokens.head.StartElement?
  }

  /** readNextStartElement: forward to the next start tag, or to the end tag of the element it is in. */
  function NextStart(tokens: Tokens): (r: (bool, Tokens))
    ensures Len(r.1) <= Len(tokens)
    ensures r.0 ==> IsStart(r.1) && Len(r.1) < Len(tokens)
  {
    if tokens.Nil? || tokens.tail.Nil? then (false, Nil)
    else if tokens.tail.head.StartElement? then (true, tokens.tail)
    else if tokens.tail.head.EndElement? then (false, tokens.tail)
    else NextStart(tokens.tail)
  }

  /** readElementText: the text up to the end tag; a child element is an error, which ends all reading. */
  function ElementText(tokens: Tokens): (r: (string, Tokens))
    ensures Len(r.1) <= Len(tokens)
  {
    if tokens.Nil? || tokens.tail.Nil? || tokens.tail.head.StartElement? then ("", Nil)
    else if tokens.tail.head.EndElement? then ("", tokens.tail)
    else
      var (rest, end) := ElementText(tokens.tail);
      ((if tokens.tail.head.Characters? then tokens.tail.head.text else "") + rest, end)
  }

  class XmlWriter {
    var tokens: seq<Token>

    /** writeStartDocument */
    constructor ()
      ensures tokens == [StartDocument]
    {
      tokens := [StartDocument];
    }

    method WriteStart(tag: Tag, attrs: Attrs)
      modifies this
      ensures tokens == old(tokens) + [StartElement(tag, attrs)]
    {
      tokens := tokens + [StartElement(tag, attrs)];
    }

    method WriteCharacters(text: string)
      modifies this
      ensures tokens == old(tokens) + if text == "" then [] else [Characters(text)]
    {
      if text != "" { tokens := tokens + [Characters(text)]; }
    }

    method WriteEnd()
      modifies this
      ensures tokens == old(tokens) + [EndElement]
    {
      tokens := tokens + [EndElement];
    }
  }

  class XmlReader {
    var rest: Tokens

    constructor (document: seq<Token>)
      ensures rest == Onto(document, Nil)
    {
      rest := Onto(document, Nil);
    }

    method ReadNextStartElement() returns (found: bool)
      modifies this
      ensures (found, rest) == NextStart(old(rest))
    {
      while rest.Cons? && rest.tail.Cons?
        invariant NextStart(rest) == NextStart(old(rest))
        decreases rest
      {
        rest := rest.tail;
        if rest.head.StartElement? { return true; }
        if rest.head.EndElement? { return false; }
      }
      rest := Nil;
      found := false;
    }

    method ReadElementText() returns (text: string)
      modifies this
      ensures (text, rest) == ElementText(old(rest))
    {
      text := "";
      ghost var whole := ElementText(rest);
      assert "" + whole.0 == whole.0;
      while rest.Cons? && rest.tail.Cons? && !rest.tail.head.StartElement? && !rest.tail.head.EndElement?
        invariant whole == (text + ElementText(rest).0, ElementText(rest).1)
        decreases rest
      {
        var part := if rest.tail.head.Characters? then rest.tail.head.text else "";
        TextStep(rest, text, part);
        text := text + part;
        rest := rest.tail;
      }
      assert text + "" == text;
      rest := if rest.Cons? && rest.tail.Cons? && rest.tail.head.EndElement? then rest.tail else Nil;
    }
  }

  lemma TextStep(tokens: Tokens, text: string, part: string)
    requires tokens.Cons? && tokens.tail.Cons? && !tokens.tail.head.StartElement? && !tokens.tail.head.EndElement?
    requires part == if tokens.tail.head.Characters? then tokens.tail.head.text else ""
    ensures text + ElementText(tokens).0 == (text + part) + ElementText(tokens.tail).0
    ensures ElementText(tokens).1 == ElementText(tokens.tail).1
  {
  }
}
