/**
 The export of sqlite_to_xml.py: sanitised tags and texts, the tree of tables, rows and cells, and
 its indentation, which must not lose data.
 */
module XmlExport {
  import opened PyText

  datatype Option<T> = None | Some(value: T)

  // ---------------------------------------------------------------- sanitising

  predicate IsTagStart(c: char) {
    'a' <= c <= 'z' || 'A' <= c <= 'Z' || c == '_'
  }

  predicate IsTagChar(c: char) {
    IsTagStart(c) || '0' <= c <= '9' || c == ':' || c == '-'
  }

  function Underscored(s: string): (r: string)
    ensures |r| == |s| && forall i :: 0 <= i < |s| ==> r[i] == if IsTagChar(s[i]) then s[i] else '_'
  {
    seq(|s|, i requires 0 <= i < |s| => if IsTagChar(s[i]) then s[i] else '_')
  }

  function SanitizeTag(tag: string): string {
    var t := Underscored(Strip(tag, IsSpace));
    var u := if t == "" then "column" else t;
    if IsTagStart(u[0]) then u else "col_" + u
  }

  predicate IsControl(c: char) {
    var n := c as int;
    n <= 8 || n == 0xB || n == 0xC || 0xE <= n <= 0x1F
  }

  function SanitizeText(s: string): string {
    if s == "" then "" else (if IsControl(s[0]) then "" else [s[0]]) + SanitizeText(s[1..])
  }

  /** NameStartChar and NameChar of section 2.3 of XML 1.0. */
  predicate IsNameStartChar(c: char) {
    var n := c as int;
    || c == ':' || 'A' <= c <= 'Z' || c == '_' || 'a' <= c <= 'z'
    || 0xC0 <= n <= 0xD6 || 0xD8 <= n <= 0xF6 || 0xF8 <= n <= 0x2FF || 0x370 <= n <= 0x37D || 0x37F <= n <= 0x1FFF
    || 0x200C <= n <= 0x200D || 0x2070 <= n <= 0x218F || 0x2C00 <= n <= 0x2FEF || 0x3001 <= n <= 0xD7FF
    || 0xF900 <= n <= 0xFDCF || 0xFDF0 <= n <= 0xFFFD || 0x10000 <= n <= 0xEFFFF
  }

  predicate IsNameChar(c: char) {
    var n := c as int;
    || IsNameStartChar(c) || c == '-' || c == '.' || '0' <= c <= '9' || n == 0xB7
    || 0x300 <= n <= 0x36F || 0x203F <= n <= 0x2040
  }

  predicate IsName(s: string) {
    s != "" && IsNameStartChar(s[0]) && forall i :: 0 <= i < |s| ==> IsNameChar(s[i])
  }

  /** Char of section 2.2 of XML 1.0. */
  predicate IsXmlChar(c: char) {
    var n := c as int;
    n == 9 || n == 0xA || n == 0xD || 0x20 <= n <= 0xD7FF || 0xE000 <= n <= 0xFFFD || 0x10000 <= n <= 0x10FFFF
  }

  lemma {:induction false} TagIsName(tag: string)
    ensures IsName(SanitizeTag(tag))
  {
    var t := Underscored(Strip(tag, IsSpace));
    assert forall i :: 0 <= i < |t| ==> IsTagChar(t[i]);
  }

  /** The characters of a tag that stay. */
  predicate Survives(c: char) {
    'a' <= c <= 'z' || 'A' <= c <= 'Z' || '0' <= c <= '9' || c == '_' || c == ':' || c == '-'
  }

  /**
   The tag without the space around it, `name`, keeps its letters, digits, underscores, colons and
   hyphens, and has underscores for all other characters; a digit, colon or hyphen in front gets a
   prefix, and an empty name is replaced.
   */
  lemma {:induction false} TagMeaning(tag: string) returns (a: string, name: string, b: string)
    ensures tag == a + name + b && All(a, IsSpace) && All(b, IsSpace) && Trimmed(name, IsSpace)
    ensures name == "" ==> SanitizeTag(tag) == "column"
    ensures name != "" ==>
              var r := SanitizeTag(tag);
              var prefix := if '0' <= name[0] <= '9' || name[0] == ':' || name[0] == '-' then "col_" else "";
              && prefix <= r && |r| == |prefix| + |name|
              && forall i :: 0 <= i < |name| ==> r[|prefix| + i] == if Survives(name[i]) then name[i] else '_'
  {
    name := Strip(tag, IsSpace);
    a, b := StripParts(tag, IsSpace);
  }

  ghost predicate CleanTag(r: string) {
    r != "" && IsTagStart(r[0]) && forall i :: 0 <= i < |r| ==> IsTagChar(r[i])
  }

  lemma {:induction false} TagIsClean(tag: string)
    ensures CleanTag(SanitizeTag(tag))
  {
    var t := Underscored(Strip(tag, IsSpace));
    assert forall i :: 0 <= i < |t| ==> IsTagChar(t[i]);
  }

  lemma {:induction false} CleanTagIsKept(r: string)
    requires CleanTag(r)
    ensures SanitizeTag(r) == r
  {
    TagCharIsNoSpace(r[0]);
    TagCharIsNoSpace(r[|r| - 1]);
    assert Strip(r, IsSpace) == r;
    assert Underscored(r) == r;
  }

  lemma TagCharIsNoSpace(c: char)
    requires IsTagChar(c)
    ensures !IsSpace(c)
  {
  }

  /** Sanitising a tag again changes nothing. */
  lemma {:induction false} TagIsStable(tag: string)
    ensures SanitizeTag(SanitizeTag(tag)) == SanitizeTag(tag)
  {
    TagIsClean(tag);
    CleanTagIsKept(SanitizeTag(tag));
  }

  /** The filter removes what XML does not allow, but for two non-characters. */
  lemma ControlIff(c: char)
    ensures IsControl(c) <==> !IsXmlChar(c) && c != '\U{FFFE}' && c != '\U{FFFF}'
  {
  }

  /** A position goes exactly if XML forbids its character, but for two; the others stay, once and in order. */
  lemma {:induction false} TextKeepsTheRest(s: string) returns (kept: seq<nat>)
    ensures forall i, j :: 0 <= i < j < |kept| ==> kept[i] < kept[j]
    ensures forall n: nat :: n in kept <==>
              n < |s| && (IsXmlChar(s[n]) || s[n] == '\U{FFFE}' || s[n] == '\U{FFFF}')
    ensures |SanitizeText(s)| == |kept|
    ensures forall i :: 0 <= i < |kept| ==> kept[i] < |s| && SanitizeText(s)[i] == s[kept[i]]
  {
    kept := [];
    if s != "" {
      var init, n := s[..|s| - 1], |s| - 1;
      kept := TextKeepsTheRest(init);
      assert s == init + [s[n]];
      TextConcat(init, [s[n]]);
      assert [s[n]][1..] == "";
      assert forall i :: 0 <= i < |kept| ==> kept[i] in kept;
      ControlIff(s[n]);
      if !IsControl(s[n]) {
        kept := kept + [n];
      }
    }
  }

  /** A text that XML allows is kept as it is. */
  lemma {:induction false} XmlTextIsKept(s: string)
    requires forall c <- s :: IsXmlChar(c)
    ensures SanitizeText(s) == s
  {
    forall c <- s ensures !IsControl(c) {
      ControlIff(c);
    }
    CleanTextIsKept(s);
  }

  /** Sanitising works character by character. */
  lemma {:induction false} TextConcat(a: string, b: string)
    ensures SanitizeText(a + b) == SanitizeText(a) + SanitizeText(b)
  {
    if a == "" {
      assert a + b == b;
    } else {
      assert (a + b)[1..] == a[1..] + b;
      TextConcat(a[1..], b);
    }
  }

  lemma {:induction false} KeptCharacters(s: string)
    ensures forall c :: c in SanitizeText(s) <==> c in s && !IsControl(c)
  {
    if s != "" {
      KeptCharacters(s[1..]);
      assert s == [s[0]] + s[1..];
    }
  }

  lemma {:induction false} CleanTextIsKept(s: string)
    requires forall c <- s :: !IsControl(c)
    ensures SanitizeText(s) == s
  {
    if s != "" {
      CleanTextIsKept(s[1..]);
      assert s == [s[0]] + s[1..];
    }
  }

  /**
   The sanitised text holds only characters that XML allows exactly if the text has neither of the
   two non-characters that the filter overlooks.
   */
  lemma {:induction false} TextIsXmlIff(s: string)
    ensures (forall c <- SanitizeText(s) :: IsXmlChar(c)) <==> '\U{FFFE}' !in s && '\U{FFFF}' !in s
  {
    KeptCharacters(s);
    assert forall c: char :: !IsControl(c) && !IsXmlChar(c) <==> c == '\U{FFFE}' || c == '\U{FFFF}';
    assert !IsXmlChar('\U{FFFE}') && !IsXmlChar('\U{FFFF}') && !IsControl('\U{FFFE}') && !IsControl('\U{FFFF}');
  }

  lemma {:induction false} TextIsStable(s: string)
    ensures SanitizeText(SanitizeText(s)) == SanitizeText(s)
  {
    KeptCharacters(s);
    CleanTextIsKept(SanitizeText(s));
  }

  // ---------------------------------------------------------------- trees and indentation

  datatype Element = Element(
    tag: string, attributes: map<string, string>, text: Option<string>, tail: Option<string>, children: seq<Element>)

  /** `not s or not s.strip()`. */
  predicate Blank(s: Option<string>) {
    s.None? || Strip(s.value, IsSpace) == ""
  }

  function Indentation(level: nat): string {
    "\n" + Spaces(2 * level)
  }

  function Filled(s: Option<string>, filler: string): Option<string> {
    if Blank(s) then Some(filler) else s
  }

  /** indent_xml: what it makes of an element at a given level. */
  function Indent(e: Element, level: nat): Element {
    if e.children == [] then
      if level > 0 then e.(tail := Filled(e.tail, Indentation(level))) else e
    else
      var kids := IndentAll(e.children, level + 1);
      var last := kids[|kids| - 1];
      e.(text := Filled(e.text, Indentation(level) + "  "),
         children := kids[|kids| - 1 := last.(tail := Filled(last.tail, Indentation(level)))])
  }

  function IndentAll(es: seq<Element>, level: nat): (r: seq<Element>)
    ensures |r| == |es|
  {
    if es == [] then [] else IndentAll(es[..|es| - 1], level) + [Indent(es[|es| - 1], level)]
  }

  lemma {:induction false} IndentAllAt(es: seq<Element>, level: nat, i: nat)
    requires i < |es|
    ensures IndentAll(es, level)[i] == Indent(es[i], level)
  {
    if i < |es| - 1 {
      IndentAllAt(es[..|es| - 1], level, i);
    }
  }

  lemma {:induction false} IndentationIsBlank(level: nat)
    ensures Blank(Some(Indentation(level))) && Blank(Some(Indentation(level) + "  "))
    ensures Indentation(level) + "  " == Indentation(level + 1)
  {
    StripOf(Indentation(level), "", "", IsSpace);
    StripOf(Indentation(level) + "  ", "", "", IsSpace);
    assert Indentation(level) + "" + "" == Indentation(level);
    assert (Indentation(level) + "  ") + "" + "" == Indentation(level) + "  ";
    assert Spaces(2 * level) + "  " == Spaces(2 * (level + 1));
  }

  /** No text, or nothing but space. */
  lemma {:induction false} BlankIff(s: Option<string>)
    ensures Blank(s) <==> s.None? || forall i :: 0 <= i < |s.value| ==> IsSpace(s.value[i])
  {
    if s.Some? {
      var a, b := StripParts(s.value, IsSpace);
      var core := Strip(s.value, IsSpace);
      if core == "" {
        assert forall i :: 0 <= i < |s.value| ==> s.value[i] == (a + b)[i];
      } else {
        assert s.value[|a|] == core[0];
      }
    }
  }

  /** The tail of the child `c`, at position `i` of `n` children of an element at `level`. */
  ghost function TailAt(c: Element, i: nat, n: nat, level: nat): Option<string> {
    if !Blank(c.tail) then c.tail
    else if i == n - 1 then Some("\n" + Spaces(2 * level))
    else if c.children == [] then Some("\n" + Spaces(2 * (level + 1)))
    else c.tail
  }

  /**
   The layout of an element with children: its blank text starts a line one level deeper; so does the
   blank tail of a leaf, but the last child's blank tail starts a line at the element's own level.
   A blank tail of another child with children stays as it is.
   */
  lemma {:induction false} IndentLayout(e: Element, level: nat)
    requires e.children != []
    ensures var r := Indent(e, level);
            && r.tag == e.tag && r.attributes == e.attributes && r.tail == e.tail && |r.children| == |e.children|
            && r.text == (if Blank(e.text) then Some("\n" + Spaces(2 * (level + 1))) else e.text)
            && forall i :: 0 <= i < |e.children| ==>
                 r.children[i] ==
                 Indent(e.children[i], level + 1).(tail := TailAt(e.children[i], i, |e.children|, level))
  {
    IndentationIsBlank(level);
    IndentOfInner(e, level);
    forall i | 0 <= i < |e.children|
      ensures LastFilled(IndentAll(e.children, level + 1), Indentation(level))[i] ==
              Indent(e.children[i], level + 1).(tail := TailAt(e.children[i], i, |e.children|, level))
    {
      IndentAllAt(e.children, level + 1, i);
      ChildLayout(e.children[i], i, |e.children|, level);
    }
  }

  lemma {:induction false} ChildLayout(c: Element, i: nat, n: nat, level: nat)
    requires i < n
    ensures var d := Indent(c, level + 1);
            (if i == n - 1 then d.(tail := Filled(d.tail, Indentation(level))) else d) ==
            d.(tail := TailAt(c, i, n, level))
  {
    TailOfIndent(c, level + 1);
    IndentationIsBlank(level + 1);
  }

  /** An element on its own: only the blank tail of a leaf below the root changes. */
  lemma {:induction false} TailOfIndent(e: Element, level: nat)
    ensures Indent(e, level).tail ==
            if e.children == [] && level > 0 && Blank(e.tail) then Some("\n" + Spaces(2 * level)) else e.tail
    ensures e.children == [] ==> Indent(e, level) == e.(tail := Indent(e, level).tail)
  {
  }

  /** What an element says: tags, attributes, structure, the text of leaves, and all other text that is not blank. */
  ghost function Content(e: Element): Element {
    Element(e.tag, e.attributes, if e.children == [] then e.text else NonBlank(e.text), NonBlank(e.tail),
            ContentAll(e.children))
  }

  ghost function NonBlank(s: Option<string>): Option<string> {
    if Blank(s) then None else s
  }

  ghost function ContentAll(es: seq<Element>): (r: seq<Element>)
    ensures |r| == |es|
  {
    if es == [] then [] else ContentAll(es[..|es| - 1]) + [Content(es[|es| - 1])]
  }

  lemma {:induction false} ContentOfTail(e: Element, indent: string)
    requires Blank(Some(indent))
    ensures Content(e.(tail := Filled(e.tail, indent))) == Content(e)
  {
  }

  lemma {:induction false} ContentOfLast(es: seq<Element>, last: Element)
    requires es != [] && Content(last) == Content(es[|es| - 1])
    ensures ContentAll(es[|es| - 1 := last]) == ContentAll(es)
  {
    assert es[|es| - 1 := last][..|es| - 1] == es[..|es| - 1];
  }

  /** Indenting loses nothing that an element says. */
  lemma {:induction false} IndentKeepsContent(e: Element, level: nat)
    ensures Content(Indent(e, level)) == Content(e)
    decreases e, 1
  {
    IndentationIsBlank(level);
    if e.children == [] {
      ContentOfTail(e, Indentation(level));
    } else {
      IndentAllKeepsContent(e, e.children, level + 1);
      var kids := IndentAll(e.children, level + 1);
      var last := kids[|kids| - 1];
      ContentOfTail(last, Indentation(level));
      ContentOfLast(kids, last.(tail := Filled(last.tail, Indentation(level))));
    }
  }

  lemma {:induction false} IndentAllKeepsContent(parent: Element, es: seq<Element>, level: nat)
    requires forall i :: 0 <= i < |es| ==> es[i] < parent
    ensures ContentAll(IndentAll(es, level)) == ContentAll(es)
    decreases parent, 0, |es|
  {
    if es != [] {
      IndentAllKeepsContent(parent, es[..|es| - 1], level);
      IndentKeepsContent(es[|es| - 1], level);
      var r := IndentAll(es, level);
      assert r[..|r| - 1] == IndentAll(es[..|es| - 1], level);
    }
  }

  ghost function LastFilled(es: seq<Element>, indent: string): (r: seq<Element>)
    requires es != []
    ensures |r| == |es|
  {
    var last := es[|es| - 1];
    es[|es| - 1 := last.(tail := Filled(last.tail, indent))]
  }

  /** Indenting an indented element changes nothing. */
  lemma {:induction false} IndentIsIdempotent(e: Element, level: nat)
    ensures Indent(Indent(e, level), level) == Indent(e, level)
    decreases e, 1
  {
    if e.children == [] {
      IndentationIsBlank(level);
    } else {
      var kids := IndentAll(e.children, level + 1);
      forall i | 0 <= i < |kids| ensures Indent(kids[i], level + 1) == kids[i] {
        IndentAllAt(e.children, level + 1, i);
        IndentIsIdempotent(e.children[i], level + 1);
      }
      KidsAreStable(kids, level);
      IndentOfInner(e, level);
      IndentOfInner(Indent(e, level), level);
      IndentationIsBlank(level);
    }
  }

  lemma {:induction false} IndentOfInner(e: Element, level: nat)
    requires e.children != []
    ensures Indent(e, level) ==
            Element(e.tag, e.attributes, Filled(e.text, Indentation(level) + "  "), e.tail,
                    LastFilled(IndentAll(e.children, level + 1), Indentation(level)))
  {
  }

  lemma {:induction false} KidsAreStable(kids: seq<Element>, level: nat)
    requires kids != [] && forall i :: 0 <= i < |kids| ==> Indent(kids[i], level + 1) == kids[i]
    ensures var filled := LastFilled(kids, Indentation(level));
            LastFilled(IndentAll(filled, level + 1), Indentation(level)) == filled
  {
    var filled := LastFilled(kids, Indentation(level));
    var again := IndentAll(filled, level + 1);
    forall i | 0 <= i < |kids| ensures again[i] == Indent(filled[i], level + 1) {
      IndentAllAt(filled, level + 1, i);
    }
    LastIsStable(kids[|kids| - 1], level);
    assert LastFilled(again, Indentation(level)) == filled;
  }

  lemma {:induction false} LastIsStable(x: Element, level: nat)
    requires Indent(x, level + 1) == x
    ensures var f := x.(tail := Filled(x.tail, Indentation(level)));
            var g := Indent(f, level + 1);
            g.(tail := Filled(g.tail, Indentation(level))) == f
  {
    IndentationIsBlank(level);
    IndentationIsBlank(level + 1);
  }
}
