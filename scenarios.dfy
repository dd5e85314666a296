/**
 * The shapes the repository's test suite exercises, stated for every name,
 * text and catalog of that shape: tags without attributes among plain text,
 * disk-prefixed tags, a tag with a literal, a bound and an interpolated
 * attribute, and the `::` escape of a binding. The suite trims the output
 * before comparing, so the leading and trailing newlines the compiler adds
 * are part of the output here.
 */
module Scenarios {
  import opened Text
  import opened Attributes
  import opened Paths
  import opened Patterns
  import opened Compiler
  import opened Markup
  import opened Output

  /** The `@component` call with an empty attribute record. */
  function BareCall(path: string): string {
    "\n@component(\"" + path + "\", {  })"
  }

  /** A tag without attributes renders as `{  }`. */
  lemma BareComponentString(catalog: Catalog, name: string)
    ensures ComponentString(catalog, name, Typed([], [])) == BareCall(ComponentPath(catalog, name))
  {
  }

  // ---------------------------------------------------------------------
  // Tags without attributes
  // ---------------------------------------------------------------------

  /** `a<x-name />b`: the tag becomes its call and `@end` on their own lines, between the untouched `a` and `b`. */
  lemma BareSelfClosing(catalog: Catalog, a: string, name: string, b: string)
    requires Inert(a) && Inert(b) && All(Name, name)
    ensures CompileTags(catalog, a + ("<x-" + name + " />") + b)
      == a + BareCall(ComponentPath(catalog, name)) + "\n@end\n" + b
  {
    assert Quoted([]) == [];
    assert SelfClosingTag(name, []) == "<x-" + name + " />";
    SelfClosingCompiles(catalog, a, name, [], b);
    BareComponentString(catalog, name);
  }

  /** `a<x-name>body</x-name>b`: the call opens a line, the body stays, `@end` gets a line of its own. */
  lemma BarePair(catalog: Catalog, a: string, name: string, body: string, b: string)
    requires Inert(a) && Inert(body) && Inert(b) && All(Name, name)
    ensures CompileTags(catalog, a + ("<x-" + name + ">") + body + ("</x-" + name + ">") + b)
      == a + BareCall(ComponentPath(catalog, name)) + "\n" + body + "\n@end\n" + b
  {
    assert Quoted([]) == [];
    assert OpeningTag(name, []) == "<x-" + name + ">";
    PairCompiles(catalog, a, name, [], body, name, b);
    BareComponentString(catalog, name);
  }

  /** A plain listed name, self-closing: the call names the template itself. */
  lemma ListedSelfClosing(catalog: Catalog, a: string, name: string, b: string)
    requires Inert(a) && Inert(b) && All(Name, name) && name in Components(catalog, None)
    requires forall j :: 0 <= j < |name| ==> name[j] != ':' && name[j] != '.'
    ensures CompileTags(catalog, a + ("<x-" + name + " />") + b) == a + BareCall(name) + "\n@end\n" + b
  {
    ListedNameKept(catalog, name);
    BareSelfClosing(catalog, a, name, b);
  }

  /** A plain listed name with a body. */
  lemma ListedPair(catalog: Catalog, a: string, name: string, body: string, b: string)
    requires Inert(a) && Inert(body) && Inert(b) && All(Name, name) && name in Components(catalog, None)
    requires forall j :: 0 <= j < |name| ==> name[j] != ':' && name[j] != '.'
    ensures CompileTags(catalog, a + ("<x-" + name + ">") + body + ("</x-" + name + ">") + b)
      == a + BareCall(name) + "\n" + body + "\n@end\n" + b
  {
    ListedNameKept(catalog, name);
    BarePair(catalog, a, name, body, b);
  }

  // ---------------------------------------------------------------------
  // Disk-prefixed tags
  // ---------------------------------------------------------------------

  /** `<x-disk::rest />` whose disk lists only that tag: the call keeps the whole prefixed name. */
  lemma DiskSelfClosing(catalog: Catalog, a: string, disk: string, rest: string, b: string)
    requires Inert(a) && Inert(b) && disk != [] && All(Word, disk) && All(Name, rest)
    requires forall j :: 0 <= j < |rest| ==> rest[j] != '.'
    requires Components(catalog, Some(disk)) == [disk + "::" + rest]
    ensures CompileTags(catalog, a + ("<x-" + (disk + "::" + rest) + " />") + b)
      == a + BareCall(disk + "::" + rest) + "\n@end\n" + b
  {
    DiskNameOfPrefixed(disk, rest);
    DiskTagKeepsName(catalog, disk, rest);
    BareSelfClosing(catalog, a, disk + "::" + rest, b);
  }

  /** `<x-disk::rest>body</x-disk::rest>` whose disk lists only that tag. */
  lemma DiskPair(catalog: Catalog, a: string, disk: string, rest: string, body: string, b: string)
    requires Inert(a) && Inert(body) && Inert(b) && disk != [] && All(Word, disk) && All(Name, rest)
    requires forall j :: 0 <= j < |rest| ==> rest[j] != '.'
    requires Components(catalog, Some(disk)) == [disk + "::" + rest]
    ensures CompileTags(catalog, a + ("<x-" + (disk + "::" + rest) + ">") + body + ("</x-" + (disk + "::" + rest) + ">") + b)
      == a + BareCall(disk + "::" + rest) + "\n" + body + "\n@end\n" + b
  {
    DiskNameOfPrefixed(disk, rest);
    DiskTagKeepsName(catalog, disk, rest);
    BarePair(catalog, a, disk + "::" + rest, body, b);
  }

  // ---------------------------------------------------------------------
  // Attributes
  // ---------------------------------------------------------------------

  /**
   * `t="v" :c="e" s="{{ expr }}"`: a literal is quoted, a binding is kept
   * as the expression, and an interpolation becomes a template string, in
   * the order written.
   */
  lemma MixedAttributes(t: string, v: string, c: string, e: string, s: string, blanks: string, expr: string)
    requires WellFormed(Attr(t, v)) && WellFormed(Attr(":" + c, e)) && WellFormed(Attr(s, "{{" + blanks + expr + "}}"))
    requires t[0] != ':' && s[0] != ':' && t != c && t != s && c != s
    requires v != [] && forall j :: 0 <= j < |v| ==> v[j] != '{'
    requires e != []
    requires All(Space, blanks) && forall j :: 0 <= j < |blanks| ==> !IsLineTerminator(blanks[j])
    requires expr != [] && !IsSpace(expr[0]) && All(Except('}'), expr)
    requires forall j :: 0 <= j < |expr| ==> !IsLineTerminator(expr[j])
    ensures AttributesOf(Quoted([Attr(t, v), Attr(":" + c, e), Attr(s, "{{" + blanks + expr + "}}")]))
      == [Entry(t, Literal(v)), Entry(c, Raw(Some(e))), Entry(s, Interpolated("${" + expr + "}"))]
    ensures AttributesToString([Entry(t, Literal(v)), Entry(c, Raw(Some(e))), Entry(s, Interpolated("${" + expr + "}"))])
      == ("\"" + t + "\": " + ("\"" + v + "\"")) + ", " + (("\"" + c + "\": " + e) + ", " + ("\"" + s + "\": " + ("`" + ("${" + expr + "}") + "`")))
  {
    var w := "{{" + blanks + expr + "}}";
    var attrs := [Attr(t, v), Attr(":" + c, e), Attr(s, w)];
    AttributesOfQuoted(attrs);
    NoBraceNoMustache(v, 0);
    assert w == "{{" + (blanks + expr) + "}}";
    SingleMustache(blanks + expr);
    SpliceSingle(blanks, expr);
    TypedThree(t, v, c, e, s, w, "${" + expr + "}");
    RenderedThree(t, v, c, e, s, "${" + expr + "}");
  }

  /** Typing three attributes with distinct keys: a literal, a binding, a template. */
  lemma TypedThree(t: string, v: string, c: string, e: string, s: string, w: string, spliced: string)
    requires WellFormed(Attr(t, v)) && WellFormed(Attr(":" + c, e)) && WellFormed(Attr(s, w))
    requires t[0] != ':' && s[0] != ':' && t != c && t != s && c != s
    requires v != [] && !HasMustache(v) && e != [] && w != [] && HasMustache(w) && Splice(w) == spliced
    ensures Typed([Attr(t, v), Attr(":" + c, e), Attr(s, w)], [])
      == [Entry(t, Literal(v)), Entry(c, Raw(Some(e))), Entry(s, Interpolated(spliced))]
  {
    var e1, e2, e3 := Entry(t, Literal(v)), Entry(c, Raw(Some(e))), Entry(s, Interpolated(spliced));
    ClassifyThree(t, v, c, e, s, w, spliced);
    PutThree(e1, e2, e3);
    assert [Attr(t, v), Attr(":" + c, e), Attr(s, w)] == [Attr(t, v)] + [Attr(":" + c, e), Attr(s, w)];
    assert [Attr(":" + c, e), Attr(s, w)] == [Attr(":" + c, e)] + [Attr(s, w)];
    assert [Attr(s, w)] == [Attr(s, w)] + [];
    TypedFirst(Attr(t, v), [Attr(":" + c, e), Attr(s, w)], [], e1);
    TypedFirst(Attr(":" + c, e), [Attr(s, w)], [e1], e2);
    TypedFirst(Attr(s, w), [], [e1, e2], e3);
  }

  /** How each of the three attributes is typed. */
  lemma ClassifyThree(t: string, v: string, c: string, e: string, s: string, w: string, spliced: string)
    requires t != [] && t[0] != ':' && s != [] && s[0] != ':'
    requires v != [] && !HasMustache(v) && e != [] && w != [] && HasMustache(w) && Splice(w) == spliced
    ensures Classify(t, Some(v)) == Entry(t, Literal(v))
    ensures Classify(":" + c, Some(e)) == Entry(c, Raw(Some(e)))
    ensures Classify(s, Some(w)) == Entry(s, Interpolated(spliced))
  {
    assert (":" + c)[0] == ':' && (":" + c)[1..] == c;
  }

  /** Three distinct keys written in turn into an empty record. */
  lemma PutThree(e1: Entry, e2: Entry, e3: Entry)
    requires e1.key != e2.key && e1.key != e3.key && e2.key != e3.key
    ensures Put([], e1.key, e1.value) == [e1]
    ensures Put([e1], e2.key, e2.value) == [e1, e2]
    ensures Put([e1, e2], e3.key, e3.value) == [e1, e2, e3]
  {
    assert [e1, e2][1..] == [e2];
    assert Put([e2], e3.key, e3.value) == [e2, e3];
  }

  /** Rendering those three entries. */
  lemma RenderedThree(t: string, v: string, c: string, e: string, s: string, spliced: string)
    ensures AttributesToString([Entry(t, Literal(v)), Entry(c, Raw(Some(e))), Entry(s, Interpolated(spliced))])
      == ("\"" + t + "\": " + ("\"" + v + "\"")) + ", " + (("\"" + c + "\": " + e) + ", " + ("\"" + s + "\": " + ("`" + spliced + "`")))
  {
    var m := [Entry(t, Literal(v)), Entry(c, Raw(Some(e))), Entry(s, Interpolated(spliced))];
    assert m[1..] == [m[1], m[2]] && m[1..][1..] == [m[2]];
  }

  /** A tag with those three attributes, self-closing. */
  lemma MixedSelfClosing(catalog: Catalog, a: string, name: string, t: string, v: string, c: string, e: string,
                         s: string, blanks: string, expr: string, b: string)
    requires Inert(a) && Inert(b) && All(Name, name)
    requires WellFormed(Attr(t, v)) && WellFormed(Attr(":" + c, e)) && WellFormed(Attr(s, "{{" + blanks + expr + "}}"))
    requires t[0] != ':' && s[0] != ':' && t != c && t != s && c != s
    requires v != [] && forall j :: 0 <= j < |v| ==> v[j] != '{'
    requires e != []
    requires All(Space, blanks) && forall j :: 0 <= j < |blanks| ==> !IsLineTerminator(blanks[j])
    requires expr != [] && !IsSpace(expr[0]) && All(Except('}'), expr)
    requires forall j :: 0 <= j < |expr| ==> !IsLineTerminator(expr[j])
    ensures var attrs := [Attr(t, v), Attr(":" + c, e), Attr(s, "{{" + blanks + expr + "}}")];
      CompileTags(catalog, a + SelfClosingTag(name, attrs) + b)
      == a + ("\n@component(\"" + ComponentPath(catalog, name) + "\", { "
              + AttributesToString([Entry(t, Literal(v)), Entry(c, Raw(Some(e))), Entry(s, Interpolated("${" + expr + "}"))])
              + " })") + "\n@end\n" + b
  {
    var attrs := [Attr(t, v), Attr(":" + c, e), Attr(s, "{{" + blanks + expr + "}}")];
    assert AllWellFormed(attrs);
    MixedAttributes(t, v, c, e, s, blanks, expr);
    AttributesOfQuoted(attrs);
    SelfClosingCompiles(catalog, a, name, attrs, b);
  }

  /** A tag with those three attributes and a body. */
  lemma MixedPair(catalog: Catalog, a: string, name: string, t: string, v: string, c: string, e: string,
                  s: string, blanks: string, expr: string, body: string, b: string)
    requires Inert(a) && Inert(body) && Inert(b) && All(Name, name)
    requires WellFormed(Attr(t, v)) && WellFormed(Attr(":" + c, e)) && WellFormed(Attr(s, "{{" + blanks + expr + "}}"))
    requires t[0] != ':' && s[0] != ':' && t != c && t != s && c != s
    requires v != [] && forall j :: 0 <= j < |v| ==> v[j] != '{'
    requires e != []
    requires All(Space, blanks) && forall j :: 0 <= j < |blanks| ==> !IsLineTerminator(blanks[j])
    requires expr != [] && !IsSpace(expr[0]) && All(Except('}'), expr)
    requires forall j :: 0 <= j < |expr| ==> !IsLineTerminator(expr[j])
    ensures var attrs := [Attr(t, v), Attr(":" + c, e), Attr(s, "{{" + blanks + expr + "}}")];
      CompileTags(catalog, a + OpeningTag(name, attrs) + body + ClosingTagText(name) + b)
      == a + ("\n@component(\"" + ComponentPath(catalog, name) + "\", { "
              + AttributesToString([Entry(t, Literal(v)), Entry(c, Raw(Some(e))), Entry(s, Interpolated("${" + expr + "}"))])
              + " })") + "\n" + body + "\n@end\n" + b
  {
    var attrs := [Attr(t, v), Attr(":" + c, e), Attr(s, "{{" + blanks + expr + "}}")];
    assert AllWellFormed(attrs);
    MixedAttributes(t, v, c, e, s, blanks, expr);
    AttributesOfQuoted(attrs);
    PairCompiles(catalog, a, name, attrs, body, name, b);
  }

  // ---------------------------------------------------------------------
  // The `::` escape
  // ---------------------------------------------------------------------

  /**
   * `::name="text"` as the extractor is written: the first `:` marks a
   * binding, so the key keeps one `:` and the text is emitted unquoted, as
   * an expression, whether or not it holds `{{ … }}`.
   */
  lemma DoubleColonBinds(name: string, text: string)
    requires WellFormed(Attr("::" + name, text)) && text != []
    ensures AttributesOf(Quoted([Attr("::" + name, text)])) == [Entry(":" + name, Raw(Some(text)))]
    ensures AttributesToString(AttributesOf(Quoted([Attr("::" + name, text)]))) == "\":" + name + "\": " + text
  {
    AttributesOfQuoted([Attr("::" + name, text)]);
    assert ("::" + name)[1..] == ":" + name;
  }
}
