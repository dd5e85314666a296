/**
 * The compiler's output for whole templates: a component tag, or a pair of
 * opening and closing tags, set in ordinary markup, and a slot. Each lemma
 * follows the text through every pass and states the exact result.
 */
module Output {
  import opened Text
  import opened Attributes
  import opened Paths
  import opened Patterns
  import opened Compiler
  import opened Markup

  // ---------------------------------------------------------------------
  // Generated text holds no `<`
  // ---------------------------------------------------------------------

  lemma SliceNoAngle(v: string, i: nat, j: nat)
    requires NoAngle(v) && i <= j <= |v|
    ensures NoAngle(v[i..j])
  {
    forall k | 0 <= k < j - i ensures v[i..j][k] != '<' {
      assert v[i..j][k] == v[i + k];
      assert v[i + k] in v;
    }
  }

  /** Splicing `{{ … }}` into `${…}` adds no `<`. */
  lemma {:induction false} SpliceNoAngle(v: string)
    requires NoAngle(v)
    ensures NoAngle(Splice(v))
    decreases |v|
  {
    if v != [] {
      match MustacheAt(v)
      case Some((expr, n)) =>
        var close := Span(Except('}'), v, 2);
        var lead := Span(Space, v, 2);
        var start := if lead < close then lead else close - 1;
        assert expr == v[start..close];
        SliceNoAngle(v, start, close);
        SliceNoAngle(v, n, |v|);
        assert v[n..] == v[n..|v|];
        SpliceNoAngle(v[n..]);
      case None =>
        SliceNoAngle(v, 1, |v|);
        assert v[1..] == v[1..|v|];
        SpliceNoAngle(v[1..]);
        assert v[0] in v;
    }
  }

  /** Every key and every rendered value of the record is free of `<`. */
  predicate PlainEntries(m: AttrMap) {
    forall e :: e in m ==> NoAngle(e.key) && NoAngle(Render(e.value))
  }

  /** Writing a `<`-free entry keeps the record `<`-free. */
  lemma {:induction false} PutPlain(m: AttrMap, key: string, value: Value)
    requires PlainEntries(m) && NoAngle(key) && NoAngle(Render(value))
    ensures PlainEntries(Put(m, key, value))
  {
    if m != [] {
      assert PlainEntries(m[1..]) by {
        forall e | e in m[1..] ensures NoAngle(e.key) && NoAngle(Render(e.value)) {
          var i :| 0 <= i < |m[1..]| && m[1..][i] == e;
          assert m[i + 1] == e;
        }
      }
      if m[0].key != key {
        PutPlain(m[1..], key, value);
        assert m[0] in m;
      }
    }
  }

  /** The typed record of well-formed attributes is free of `<`. */
  lemma {:induction false} TypedPlain(attrs: seq<Attr>, acc: AttrMap)
    requires AllWellFormed(attrs) && PlainEntries(acc)
    ensures PlainEntries(Typed(attrs, acc))
    decreases |attrs|
  {
    if attrs != [] {
      var a := attrs[0];
      assert WellFormed(a);
      NameNotAngle(a.name);
      SliceNoAngle(a.name, 1, |a.name|);
      assert a.name[1..] == a.name[1..|a.name|];
      var value := if a.text == [] then None else Some(a.text);
      var e := Classify(a.name, value);
      if a.name[0] != ':' && value.Some? && HasMustache(a.text) {
        SpliceNoAngle(a.text);
      }
      assert NoAngle(e.key) && NoAngle(Render(e.value));
      PutPlain(acc, e.key, e.value);
      WellFormedTail(attrs);
      TypedPlain(attrs[1..], Put(acc, e.key, e.value));
    }
  }

  /** A `<`-free record renders without `<`. */
  lemma {:induction false} AttributesToStringPlain(m: AttrMap)
    requires PlainEntries(m)
    ensures NoAngle(AttributesToString(m))
    decreases |m|
  {
    if m != [] {
      assert m[0] in m;
      if |m| > 1 {
        assert PlainEntries(m[1..]) by {
          forall e | e in m[1..] ensures NoAngle(e.key) && NoAngle(Render(e.value)) {
            var i :| 0 <= i < |m[1..]| && m[1..][i] == e;
            assert m[i + 1] == e;
          }
        }
        AttributesToStringPlain(m[1..]);
      }
    }
  }

  /** The resolved path of a `<`-free tag name is free of `<`. */
  lemma ComponentPathPlain(catalog: Catalog, tag: string)
    requires NoAngle(tag)
    ensures NoAngle(ComponentPath(catalog, tag))
  {
    var p := DotsToSlashes(tag);
    assert NoAngle(p) by {
      forall k | 0 <= k < |p| ensures p[k] != '<' { assert tag[k] in tag; }
    }
    var cs := Candidates(p);
    assert forall k :: 0 <= k < |cs| ==> NoAngle(cs[k]);
    FirstListedIsFirstHit(Prefix(DiskName(tag)), Components(catalog, DiskName(tag)), cs, p);
  }

  /** The `@component` call for a tag of well-formed attributes is free of `<`. */
  lemma ComponentStringPlain(catalog: Catalog, name: string, attrs: seq<Attr>)
    requires All(Name, name) && AllWellFormed(attrs)
    ensures NoAngle(ComponentString(catalog, name, Typed(attrs, [])))
  {
    NameNotAngle(name);
    ComponentPathPlain(catalog, name);
    TypedPlain(attrs, []);
    AttributesToStringPlain(Typed(attrs, []));
  }

  /** A well-formed attribute run holds no `<`. */
  lemma {:induction false} QuotedPlain(attrs: seq<Attr>)
    requires AllWellFormed(attrs)
    ensures NoAngle(Quoted(attrs))
    decreases |attrs|
  {
    if attrs != [] {
      assert WellFormed(attrs[0]);
      NameNotAngle(attrs[0].name);
      WellFormedTail(attrs);
      QuotedPlain(attrs[1..]);
    }
  }

  /** After its `<`, a tag's text is inert. */
  lemma TagTailsInert(name: string, attrs: seq<Attr>)
    requires All(Name, name) && AllWellFormed(attrs)
    ensures Inert(SelfClosingTag(name, attrs)[1..])
    ensures Inert(OpeningTag(name, attrs)[1..])
    ensures Inert(ClosingTagText(name)[1..])
  {
    NameNotAngle(name);
    QuotedPlain(attrs);
    assert SelfClosingTag(name, attrs)[1..] == "x-" + name + Quoted(attrs) + " />";
    assert OpeningTag(name, attrs)[1..] == "x-" + name + Quoted(attrs) + ">";
    assert ClosingTagText(name)[1..] == "/x-" + name + ">";
    NoAngleInert(SelfClosingTag(name, attrs)[1..]);
    NoAngleInert(OpeningTag(name, attrs)[1..]);
    NoAngleInert(ClosingTagText(name)[1..]);
  }

  // ---------------------------------------------------------------------
  // What each pass recognizes at a tag
  // ---------------------------------------------------------------------

  /** What the self-closing pass makes of a match of its pattern. */
  lemma SelfClosingReplacement(catalog: Catalog, s: string, m: TagMatch)
    requires ComponentTag(s, SlashAngle) == Some(m)
    ensures Recognize(SelfClosing, catalog, s)
      == Some((m.length, Ok(ComponentString(catalog, m.name, AttributesOf(m.attributes)) + "\n@end\n")))
  {
  }

  /** What the opening pass makes of a match of its pattern. */
  lemma OpeningReplacement(catalog: Catalog, s: string, m: TagMatch)
    requires ComponentTag(s, Angle) == Some(m)
    ensures Recognize(Opening, catalog, s)
      == Some((m.length, Ok(ComponentString(catalog, m.name, AttributesOf(m.attributes)) + "\n")))
  {
  }

  /** The self-closing pass replaces a self-closing tag by the `@component` call and `@end`. */
  lemma SelfClosingRecognized(catalog: Catalog, name: string, attrs: seq<Attr>, rest: string)
    requires All(Name, name) && AllWellFormed(attrs)
    ensures Recognize(SelfClosing, catalog, SelfClosingTag(name, attrs) + rest)
      == Some((|SelfClosingTag(name, attrs)|, Ok(ComponentString(catalog, name, Typed(attrs, [])) + "\n@end\n")))
  {
    var s := SelfClosingTag(name, attrs) + rest;
    SelfClosingMatches(name, attrs, rest);
    SelfClosingReplacement(catalog, s, TagMatch(name, Quoted(attrs), |SelfClosingTag(name, attrs)|));
    AttributesOfQuoted(attrs);
  }

  /** An opening tag: the self-closing pass leaves it, the opening pass replaces it by the call. */
  lemma OpeningRecognized(catalog: Catalog, name: string, attrs: seq<Attr>, rest: string)
    requires All(Name, name) && AllWellFormed(attrs)
    ensures Recognize(SelfClosing, catalog, OpeningTag(name, attrs) + rest).None?
    ensures Recognize(Opening, catalog, OpeningTag(name, attrs) + rest)
      == Some((|OpeningTag(name, attrs)|, Ok(ComponentString(catalog, name, Typed(attrs, [])) + "\n")))
  {
    OpeningSkipped(catalog, name, attrs, rest);
    OpeningReplaced(catalog, name, attrs, rest);
  }

  /** The self-closing pass does not take an opening tag. */
  lemma OpeningSkipped(catalog: Catalog, name: string, attrs: seq<Attr>, rest: string)
    requires All(Name, name) && AllWellFormed(attrs)
    ensures Recognize(SelfClosing, catalog, OpeningTag(name, attrs) + rest).None?
  {
    OpeningMatches(name, attrs, rest);
  }

  /** The opening pass replaces an opening tag by its component call. */
  lemma OpeningReplaced(catalog: Catalog, name: string, attrs: seq<Attr>, rest: string)
    requires All(Name, name) && AllWellFormed(attrs)
    ensures Recognize(Opening, catalog, OpeningTag(name, attrs) + rest)
      == Some((|OpeningTag(name, attrs)|, Ok(ComponentString(catalog, name, Typed(attrs, [])) + "\n")))
  {
    var s := OpeningTag(name, attrs) + rest;
    OpeningMatches(name, attrs, rest);
    OpeningReplacement(catalog, s, TagMatch(name, Quoted(attrs), |OpeningTag(name, attrs)|));
    AttributesOfQuoted(attrs);
  }

  /** A closing tag: only the closing pass replaces it, by `@end`. */
  lemma ClosingRecognized(catalog: Catalog, name: string, rest: string)
    requires All(Name, name)
    ensures Recognize(SelfClosing, catalog, ClosingTagText(name) + rest).None?
    ensures Recognize(Opening, catalog, ClosingTagText(name) + rest).None?
    ensures Recognize(Closing, catalog, ClosingTagText(name) + rest) == Some((|ClosingTagText(name)|, Ok("\n@end\n")))
  {
    ClosingMatches(name, rest);
  }

  // ---------------------------------------------------------------------
  // Whole templates through `compileTags`
  // ---------------------------------------------------------------------

  /**
   * A self-closing component tag in inert markup becomes its `@component`
   * call and `@end`, each on its own line; the markup around it is kept.
   */
  lemma SelfClosingCompiles(catalog: Catalog, a: string, name: string, attrs: seq<Attr>, b: string)
    requires Inert(a) && Inert(b) && All(Name, name) && AllWellFormed(attrs)
    ensures CompileTags(catalog, a + SelfClosingTag(name, attrs) + b)
      == a + ComponentString(catalog, name, Typed(attrs, [])) + "\n@end\n" + b
  {
    var x := ComponentString(catalog, name, Typed(attrs, [])) + "\n@end\n";
    SelfClosingRecognized(catalog, name, attrs, b);
    ReplaceOne(SelfClosing, catalog, a, SelfClosingTag(name, attrs), b, x);
    var out := a + x + b;
    ComponentStringPlain(catalog, name, attrs);
    NoAngleInert(x);
    InertConcat(a, x);
    InertConcat(a + x, b);
    Regroup3(a, ComponentString(catalog, name, Typed(attrs, [])), "\n@end\n");
    InertTagFree(out);
    RewriteTagFree(Opening, catalog, out);
    RewriteTagFree(Closing, catalog, out);
  }

  /**
   * An opening tag, inert content and a closing tag: the call on its own
   * line, the content, and `@end` on its own line. The closing tag's name
   * is not compared with the opening one's.
   */
  lemma PairCompiles(catalog: Catalog, a: string, name: string, attrs: seq<Attr>, body: string, name2: string, b: string)
    requires Inert(a) && Inert(body) && Inert(b)
    requires All(Name, name) && AllWellFormed(attrs) && All(Name, name2)
    ensures CompileTags(catalog, a + OpeningTag(name, attrs) + body + ClosingTagText(name2) + b)
      == a + ComponentString(catalog, name, Typed(attrs, [])) + "\n" + body + "\n@end\n" + b
  {
    var open, close := OpeningTag(name, attrs), ClosingTagText(name2);
    var x := ComponentString(catalog, name, Typed(attrs, [])) + "\n";
    OpeningRecognized(catalog, name, attrs, body + close + b);
    ClosingRecognized(catalog, name2, b);
    TagTailsInert(name, attrs);
    TagTailsInert(name2, []);
    SkipTwo(SelfClosing, catalog, a, open, body, close, b);
    ReplaceThenSkip(Opening, catalog, a, open, body, close, b, x);
    ComponentStringPlain(catalog, name, attrs);
    NoAngleInert(x);
    InertConcat(a, x);
    InertConcat(a + x, body);
    ReplaceOne(Closing, catalog, a + x + body, close, b, "\n@end\n");
    Regroup3(a, ComponentString(catalog, name, Typed(attrs, [])), "\n");
  }

  // ---------------------------------------------------------------------
  // Whole templates through `compile`
  // ---------------------------------------------------------------------

  /**
   * `compile` of a self-closing component tag whose name is not a slot
   * opening's: the slot passes leave it to `compileTags`.
   */
  lemma CompileSelfClosing(catalog: Catalog, a: string, name: string, attrs: seq<Attr>, b: string)
    requires Inert(a) && Inert(b) && All(Name, name) && AllWellFormed(attrs) && NotSlotOpeningName(name)
    ensures Compile(catalog, a + SelfClosingTag(name, attrs) + b)
      == Ok(a + ComponentString(catalog, name, Typed(attrs, [])) + "\n@end\n" + b)
  {
    SlotPatternsSkipTags(name, attrs, b);
    TagTailsInert(name, attrs);
    SkipOne(SlotOpen, [], a, SelfClosingTag(name, attrs), b);
    SkipOne(SlotClose, [], a, SelfClosingTag(name, attrs), b);
    SelfClosingCompiles(catalog, a, name, attrs, b);
  }

  /**
   * `compile` of a component tag pair. The opening name is not a slot
   * opening's; the closing name does not start with `slot` at all, since
   * the slot closing pattern takes `</x-slot-item>` too.
   */
  lemma CompilePair(catalog: Catalog, a: string, name: string, attrs: seq<Attr>, body: string, name2: string, b: string)
    requires Inert(a) && Inert(body) && Inert(b)
    requires All(Name, name) && AllWellFormed(attrs) && All(Name, name2)
    requires NotSlotOpeningName(name) && NotSlotName(name2)
    ensures Compile(catalog, a + OpeningTag(name, attrs) + body + ClosingTagText(name2) + b)
      == Ok(a + ComponentString(catalog, name, Typed(attrs, [])) + "\n" + body + "\n@end\n" + b)
  {
    SlotPatternsSkipTags(name, attrs, body + ClosingTagText(name2) + b);
    SlotPatternsSkipClosing(name2, b);
    TagTailsInert(name, attrs);
    TagTailsInert(name2, []);
    SkipTwo(SlotOpen, [], a, OpeningTag(name, attrs), body, ClosingTagText(name2), b);
    SkipTwo(SlotClose, [], a, OpeningTag(name, attrs), body, ClosingTagText(name2), b);
    PairCompiles(catalog, a, name, attrs, body, name2, b);
  }

  // ---------------------------------------------------------------------
  // Slots
  // ---------------------------------------------------------------------

  /** An attribute looked up in a record free of `<` prints without `<`. */
  lemma LookupTextPlain(attributes: AttrMap, key: string)
    requires PlainEntries(attributes)
    ensures NoAngle(LookupText(attributes, key))
    ensures Lookup(attributes, key).Some? ==> NoAngle(Render(Lookup(attributes, key).value))
  {
    var v := Lookup(attributes, key);
    if v.Some? {
      var i :| 0 <= i < |attributes| && attributes[i] == Entry(key, v.value);
      assert attributes[i] in attributes;
    }
  }

  /** What `JSON.parse` gives back of a `<`-free text is free of `<`. */
  lemma JsonTextPlain(text: string)
    requires NoAngle(text)
    ensures JsonText(text).Ok? ==> NoAngle(JsonText(text).value)
  {
    if 2 <= |text| {
      SliceNoAngle(text, 1, |text| - 1);
    }
  }

  /** The slot directive of a record free of `<`, and of a `<`-free inline name, is free of `<`. */
  lemma SlotDirectivePlain(m: SlotMatch)
    requires PlainEntries(AttributesOf(m.attributes))
    requires m.slotName.Some? ==> NoAngle(m.slotName.value)
    ensures SlotDirective(m).Ok? ==> NoAngle(SlotDirective(m).value)
  {
    var attributes := AttributesOf(m.attributes);
    LookupTextPlain(attributes, "name");
    LookupTextPlain(attributes, "props");
    var props := Lookup(attributes, "props");
    if props.Some? {
      JsonTextPlain(Render(props.value));
    }
  }

  /** The slot opening pass takes `<x-slot attrs>` and emits its directive. */
  lemma SlotRecognized(attrs: seq<Attr>, rest: string)
    requires AllWellFormed(attrs)
    ensures Recognize(SlotOpen, [], SlotTag(attrs) + rest)
      == Some((|SlotTag(attrs)|, SlotDirective(SlotMatch(None, Quoted(attrs), |SlotTag(attrs)|))))
  {
    SlotOpeningMatches(attrs, rest);
  }

  /** The slot opening pass skips `</x-slot>`; the slot closing pass turns it into `\n@end`. */
  lemma SlotEndRecognized(rest: string)
    ensures Recognize(SlotOpen, [], SlotEnd + rest).None?
    ensures Recognize(SlotClose, [], SlotEnd + rest) == Some((|SlotEnd|, Ok("\n@end")))
  {
    SlotEndMatches(rest);
  }

  /** The slot closing pass on inert text around `</x-slot>`. */
  lemma SlotClosePass(u: string, b: string)
    requires Inert(u) && Inert(b)
    ensures Rewrite(SlotClose, [], u + SlotEnd + b) == Ok(u + "\n@end" + b)
  {
    SlotEndRecognized(b);
    ReplaceOne(SlotClose, [], u, SlotEnd, b, "\n@end");
  }

  /** The slot opening pass on a slot opening `m` replaced by `x`, inert content and `</x-slot>`. */
  lemma SlotOpenPass(a: string, m: string, body: string, b: string, x: string)
    requires Inert(a) && Inert(body) && Inert(b)
    requires Recognize(SlotOpen, [], m + (body + SlotEnd + b)) == Some((|m|, Ok(x)))
    ensures Rewrite(SlotOpen, [], a + m + body + SlotEnd + b) == Ok(a + x + body + SlotEnd + b)
  {
    SlotEndRecognized(b);
    NoAngleInert(SlotEnd[1..]);
    ReplaceThenSkip(SlotOpen, [], a, m, body, SlotEnd, b, x);
  }

  /** A slot opening `m` with directive `d`, inert content and `</x-slot>`, through both slot passes. */
  lemma SlotBlock(a: string, m: string, body: string, b: string, d: Result<string, CompileError>)
    requires Inert(a) && Inert(body) && Inert(b)
    requires Recognize(SlotOpen, [], m + (body + SlotEnd + b)) == Some((|m|, d))
    requires d.Ok? ==> NoAngle(d.value)
    ensures d.Ok? ==> CompileSlots(a + m + body + SlotEnd + b) == Ok(a + d.value + body + "\n@end" + b)
    ensures d.Err? ==> CompileSlots(a + m + body + SlotEnd + b) == Err(d.error)
  {
    if d.Ok? {
      SlotOpenPass(a, m, body, b, d.value);
      NoAngleInert(d.value);
      InertConcat(a, d.value);
      InertConcat(a + d.value, body);
      SlotClosePass(a + d.value + body, b);
    } else {
      assert a + m + body + SlotEnd + b == a + m + (body + SlotEnd + b);
      FailAfter(SlotOpen, [], a, m, body + SlotEnd + b, d.error);
    }
  }

  /**
   * A slot block in inert markup: the opening becomes the slot directive,
   * the closing `@end` on a new line, and the content is kept; a `props`
   * that `JSON.parse` rejects makes the whole compilation fail.
   */
  lemma SlotCompiles(a: string, attrs: seq<Attr>, body: string, b: string)
    requires Inert(a) && AllWellFormed(attrs) && Inert(body) && Inert(b)
    ensures var d := SlotDirective(SlotMatch(None, Quoted(attrs), |SlotTag(attrs)|));
      && (d.Ok? ==> CompileSlots(a + SlotTag(attrs) + body + SlotEnd + b) == Ok(a + d.value + body + "\n@end" + b))
      && (d.Err? ==> CompileSlots(a + SlotTag(attrs) + body + SlotEnd + b) == Err(d.error))
  {
    var m := SlotMatch(None, Quoted(attrs), |SlotTag(attrs)|);
    SlotRecognized(attrs, body + SlotEnd + b);
    AttributesOfQuoted(attrs);
    TypedPlain(attrs, []);
    SlotDirectivePlain(m);
    SlotBlock(a, SlotTag(attrs), body, b, SlotDirective(m));
  }

  // ---------------------------------------------------------------------
  // The slot directive for typical slot openings
  // ---------------------------------------------------------------------

  /** A value without `{` is typed as a quoted literal, whatever its name (unless bound). */
  lemma PlainValue(v: string)
    requires forall j :: 0 <= j < |v| ==> v[j] != '{'
    ensures !HasMustache(v)
  {
    NoBraceNoMustache(v, 0);
  }

  /** Two attributes with different keys are typed one after the other. */
  lemma AttributesOfPair(n1: string, t1: string, n2: string, t2: string)
    requires WellFormed(Attr(n1, t1)) && WellFormed(Attr(n2, t2))
    requires Classify(n1, if t1 == [] then None else Some(t1)).key != Classify(n2, if t2 == [] then None else Some(t2)).key
    ensures AttributesOf(Quoted([Attr(n1, t1), Attr(n2, t2)]))
      == [Classify(n1, if t1 == [] then None else Some(t1)), Classify(n2, if t2 == [] then None else Some(t2))]
  {
    var a1, a2 := Attr(n1, t1), Attr(n2, t2);
    var e1 := Classify(n1, if t1 == [] then None else Some(t1));
    var e2 := Classify(n2, if t2 == [] then None else Some(t2));
    assert [a2] + [] == [a2] && [a1] + [a2] == [a1, a2];
    TypedFirst(a2, [], [e1], e2);
    TypedFirst(a1, [a2], [], e1);
    AttributesOfQuoted([a1, a2]);
    assert Put([], e1.key, e1.value) == [e1];
    assert Put([e1], e2.key, e2.value) == [e1, e2];
  }

  /** The quoted name at the head of a slot call. */
  lemma SlotCallText(v: string, p: string)
    ensures "@slot(" + ("\"" + v + "\"") + ")\n" == "@slot(\"" + v + "\")\n"
    ensures "@slot(" + ("\"" + v + "\"") + ", " + p + ")\n" == "@slot(\"" + v + "\", " + p + ")\n"
  {
  }

  /** `<x-slot name="v">`: the slot is named by the quoted literal. */
  lemma SlotNamed(v: string, n: nat)
    requires v != [] && WellFormed(Attr("name", v)) && forall j :: 0 <= j < |v| ==> v[j] != '{'
    ensures SlotDirective(SlotMatch(None, Quoted([Attr("name", v)]), n)) == Ok("@slot(\"" + v + "\")\n")
  {
    var attrs := [Attr("name", v)];
    AttributesOfQuoted(attrs);
    PlainValue(v);
    assert Typed(attrs, []) == [Entry("name", Literal(v))];
    SlotCallText(v, []);
  }

  /** `<x-slot name="v" props="p">`: the props literal comes out of `JSON.parse` as its text. */
  lemma SlotNamedWithProps(v: string, p: string, n: nat)
    requires v != [] && WellFormed(Attr("name", v)) && forall j :: 0 <= j < |v| ==> v[j] != '{'
    requires p != [] && WellFormed(Attr("props", p)) && forall j :: 0 <= j < |p| ==> p[j] != '{'
    requires PlainJsonBody(p)
    ensures SlotDirective(SlotMatch(None, Quoted([Attr("name", v), Attr("props", p)]), n))
      == Ok("@slot(\"" + v + "\", " + p + ")\n")
  {
    var attrs := [Attr("name", v), Attr("props", p)];
    PlainValue(v);
    PlainValue(p);
    AttributesOfPair("name", v, "props", p);
    var am := AttributesOf(Quoted(attrs));
    assert am == [Entry("name", Literal(v)), Entry("props", Literal(p))];
    assert am[1..] == [Entry("props", Literal(p))];
    assert Lookup(am, "name") == Some(Literal(v)) && Lookup(am, "props") == Some(Literal(p));
    assert LookupText(am, "name") == "\"" + v + "\"";
    assert Truthy(Literal(p));
    JsonTextOfLiteral(p);
    SlotCallText(v, p);
  }

  /** `props=""`: an empty value counts as no value, so `props` is `true` and passes `JSON.parse`. */
  lemma SlotEmptyProps(v: string, n: nat)
    requires v != [] && WellFormed(Attr("name", v)) && forall j :: 0 <= j < |v| ==> v[j] != '{'
    ensures SlotDirective(SlotMatch(None, Quoted([Attr("name", v), Attr("props", "")]), n))
      == Ok("@slot(\"" + v + "\", true)\n")
  {
    var attrs := [Attr("name", v), Attr("props", "")];
    PlainValue(v);
    AttributesOfPair("name", v, "props", "");
    var am := AttributesOf(Quoted(attrs));
    assert am == [Entry("name", Literal(v)), Entry("props", True)];
    assert am[1..] == [Entry("props", True)];
    assert Lookup(am, "name") == Some(Literal(v)) && Lookup(am, "props") == Some(True);
    assert LookupText(am, "name") == "\"" + v + "\"";
    assert JsonText("true") == Ok("true");
    SlotCallText(v, "true");
    assert "@slot(\"" + v + "\", " + "true" + ")\n" == "@slot(\"" + v + "\", true)\n";
  }

  /** `props="…{{ e }}…"`: the template string is no JSON, and the compilation fails on it. */
  lemma SlotTemplatePropsFail(v: string, p: string, n: nat)
    requires v != [] && WellFormed(Attr("name", v)) && forall j :: 0 <= j < |v| ==> v[j] != '{'
    requires WellFormed(Attr("props", p)) && HasMustache(p)
    ensures SlotDirective(SlotMatch(None, Quoted([Attr("name", v), Attr("props", p)]), n))
      == Err(PropsNotJson("`" + Splice(p) + "`"))
  {
    var attrs := [Attr("name", v), Attr("props", p)];
    PlainValue(v);
    assert p != [];
    AttributesOfPair("name", v, "props", p);
    var am := AttributesOf(Quoted(attrs));
    assert am == [Entry("name", Literal(v)), Entry("props", Interpolated(Splice(p)))];
    assert am[1..] == [Entry("props", Interpolated(Splice(p)))];
    assert Lookup(am, "props") == Some(Interpolated(Splice(p)));
    var t := "`" + Splice(p) + "`";
    assert Render(Interpolated(Splice(p))) == t && t[0] == '`';
    assert JsonText(t) == Err(PropsNotJson(t));
  }

  /**
   * `:props="e"` with an expression `e` such as `user.props` that is no
   * JSON text: it starts with a letter, holds no white space and is none of
   * `true`, `false` and `null`, so `JSON.parse` throws on it and the
   * compilation fails.
   */
  lemma SlotBoundPropsFail(v: string, e: string, n: nat)
    requires v != [] && WellFormed(Attr("name", v)) && forall j :: 0 <= j < |v| ==> v[j] != '{'
    requires e != [] && WellFormed(Attr(":props", e))
    requires ('a' <= e[0] <= 'z' || 'A' <= e[0] <= 'Z') && forall j :: 0 <= j < |e| ==> !IsSpace(e[j])
    requires e != "true" && e != "false" && e != "null"
    ensures SlotDirective(SlotMatch(None, Quoted([Attr("name", v), Attr(":props", e)]), n)) == Err(PropsNotJson(e))
  {
    var attrs := [Attr("name", v), Attr(":props", e)];
    PlainValue(v);
    assert ":props"[1..] == "props";
    AttributesOfPair("name", v, ":props", e);
    var am := AttributesOf(Quoted(attrs));
    assert am == [Entry("name", Literal(v)), Entry("props", Raw(Some(e)))];
    assert am[1..] == [Entry("props", Raw(Some(e)))];
    assert Lookup(am, "props") == Some(Raw(Some(e)));
    assert Render(Raw(Some(e))) == e;
    assert JsonText(e) == Err(PropsNotJson(e));
  }

  /** `<x-slot>` with no name at all: the name prints as `undefined`. */
  lemma SlotUnnamed(n: nat)
    ensures SlotDirective(SlotMatch(None, Quoted([]), n)) == Ok("@slot(undefined)\n")
  {
    AttributesOfQuoted([]);
    assert "@slot(" + "undefined" + ")\n" == "@slot(undefined)\n";
  }

  /** `<x-slot:w>`: a non-empty inline name is quoted and wins over any `name` attribute. */
  lemma InlineSlotNamed(w: string, attributes: string, n: nat)
    requires w != []
    requires Lookup(AttributesOf(attributes), "props").None?
    ensures SlotDirective(SlotMatch(Some(w), attributes, n)) == Ok("@slot(\"" + w + "\")\n")
  {
    SlotCallText(w, []);
  }

  /** `<x-slot name="v">body</x-slot>` in inert markup, through both slot passes. */
  lemma NamedSlotCompiles(a: string, v: string, body: string, b: string)
    requires Inert(a) && Inert(body) && Inert(b)
    requires v != [] && WellFormed(Attr("name", v)) && forall j :: 0 <= j < |v| ==> v[j] != '{'
    ensures CompileSlots(a + ("<x-slot name=\"" + v + "\">") + body + SlotEnd + b)
      == Ok(a + ("@slot(\"" + v + "\")\n") + body + "\n@end" + b)
  {
    var attrs := [Attr("name", v)];
    assert Quoted(attrs) == " name=\"" + v + "\"";
    assert SlotTag(attrs) == "<x-slot name=\"" + v + "\">";
    SlotNamed(v, |SlotTag(attrs)|);
    SlotCompiles(a, attrs, body, b);
  }

  /** `<x-slot name="v" props="p">` as an attribute run. */
  lemma PropsSlotTag(v: string, p: string)
    ensures SlotTag([Attr("name", v), Attr("props", p)]) == "<x-slot name=\"" + v + "\" props=\"" + p + "\">"
  {
    var attrs := [Attr("name", v), Attr("props", p)];
    assert attrs[1..] == [Attr("props", p)];
    assert Quoted(attrs[1..]) == AttrText(Attr("props", p)) + Quoted([]);
    assert Quoted(attrs) == AttrText(Attr("name", v)) + AttrText(Attr("props", p));
  }

  /** `<x-slot name="v" props="p">body</x-slot>` in inert markup, through both slot passes. */
  lemma PropsSlotCompiles(a: string, v: string, p: string, body: string, b: string)
    requires Inert(a) && Inert(body) && Inert(b)
    requires v != [] && WellFormed(Attr("name", v)) && forall j :: 0 <= j < |v| ==> v[j] != '{'
    requires p != [] && WellFormed(Attr("props", p)) && forall j :: 0 <= j < |p| ==> p[j] != '{'
    requires PlainJsonBody(p)
    ensures CompileSlots(a + ("<x-slot name=\"" + v + "\" props=\"" + p + "\">") + body + SlotEnd + b)
      == Ok(a + ("@slot(\"" + v + "\", " + p + ")\n") + body + "\n@end" + b)
  {
    var attrs := [Attr("name", v), Attr("props", p)];
    PropsSlotTag(v, p);
    SlotNamedWithProps(v, p, |SlotTag(attrs)|);
    SlotCompiles(a, attrs, body, b);
  }

  /** A word name holds no `<`, and neither does the slot call quoting it. */
  lemma WordPlain(w: string)
    requires All(Word, w)
    ensures NoAngle("@slot(\"" + w + "\")\n")
  {
    forall j | 0 <= j < |w| ensures w[j] != '<' { assert InClass(Word, w[j]); }
  }

  /** `<x-slot:w>` in inert markup, through both slot passes. */
  lemma InlineSlotCompiles(a: string, w: string, body: string, b: string)
    requires Inert(a) && Inert(body) && Inert(b) && w != [] && All(Word, w)
    ensures CompileSlots(a + InlineSlotTag(w, []) + body + SlotEnd + b)
      == Ok(a + ("@slot(\"" + w + "\")\n") + body + "\n@end" + b)
  {
    var m := InlineSlotTag(w, []);
    var rest := body + SlotEnd + b;
    InlineSlotOpeningMatches(w, [], rest);
    AttributesOfQuoted([]);
    assert Quoted([]) == [];
    InlineSlotNamed(w, [], |m|);
    var d := "@slot(\"" + w + "\")\n";
    assert Recognize(SlotOpen, [], m + rest) == Some((|m|, Ok(d)));
    WordPlain(w);
    SlotBlock(a, m, body, b, Ok(d));
  }
}
