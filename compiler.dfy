/**
 * The passes of `ComponentTagCompiler`: every `value.replace(pattern, …)`
 * with a global pattern is a left-to-right scan that, at each position,
 * either replaces a match and resumes after it or copies one character.
 */
module Compiler {
  import opened Text
  import opened Attributes
  import opened Paths
  import opened Patterns

  /** The one failure the compiler can raise: `JSON.parse` rejecting a slot's `props`. */
  datatype CompileError = PropsNotJson(props: string)

  /** The five global replacements, in the order the compiler runs them. */
  datatype Pass = SlotOpen | SlotClose | SelfClosing | Opening | Closing

  /**
   * `JSON.parse(text)` followed by `${…}`: a string literal whose body has
   * no quote, backslash or control character gives its body, the keywords
   * `true`, `false` and `null` print as themselves, and anything else is
   * reported as a failure.
   */
  function JsonText(text: string): (r: Result<string, CompileError>)
    ensures r.Err? ==> r.error == PropsNotJson(text)
  {
    if 2 <= |text| && text[0] == '"' && text[|text| - 1] == '"' && PlainJsonBody(text[1..|text| - 1]) then
      Ok(text[1..|text| - 1])
    else if text == "true" || text == "false" || text == "null" then Ok(text)
    else Err(PropsNotJson(text))
  }

  /** A string body that `JSON.parse` returns unchanged: no quote, backslash or control character. */
  predicate PlainJsonBody(t: string) {
    forall j :: 0 <= j < |t| ==> t[j] != '"' && t[j] != '\\' && t[j] as int >= 0x20
  }

  /** A quoted literal comes back out of `JSON.parse` as its text. */
  lemma JsonTextOfLiteral(t: string)
    requires PlainJsonBody(t)
    ensures JsonText(Render(Literal(t))) == Ok(t)
  {
    var q := "\"" + t + "\"";
    assert q[1..|q| - 1] == t;
  }

  /** `${x}` of an attribute looked up on the record, `undefined` when absent. */
  function LookupText(attributes: AttrMap, key: string): string {
    match Lookup(attributes, key)
    case None => "undefined"
    case Some(v) => Render(v)
  }

  /**
   * The slot callback: the name is the inline `:name` quoted when it is
   * non-empty, else the typed `name` attribute; a truthy `props` adds its
   * `JSON.parse`d text as a second argument.
   */
  function SlotDirective(m: SlotMatch): Result<string, CompileError> {
    var attributes := AttributesOf(m.attributes);
    var name := if m.slotName.Some? && m.slotName.value != [] then "\"" + m.slotName.value + "\""
                else LookupText(attributes, "name");
    var props := Lookup(attributes, "props");
    if props.Some? && Truthy(props.value) then
      match JsonText(Render(props.value))
      case Ok(p) => Ok("@slot(" + name + ", " + p + ")\n")
      case Err(e) => Err(e)
    else Ok("@slot(" + name + ")\n")
  }

  /** The match of `pass` at the start of `s`: its length and its replacement. */
  function Recognize(pass: Pass, catalog: Catalog, s: string): (r: Option<(nat, Result<string, CompileError>)>)
    ensures r.Some? ==> OpensTag(s) && 0 < r.value.0 <= |s|
    ensures r.Some? && pass != SlotOpen ==> r.value.1.Ok?
  {
    match pass
    case SlotOpen =>
      (match SlotOpening(s)
       case None => None
       case Some(m) => Some((m.length, SlotDirective(m))))
    case SlotClose =>
      (match SlotClosing(s)
       case None => None
       case Some(n) => Some((n, Ok("\n@end"))))
    case SelfClosing =>
      (match ComponentTag(s, SlashAngle)
       case None => None
       case Some(m) => Some((m.length, Ok(ComponentString(catalog, m.name, AttributesOf(m.attributes)) + "\n@end\n"))))
    case Opening =>
      (match ComponentTag(s, Angle)
       case None => None
       case Some(m) => Some((m.length, Ok(ComponentString(catalog, m.name, AttributesOf(m.attributes)) + "\n"))))
    case Closing =>
      (match ClosingTag(s)
       case None => None
       case Some(n) => Some((n, Ok("\n@end\n"))))
  }

  /** `value.replace(pattern, replacement)` with a global pattern. */
  function Rewrite(pass: Pass, catalog: Catalog, s: string): (r: Result<string, CompileError>)
    ensures pass != SlotOpen ==> r.Ok?
    decreases |s|
  {
    if s == [] then Ok([])
    else match Recognize(pass, catalog, s)
      case Some((n, replacement)) =>
        (match replacement
         case Err(e) => Err(e)
         case Ok(x) =>
           match Rewrite(pass, catalog, s[n..])
           case Err(e) => Err(e)
           case Ok(y) => Ok(x + y))
      case None =>
        match Rewrite(pass, catalog, s[1..])
        case Err(e) => Err(e)
        case Ok(y) => Ok([s[0]] + y)
  }

  /** `compileSlots`: slot openings, then slot closings. */
  function CompileSlots(value: string): Result<string, CompileError> {
    match Rewrite(SlotOpen, [], value)
    case Err(e) => Err(e)
    case Ok(v) => Rewrite(SlotClose, [], v)
  }

  /** A pass that cannot fail, as a plain string-to-string step. */
  function Apply(pass: Pass, catalog: Catalog, value: string): string
    requires pass != SlotOpen
  {
    Rewrite(pass, catalog, value).value
  }

  /** `compileTags`: the self-closing, the opening and the closing pass, each on the previous result. */
  function CompileTags(catalog: Catalog, value: string): string {
    Apply(Closing, catalog, Apply(Opening, catalog, Apply(SelfClosing, catalog, value)))
  }

  /** `compile`: slots first, then tags; a failing `props` aborts with no output. */
  function Compile(catalog: Catalog, value: string): Result<string, CompileError> {
    match CompileSlots(value)
    case Err(e) => Err(e)
    case Ok(v) => Ok(CompileTags(catalog, v))
  }

  // ---------------------------------------------------------------------
  // Properties of the scan
  // ---------------------------------------------------------------------

  /** No position of `s` starts anything shaped like a tag. */
  predicate TagFree(s: string) {
    forall i :: 0 <= i < |s| ==> !OpensTag(s[i..])
  }

  /**
   * The `<` at `i` cannot begin any tag the passes look for: it is followed
   * by neither `x` nor white space, and after `</` again by neither.
   */
  predicate InertAt(s: string, i: nat)
    requires i < |s|
  {
    i + 1 < |s| && s[i + 1] != 'x' && !IsSpace(s[i + 1])
    && (s[i + 1] == '/' ==> i + 2 < |s| && s[i + 2] != 'x' && !IsSpace(s[i + 2]))
  }

  /** Text whose every `<` is inert: plain text and ordinary markup such as `<div>` or `</p>`. */
  predicate Inert(s: string) {
    forall i :: 0 <= i < |s| && s[i] == '<' ==> InertAt(s, i)
  }

  /** Text without `<` is inert. */
  lemma NoAngleInert(s: string)
    requires NoAngle(s)
    ensures Inert(s)
  {
    forall i | 0 <= i < |s| ensures s[i] != '<' {
      assert s[i] in s;
    }
  }

  /** Inert text stays inert next to inert text. */
  lemma InertConcat(a: string, b: string)
    requires Inert(a) && Inert(b)
    ensures Inert(a + b)
  {
    var s := a + b;
    forall i | 0 <= i < |s| && s[i] == '<' ensures InertAt(s, i) {
      if i < |a| {
        assert s[i] == a[i] && InertAt(a, i);
        assert s[i + 1] == a[i + 1];
        if a[i + 1] == '/' { assert s[i + 2] == a[i + 2]; }
      } else {
        var k := i - |a|;
        assert s[i] == b[k] && InertAt(b, k);
        assert s[i + 1] == b[k + 1];
        if b[k + 1] == '/' { assert s[i + 2] == b[k + 2]; }
      }
    }
  }

  /** No tag starts inside inert text, whatever follows it. */
  lemma InertOpensNoTag(u: string, t: string, i: nat)
    requires Inert(u) && i < |u|
    ensures !OpensTag((u + t)[i..])
  {
    var s := (u + t)[i..];
    assert s[0] == u[i];
    if u[i] == '<' {
      assert InertAt(u, i);
      assert s[1] == u[i + 1];
      if s[1] == '/' {
        assert s[2] == u[i + 2];
        SpanOver(Space, s, 2, 2);
      } else {
        SpanOver(Space, s, 1, 1);
      }
    }
  }

  /** Inert text starts no tag anywhere. */
  lemma InertTagFree(s: string)
    requires Inert(s)
    ensures TagFree(s)
  {
    forall i | 0 <= i < |s| ensures !OpensTag(s[i..]) {
      InertOpensNoTag(s, [], i);
      assert s + [] == s;
    }
  }

  /** `u` in front of a successful output. */
  function Prepend(u: string, r: Result<string, CompileError>): Result<string, CompileError> {
    match r
    case Ok(y) => Ok(u + y)
    case Err(e) => Err(e)
  }

  /** Prepending twice is prepending the concatenation. */
  lemma PrependTwice(a: string, b: string, r: Result<string, CompileError>)
    ensures Prepend(a, Prepend(b, r)) == Prepend(a + b, r)
  {
    match r
    case Ok(y) => assert a + (b + y) == (a + b) + y;
    case Err(e) =>
  }

  /** Prepending nothing changes nothing. */
  lemma PrependNothing(r: Result<string, CompileError>)
    ensures Prepend([], r) == r
  {
    match r
    case Ok(y) => assert [] + y == y;
    case Err(e) =>
  }

  /** Where the pass does not match, the first character is copied. */
  lemma SkipStep(pass: Pass, catalog: Catalog, s: string)
    requires s != [] && Recognize(pass, catalog, s).None?
    ensures Rewrite(pass, catalog, s) == Prepend([s[0]], Rewrite(pass, catalog, s[1..]))
  {
  }

  /** Positions where the pass finds no match are copied one character at a time. */
  lemma {:induction false} RewriteUnmatchedUpTo(pass: Pass, catalog: Catalog, s: string, k: nat)
    requires k <= |s|
    requires forall i :: 0 <= i < k ==> Recognize(pass, catalog, s[i..]).None?
    ensures Rewrite(pass, catalog, s) == Prepend(s[..k], Rewrite(pass, catalog, s[k..]))
  {
    if k == 0 {
      assert s[k..] == s && s[..k] == [];
      PrependNothing(Rewrite(pass, catalog, s));
    } else {
      RewriteUnmatchedUpTo(pass, catalog, s, k - 1);
      CutStep(s, k);
      SkipStep(pass, catalog, s[k - 1..]);
      PrependTwice(s[..k - 1], [s[k - 1]], Rewrite(pass, catalog, s[k..]));
    }
  }

  /** A stretch where the pass matches nowhere is copied and the rest is scanned as on its own. */
  lemma RewriteUnmatchedPrefix(pass: Pass, catalog: Catalog, u: string, t: string)
    requires forall i :: 0 <= i < |u| ==> Recognize(pass, catalog, (u + t)[i..]).None?
    ensures Rewrite(pass, catalog, u + t) == Prepend(u, Rewrite(pass, catalog, t))
  {
    RewriteUnmatchedUpTo(pass, catalog, u + t, |u|);
    assert (u + t)[..|u|] == u && (u + t)[|u|..] == t;
  }

  /** A text in which the pass matches nowhere comes back unchanged. */
  lemma RewriteUnmatched(pass: Pass, catalog: Catalog, s: string)
    requires forall i :: 0 <= i < |s| ==> Recognize(pass, catalog, s[i..]).None?
    ensures Rewrite(pass, catalog, s) == Ok(s)
  {
    RewriteUnmatchedUpTo(pass, catalog, s, |s|);
    assert s[..|s|] == s && s[|s|..] == [];
    assert s + [] == s;
  }

  /** A tag-free `u` in front of `t` is copied and `t` is scanned as on its own. */
  lemma RewritePlainPrefix(pass: Pass, catalog: Catalog, u: string, t: string)
    requires forall i :: 0 <= i < |u| ==> !OpensTag((u + t)[i..])
    ensures Rewrite(pass, catalog, u + t) == Prepend(u, Rewrite(pass, catalog, t))
  {
    RewriteUnmatchedPrefix(pass, catalog, u, t);
  }

  /** Inert text in front of `t` is copied. */
  lemma RewriteInert(pass: Pass, catalog: Catalog, u: string, t: string)
    requires Inert(u)
    ensures Rewrite(pass, catalog, u + t) == Prepend(u, Rewrite(pass, catalog, t))
  {
    forall i | 0 <= i < |u| ensures !OpensTag((u + t)[i..]) {
      InertOpensNoTag(u, t, i);
    }
    RewritePlainPrefix(pass, catalog, u, t);
  }

  /** A match `m` after inert text `u`: `u`, the replacement, then the scan of what follows. */
  lemma ReplaceAfter(pass: Pass, catalog: Catalog, u: string, m: string, t: string, x: string)
    requires Inert(u)
    requires Recognize(pass, catalog, m + t) == Some((|m|, Ok(x)))
    ensures Rewrite(pass, catalog, u + m + t) == Prepend(u + x, Rewrite(pass, catalog, t))
  {
    Regroup3(u, m, t);
    RewriteInert(pass, catalog, u, m + t);
    MatchThen(pass, catalog, m, t, x);
    PrependTwice(u, x, Rewrite(pass, catalog, t));
  }

  /** A match `m` at the start: the replacement, then the scan of what follows. */
  lemma MatchThen(pass: Pass, catalog: Catalog, m: string, t: string, x: string)
    requires Recognize(pass, catalog, m + t) == Some((|m|, Ok(x)))
    ensures Rewrite(pass, catalog, m + t) == Prepend(x, Rewrite(pass, catalog, t))
  {
    AfterPrefix(m, t);
  }

  /** A failing replacement after inert text `u` makes the whole pass fail with it. */
  lemma FailAfter(pass: Pass, catalog: Catalog, u: string, m: string, t: string, e: CompileError)
    requires Inert(u)
    requires Recognize(pass, catalog, m + t) == Some((|m|, Err(e)))
    ensures Rewrite(pass, catalog, u + m + t) == Err(e)
  {
    Regroup3(u, m, t);
    RewriteInert(pass, catalog, u, m + t);
  }

  /** A `<` where the pass does not match, then inert text to the end of `m`: `m` is copied. */
  lemma SkipAfter(pass: Pass, catalog: Catalog, u: string, m: string, t: string)
    requires Inert(u) && m != [] && Inert(m[1..])
    requires Recognize(pass, catalog, m + t).None?
    ensures Rewrite(pass, catalog, u + m + t) == Prepend(u + m, Rewrite(pass, catalog, t))
  {
    Regroup3(u, m, t);
    RewriteInert(pass, catalog, u, m + t);
    SkipThrough(pass, catalog, m, t);
    PrependTwice(u, m, Rewrite(pass, catalog, t));
  }

  /** A `<` where the pass does not match, then inert text to the end of `m`: `m` is copied. */
  lemma SkipThrough(pass: Pass, catalog: Catalog, m: string, t: string)
    requires m != [] && Inert(m[1..])
    requires Recognize(pass, catalog, m + t).None?
    ensures Rewrite(pass, catalog, m + t) == Prepend(m, Rewrite(pass, catalog, t))
  {
    SplitHead(m, t);
    SkipStep(pass, catalog, m + t);
    RewriteInert(pass, catalog, m[1..], t);
    PrependTwice([m[0]], m[1..], Rewrite(pass, catalog, t));
  }

  /** One match between inert stretches: only the match is replaced. */
  lemma ReplaceOne(pass: Pass, catalog: Catalog, a: string, m: string, b: string, x: string)
    requires Inert(a) && Inert(b)
    requires Recognize(pass, catalog, m + b) == Some((|m|, Ok(x)))
    ensures Rewrite(pass, catalog, a + m + b) == Ok(a + x + b)
  {
    ReplaceAfter(pass, catalog, a, m, b, x);
    InertTagFree(b);
    RewriteTagFree(pass, catalog, b);
  }

  /** A `<` the pass does not match, between inert stretches: the text is copied. */
  lemma SkipOne(pass: Pass, catalog: Catalog, a: string, m: string, b: string)
    requires Inert(a) && m != [] && Inert(m[1..]) && Inert(b)
    requires Recognize(pass, catalog, m + b).None?
    ensures Rewrite(pass, catalog, a + m + b) == Ok(a + m + b)
  {
    SkipAfter(pass, catalog, a, m, b);
    InertTagFree(b);
    RewriteTagFree(pass, catalog, b);
  }

  /** Two `<` the pass does not match, among inert stretches: the text is copied. */
  lemma SkipTwo(pass: Pass, catalog: Catalog, a: string, m1: string, c: string, m2: string, b: string)
    requires Inert(a) && m1 != [] && Inert(m1[1..]) && Inert(c) && m2 != [] && Inert(m2[1..]) && Inert(b)
    requires Recognize(pass, catalog, m1 + (c + m2 + b)).None?
    requires Recognize(pass, catalog, m2 + b).None?
    ensures Rewrite(pass, catalog, a + m1 + c + m2 + b) == Ok(a + m1 + c + m2 + b)
  {
    Regroup5(a, m1, c, m2, b);
    SkipAfter(pass, catalog, a, m1, c + m2 + b);
    SkipOne(pass, catalog, c, m2, b);
  }

  /** A match, inert text, then a `<` the pass does not match: only the match is replaced. */
  lemma ReplaceThenSkip(pass: Pass, catalog: Catalog, a: string, m1: string, c: string, m2: string, b: string, x: string)
    requires Inert(a) && Inert(c) && m2 != [] && Inert(m2[1..]) && Inert(b)
    requires Recognize(pass, catalog, m1 + (c + m2 + b)) == Some((|m1|, Ok(x)))
    requires Recognize(pass, catalog, m2 + b).None?
    ensures Rewrite(pass, catalog, a + m1 + c + m2 + b) == Ok(a + x + c + m2 + b)
  {
    Regroup5(a, m1, c, m2, b);
    Regroup5(a, x, c, m2, b);
    ReplaceAfter(pass, catalog, a, m1, c + m2 + b, x);
    SkipOne(pass, catalog, c, m2, b);
  }

  /** A text with no tag is returned unchanged by every pass. */
  lemma RewriteTagFree(pass: Pass, catalog: Catalog, s: string)
    requires TagFree(s)
    ensures Rewrite(pass, catalog, s) == Ok(s)
  {
    RewriteUnmatched(pass, catalog, s);
  }

  /** No tag, no change: `compile` is the identity on tag-free text. */
  lemma CompileTagFree(catalog: Catalog, s: string)
    requires TagFree(s)
    ensures Compile(catalog, s) == Ok(s)
  {
    RewriteTagFree(SlotOpen, catalog, s);
    RewriteTagFree(SlotOpen, [], s);
    RewriteTagFree(SlotClose, [], s);
    RewriteTagFree(SelfClosing, catalog, s);
    RewriteTagFree(Opening, catalog, s);
    RewriteTagFree(Closing, catalog, s);
  }

  /** Running the compiler again on an output that holds no tag changes nothing. */
  lemma CompileIdempotentOnTagFreeOutput(catalog: Catalog, s: string)
    requires Compile(catalog, s).Ok? && TagFree(Compile(catalog, s).value)
    ensures Compile(catalog, Compile(catalog, s).value) == Compile(catalog, s)
  {
    CompileTagFree(catalog, Compile(catalog, s).value);
  }
}
