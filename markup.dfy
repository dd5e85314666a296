/**
 * Well-formed markup and what the compiler makes of it: attribute lists
 * written `name="text"`, self-closing and paired component tags, and slots.
 * The lemmas here follow a tag through the pattern, the attribute extractor,
 * the path resolver and every pass, and state the exact output.
 */
module Markup {
  import opened Text
  import opened Attributes
  import opened Paths
  import opened Patterns
  import opened Compiler

  /** An attribute written `name="text"`. */
  datatype Attr = Attr(name: string, text: string)

  /**
   * A name of the class `[\w-:.]` (so a leading `:` marks it bound), a text
   * with no `"` (the quoted alternative stops at the first one) and no `<`
   * (so no later pass finds a tag inside it).
   */
  predicate WellFormed(a: Attr) {
    a.name != [] && All(Name, a.name) && All(Except('"'), a.text) && NoAngle(a.text)
  }

  /** Every attribute of the run is well formed. */
  predicate AllWellFormed(attrs: seq<Attr>) {
    forall i :: 0 <= i < |attrs| ==> WellFormed(attrs[i])
  }

  /** ` name="text"`, as the attribute group of a tag pattern captures it. */
  function AttrText(a: Attr): string {
    " " + a.name + "=\"" + a.text + "\""
  }

  /** The text of an attribute run, in order. */
  function Quoted(attrs: seq<Attr>): string {
    if attrs == [] then [] else AttrText(attrs[0]) + Quoted(attrs[1..])
  }

  /**
   * Reference definition of the record the extractor builds: every attribute
   * in order is typed and written into the record, an empty text counting as
   * no value.
   */
  function Typed(attrs: seq<Attr>, acc: AttrMap): AttrMap
    requires AllWellFormed(attrs)
  {
    if attrs == [] then acc
    else
      var e := Classify(attrs[0].name, if attrs[0].text == [] then None else Some(attrs[0].text));
      Typed(attrs[1..], Put(acc, e.key, e.value))
  }

  /** The first attribute is typed and written into the record before the rest. */
  lemma TypedFirst(a: Attr, rest: seq<Attr>, acc: AttrMap, e: Entry)
    requires WellFormed(a) && AllWellFormed(rest)
    requires e == Classify(a.name, if a.text == [] then None else Some(a.text))
    ensures AllWellFormed([a] + rest)
    ensures Typed([a] + rest, acc) == Typed(rest, Put(acc, e.key, e.value))
  {
    var attrs := [a] + rest;
    assert attrs[0] == a && attrs[1..] == rest;
    assert AllWellFormed(attrs) by {
      forall i | 0 <= i < |attrs| ensures WellFormed(attrs[i]) {
        if i > 0 { assert attrs[i] == rest[i - 1]; }
      }
    }
  }

  /** The head and the tail of a well-formed run are well formed. */
  lemma WellFormedTail(attrs: seq<Attr>)
    requires AllWellFormed(attrs) && attrs != []
    ensures WellFormed(attrs[0]) && AllWellFormed(attrs[1..])
  {
    forall i | 0 <= i < |attrs[1..]| ensures WellFormed(attrs[1..][i]) { assert attrs[1..][i] == attrs[i + 1]; }
  }

  /** `s` holds `x` from position `j` on. */
  predicate At(s: string, j: nat, x: string) {
    j + |x| <= |s| && s[j..j + |x|] == x
  }

  /** Where the first three of four concatenated pieces sit. */
  lemma AtPieces(a: string, b: string, c: string, d: string)
    ensures At(a + b + c + d, 0, a) && At(a + b + c + d, |a|, b) && At(a + b + c + d, |a| + |b|, c)
    ensures |a + b + c| == |a| + |b| + |c|
  {
    var s := a + b + c + d;
    assert s[0..|a|] == a;
    assert s[|a|..|a| + |b|] == b;
    assert s[|a| + |b|..|a| + |b| + |c|] == c;
  }

  /** A run of class `k` that `s` holds at `j` and that is not followed by one more is the span there. */
  lemma RunAt(k: CharClass, s: string, j: nat, x: string)
    requires At(s, j, x) && All(k, x) && (j + |x| < |s| ==> !InClass(k, s[j + |x|]))
    ensures Span(k, s, j) == j + |x|
  {
    forall i | j <= i < j + |x| ensures InClass(k, s[i]) { assert s[i] == s[j..j + |x|][i - j] == x[i - j]; }
    SpanOver(k, s, j, j + |x|);
  }

  /** A character of a piece that `s` holds. */
  lemma AtIndex(s: string, j: nat, x: string, k: nat)
    requires At(s, j, x) && k < |x|
    ensures s[j + k] == x[k]
  {
    assert s[j..j + |x|][k] == x[k];
  }

  /** A held concatenation holds each part in turn. */
  lemma AtSplit(s: string, j: nat, x: string, y: string)
    requires At(s, j, x + y)
    ensures At(s, j, x) && At(s, j + |x|, y)
  {
    assert s[j..j + |x|] == s[j..j + |x + y|][..|x|];
    assert s[j + |x|..j + |x| + |y|] == s[j..j + |x + y|][|x|..];
  }

  /** A run of name characters holds no `<`. */
  lemma NameNotAngle(n: string)
    requires All(Name, n)
    ensures NoAngle(n)
  {
    forall j | 0 <= j < |n| ensures n[j] != '<' {
      assert InClass(Name, n[j]);
    }
  }

  /** The characters of one attribute, position by position. */
  lemma AttrChars(s: string, j: nat, a: Attr)
    requires At(s, j, AttrText(a))
    ensures |AttrText(a)| == |a.name| + |a.text| + 4
    ensures s[j] == ' ' && s[j + 1 + |a.name|] == '=' && s[j + 2 + |a.name|] == '"'
    ensures s[j + 3 + |a.name| + |a.text|] == '"'
    ensures forall k :: 0 <= k < |a.name| ==> s[j + 1 + k] == a.name[k]
    ensures forall k :: 0 <= k < |a.text| ==> s[j + 3 + |a.name| + k] == a.text[k]
  {
    var x := AttrText(a);
    var n := |a.name|;
    assert forall k :: 0 <= k < |x| ==> s[j + k] == x[k] by {
      forall k | 0 <= k < |x| ensures s[j + k] == x[k] {
        assert s[j..j + |x|][k] == s[j + k];
      }
    }
    assert x[0] == ' ' && x[1 + n] == '=' && x[2 + n] == '"';
    assert x[3 + n + |a.text|] == '"';
    forall k | 0 <= k < n ensures s[j + 1 + k] == a.name[k] { assert x[1 + k] == a.name[k]; }
    forall k | 0 <= k < |a.text| ensures s[j + 3 + n + k] == a.text[k] { assert x[3 + n + k] == a.text[k]; }
  }

  /** The pieces of one attribute as the patterns see them. */
  lemma AttrLayout(s: string, j: nat, a: Attr)
    requires WellFormed(a) && At(s, j, AttrText(a))
    ensures |AttrText(a)| == |a.name| + |a.text| + 4
    ensures AttrPositions(s, j, |a.name|, |a.text|)
    ensures s[j + 1..j + 1 + |a.name|] == a.name
    ensures s[j + 3 + |a.name|..j + 3 + |a.name| + |a.text|] == a.text
  {
    AttrChars(s, j, a);
    var n := |a.name|;
    var m := |a.text|;
    assert s[j + 1] == a.name[0];
    NameCharIsNot(a.name[0]);
    assert s[j + 1..j + 1 + n] == a.name;
    assert s[j + 3 + n..j + 3 + n + m] == a.text;
    forall k | j + 1 <= k < j + 1 + n ensures InClass(Name, s[k]) {
      assert s[k] == a.name[k - j - 1];
    }
    SpanOver(Name, s, j + 1, j + 1 + n);
    forall k | j + 3 + n <= k < j + 3 + n + m ensures InClass(Except('"'), s[k]) {
      assert s[k] == a.text[k - j - 3 - n];
    }
    SpanOver(Except('"'), s, j + 3 + n, j + 3 + n + m);
    SpanOver(Space, s, j, j + 1);
  }

  /** A name character is neither white space nor `@`, `/`, `>`, `=`, `"` or `<`. */
  lemma NameCharIsNot(c: char)
    requires IsNameChar(c)
    ensures !IsSpace(c) && c != '@' && c != '/' && c != '>' && c != '=' && c != '"' && c != '<'
  {
  }

  /**
   * The positions the patterns look at in ` name="text"` at `j`, with a
   * name of length `n` and a text of length `m`.
   */
  predicate AttrPositions(s: string, j: nat, n: nat, m: nat) {
    j + n + m + 4 <= |s| && 0 < n
    && s[j] == ' ' && IsNameChar(s[j + 1]) && s[j + 1] != '@' && !IsSpace(s[j + 1])
    && s[j + 1] != '/' && s[j + 1] != '>'
    && Span(Space, s, j) == j + 1
    && Span(Name, s, j + 1) == j + 1 + n
    && s[j + 1 + n] == '=' && s[j + 2 + n] == '"'
    && Span(Except('"'), s, j + 3 + n) == j + 3 + n + m
    && s[j + 3 + n + m] == '"'
  }

  /** The quoted value: it leads to the list after its closing quote, or nowhere. */
  lemma ValueQuoted(s: string, j: nat, n: nat, m: nat, e: nat, closer: Closer)
    requires AttrPositions(s, j, n, m) && e == j + n + m + 4
    ensures ValueThen(s, j, j + 2 + n, closer) == ListThenCloser(s, e, closer)
  {
    var v := j + 2 + n;
    assert Span(Except(s[v]), s, v + 1) == e - 1;
    SpanOver(Bare, s, v, v);
    assert BareThen(s, j, v, v, closer) == None;
  }

  /** The name followed by `=`: its value alternatives, or else the list right after the name. */
  lemma AttributeNamed(s: string, j: nat, n: nat, m: nat, closer: Closer)
    requires AttrPositions(s, j, n, m)
    ensures AttributeThen(s, j, j + 1, closer) ==
      if ValueThen(s, j, j + 2 + n, closer).Some? then ValueThen(s, j, j + 2 + n, closer) else ListThenCloser(s, j + 1 + n, closer)
  {
  }

  /** At the `=` neither another attribute nor a closer can start. */
  lemma ListAtEquals(s: string, j: nat, n: nat, m: nat, closer: Closer)
    requires AttrPositions(s, j, n, m)
    ensures ListThenCloser(s, j + 1 + n, closer) == None
  {
    SpanOver(Space, s, j + 1 + n, j + 1 + n);
  }

  /** The blank before the name: the list is that attribute or nothing. */
  lemma ListAtBlank(s: string, j: nat, n: nat, m: nat, closer: Closer)
    requires AttrPositions(s, j, n, m)
    ensures ListThenCloser(s, j, closer) == AttributeThen(s, j, j + 1, closer)
  {
  }

  /** One attribute of a tag: the list across it is the list after it. */
  lemma ListStep(s: string, j: nat, n: nat, m: nat, e: nat, closer: Closer)
    requires AttrPositions(s, j, n, m) && e == j + n + m + 4
    ensures ListThenCloser(s, j, closer) == ListThenCloser(s, e, closer)
  {
    ValueQuoted(s, j, n, m, e, closer);
    AttributeNamed(s, j, n, m, closer);
    ListAtEquals(s, j, n, m, closer);
    ListAtBlank(s, j, n, m, closer);
  }

  /** One well-formed attribute of a tag: the list across it is the list after it. */
  lemma ListOverAttr(s: string, j: nat, e: nat, a: Attr, closer: Closer)
    requires WellFormed(a) && At(s, j, AttrText(a)) && e == j + |AttrText(a)|
    ensures ListThenCloser(s, j, closer) == ListThenCloser(s, e, closer)
  {
    AttrLayout(s, j, a);
    ListStep(s, j, |a.name|, |a.text|, e, closer);
  }

  /**
   * A run of well-formed attributes is read exactly as written: the tag
   * pattern's attribute list across it behaves as the list that starts
   * right after it, whether that one succeeds or not.
   */
  lemma {:induction false} ListOfQuoted(s: string, j: nat, e: nat, attrs: seq<Attr>, closer: Closer)
    requires AllWellFormed(attrs) && At(s, j, Quoted(attrs)) && e == j + |Quoted(attrs)|
    ensures ListThenCloser(s, j, closer) == ListThenCloser(s, e, closer)
    decreases |attrs|
  {
    if attrs != [] {
      var a := attrs[0];
      AtSplit(s, j, AttrText(a), Quoted(attrs[1..]));
      WellFormedTail(attrs);
      var next := j + |AttrText(a)|;
      ListOfQuoted(s, next, e, attrs[1..], closer);
      ListOverAttr(s, j, next, a, closer);
    }
  }

  /** One attribute of the extractor's input: its token, and where the next search starts. */
  lemma TokenStep(t: string, j: nat, a: Attr)
    requires WellFormed(a) && At(t, j, AttrText(a))
    ensures NextToken(t, j) == Some(Token(a.name, if a.text == [] then None else Some(a.text), j + |AttrText(a)|))
  {
    AttrLayout(t, j, a);
    TokenOfQuoted(t, j, |a.name|, |a.text|);
  }

  /** A double-quoted value of `m` characters at `v`. */
  lemma ValueOfQuoted(t: string, v: nat, m: nat)
    requires v + m + 2 <= |t| && t[v] == '"' && t[v + 1 + m] == '"'
    requires Span(Except('"'), t, v + 1) == v + 1 + m
    ensures ValueAt(t, v) == Some((t[v + 1..v + 1 + m], v + m + 2))
  {
  }

  /** The token for an attribute laid out at `j`. */
  lemma TokenOfQuoted(t: string, j: nat, n: nat, m: nat)
    requires AttrPositions(t, j, n, m)
    ensures NextToken(t, j) == Some(Token(t[j + 1..j + 1 + n], if m == 0 then None else Some(t[j + 3 + n..j + 3 + n + m]), j + n + m + 4))
  {
    ValueOfQuoted(t, j + 2 + n, m);
    assert TokenAt(t, j) == Some(Token(t[j + 1..j + 1 + n], if m == 0 then None else Some(t[j + 3 + n..j + 3 + n + m]), j + n + m + 4));
  }

  /** One attribute of the extractor's input is typed and written into the record. */
  lemma ScanStep(t: string, j: nat, next: nat, a: Attr, acc: AttrMap, e: Entry, record: AttrMap)
    requires WellFormed(a) && At(t, j, AttrText(a)) && next == j + |AttrText(a)|
    requires e == Classify(a.name, if a.text == [] then None else Some(a.text))
    requires record == Put(acc, e.key, e.value)
    ensures ScanFrom(t, j, acc) == ScanFrom(t, next, record)
  {
    TokenStep(t, j, a);
  }

  /**
   * The extractor reads a run of well-formed attributes that ends its input
   * into the reference record.
   */
  lemma {:induction false} ScanOfQuoted(t: string, j: nat, attrs: seq<Attr>, acc: AttrMap)
    requires AllWellFormed(attrs) && At(t, j, Quoted(attrs)) && j + |Quoted(attrs)| == |t|
    ensures ScanFrom(t, j, acc) == Typed(attrs, acc)
    decreases |attrs|
  {
    if attrs == [] {
      ScanAtEnd(t, acc);
    } else {
      var a := attrs[0];
      AtSplit(t, j, AttrText(a), Quoted(attrs[1..]));
      WellFormedTail(attrs);
      var e := Classify(a.name, if a.text == [] then None else Some(a.text));
      var next, record := j + |AttrText(a)|, Put(acc, e.key, e.value);
      ScanOfQuoted(t, next, attrs[1..], record);
      ScanThenTyped(t, j, next, attrs, acc, e, record);
    }
  }

  /** The inductive step: the first attribute, then the rest as the scan from after it. */
  lemma ScanThenTyped(t: string, j: nat, next: nat, attrs: seq<Attr>, acc: AttrMap, e: Entry, record: AttrMap)
    requires AllWellFormed(attrs) && attrs != [] && At(t, j, AttrText(attrs[0]))
    requires e == Classify(attrs[0].name, if attrs[0].text == [] then None else Some(attrs[0].text))
    requires next == j + |AttrText(attrs[0])| <= |t| && record == Put(acc, e.key, e.value)
    requires ScanFrom(t, next, record) == Typed(attrs[1..], record)
    ensures ScanFrom(t, j, acc) == Typed(attrs, acc)
  {
    ScanStep(t, j, next, attrs[0], acc, e, record);
    TypedHead(attrs, acc, e, record);
  }

  /** At the end of its input the extractor adds nothing. */
  lemma ScanAtEnd(t: string, acc: AttrMap)
    ensures ScanFrom(t, |t|, acc) == acc
  {
  }

  /** The reference record after the first attribute of a run. */
  lemma TypedHead(attrs: seq<Attr>, acc: AttrMap, e: Entry, record: AttrMap)
    requires AllWellFormed(attrs) && attrs != []
    requires e == Classify(attrs[0].name, if attrs[0].text == [] then None else Some(attrs[0].text))
    requires record == Put(acc, e.key, e.value)
    ensures AllWellFormed(attrs[1..])
    ensures Typed(attrs, acc) == Typed(attrs[1..], record)
  {
    WellFormedTail(attrs);
  }

  /** `getAttributesFromAttributeString` of a well-formed attribute run is the reference record. */
  lemma AttributesOfQuoted(attrs: seq<Attr>)
    requires AllWellFormed(attrs)
    ensures AttributesOf(Quoted(attrs)) == Typed(attrs, [])
  {
    if attrs != [] {
      var q := Quoted(attrs);
      var t := " " + q;
      assert At(t, 1, q) by { assert t[1..1 + |q|] == q; }
      assert q[0] == AttrText(attrs[0])[0] == ' ';
      assert t[1] == ' ';
      assert TokenAt(t, 0) == None;
      assert NextToken(t, 0) == NextToken(t, 1);
      ScanOfQuoted(t, 1, attrs, []);
    } else {
      assert Quoted(attrs) == [];
    }
  }

  // ---------------------------------------------------------------------
  // Component tags
  // ---------------------------------------------------------------------

  /** `<x-name attrs />`. */
  function SelfClosingTag(name: string, attrs: seq<Attr>): string {
    "<x-" + name + Quoted(attrs) + " />"
  }

  /** `<x-name attrs>`. */
  function OpeningTag(name: string, attrs: seq<Attr>): string {
    "<x-" + name + Quoted(attrs) + ">"
  }

  /** `</x-name>`. */
  function ClosingTagText(name: string): string {
    "</x-" + name + ">"
  }

  /** A name character can neither start nor follow white space in the list, nor close it. */
  lemma ListAtNameChar(s: string, k: nat, closer: Closer)
    requires k < |s| && IsNameChar(s[k])
    ensures ListThenCloser(s, k, closer) == None
  {
    NameCharIsNot(s[k]);
    SpanOver(Space, s, k, k);
  }

  /** ` />` ends the self-closing pattern's list and does not end the opening one's. */
  lemma ListAtSlashAngle(s: string, p: nat)
    requires p + 3 <= |s| && s[p] == ' ' && s[p + 1] == '/' && s[p + 2] == '>'
    ensures ListThenCloser(s, p, SlashAngle) == Some(Parse(p, p + 3))
  {
    SpanOver(Space, s, p, p + 1);
    SpanOver(Space, s, p + 1, p + 1);
  }

  /** `>` ends the opening pattern's list and not the self-closing one's. */
  lemma ListAtAngle(s: string, p: nat)
    requires p < |s| && s[p] == '>'
    ensures ListThenCloser(s, p, Angle) == Some(Parse(p, p + 1))
    ensures ListThenCloser(s, p, SlashAngle) == None
  {
    SpanOver(Space, s, p, p);
  }

  /** `<x-` and a name ended by a character outside the name class, at the start of `s`. */
  predicate TagHeadAt(s: string, name: string) {
    All(Name, name) && At(s, 0, "<x-" + name) && 3 + |name| < |s| && !IsNameChar(s[3 + |name|])
  }

  /** After the head, the pattern is decided by the attribute list and the closer. */
  lemma TagHead(s: string, name: string, closer: Closer)
    requires TagHeadAt(s, name)
    ensures var q := 3 + |name|;
      ComponentTag(s, closer) ==
        match LeadThen(s, q, Span(Space, s, q), closer)
        case None => None
        case Some((a, p)) => Some(TagMatch(name, s[a..p.attrsEnd], p.end))
  {
    var h := "<x-" + name;
    var q := 3 + |name|;
    assert forall k :: 0 <= k < |h| ==> s[k] == h[k] by {
      forall k | 0 <= k < |h| ensures s[k] == h[k] { assert s[0..|h|][k] == s[k]; }
    }
    assert s[0] == '<' && s[1] == 'x' && s[2] == '-';
    SpanOver(Space, s, 1, 1);
    forall k | 3 <= k < q ensures InClass(Name, s[k]) { assert s[k] == h[k] == name[k - 3]; }
    SpanOver(Name, s, 3, q);
    assert s[3..q] == name by {
      forall k | 0 <= k < |name| ensures s[3 + k] == name[k] { assert h[3 + k] == name[k]; }
    }
  }

  /** A successful attribute list and closer after the head give the match. */
  lemma TagHeadSome(s: string, name: string, closer: Closer, a: nat, r: Parse)
    requires TagHeadAt(s, name)
    requires LeadThen(s, 3 + |name|, Span(Space, s, 3 + |name|), closer) == Some((a, r))
    ensures a <= r.attrsEnd <= |s|
    ensures ComponentTag(s, closer) == Some(TagMatch(name, s[a..r.attrsEnd], r.end))
  {
    TagHead(s, name, closer);
  }

  /** A failing attribute list or closer after the head: no match. */
  lemma TagHeadNone(s: string, name: string, closer: Closer)
    requires TagHeadAt(s, name)
    requires LeadThen(s, 3 + |name|, Span(Space, s, 3 + |name|), closer) == None
    ensures ComponentTag(s, closer) == None
  {
    TagHead(s, name, closer);
  }

  /**
   * The pieces of a tag in `s`: `<x-`, the name, the attribute run and the
   * closing text, one after the other from the start.
   */
  predicate TagLayout(s: string, name: string, attrs: seq<Attr>, closing: string) {
    var q := 3 + |name|;
    AllWellFormed(attrs) && All(Name, name) && closing != []
    && At(s, 0, "<x-" + name) && At(s, q, Quoted(attrs)) && At(s, q + |Quoted(attrs)|, closing)
    && s[q] == (if attrs == [] then closing[0] else ' ')
    && (attrs != [] ==> IsNameChar(s[q + 1]))
  }

  /** Where the pieces of a tag sit in `tag + rest`. */
  lemma TagPieces(name: string, attrs: seq<Attr>, closing: string, rest: string)
    requires AllWellFormed(attrs) && All(Name, name) && closing != []
    ensures TagLayout("<x-" + name + Quoted(attrs) + closing + rest, name, attrs, closing)
    ensures |"<x-" + name + Quoted(attrs) + closing| == 3 + |name| + |Quoted(attrs)| + |closing|
  {
    var s := "<x-" + name + Quoted(attrs) + closing + rest;
    var q := 3 + |name|;
    var qa := Quoted(attrs);
    AtPieces("<x-" + name, qa, closing, rest);
    if attrs == [] {
      AtIndex(s, q, closing, 0);
    } else {
      var a := AttrText(attrs[0]);
      assert qa == a + Quoted(attrs[1..]);
      assert qa[0] == a[0] == ' ' && qa[1] == a[1] == attrs[0].name[0];
      AtIndex(s, q, qa, 0);
      AtIndex(s, q, qa, 1);
      assert WellFormed(attrs[0]);
    }
  }

  /** `/>` right away ends the self-closing pattern's list. */
  lemma ListAtSlash(s: string, p: nat)
    requires p + 2 <= |s| && s[p] == '/' && s[p + 1] == '>'
    ensures ListThenCloser(s, p, SlashAngle) == Some(Parse(p, p + 2))
  {
    SpanOver(Space, s, p, p);
  }

  /**
   * Before a non-empty attribute run the leading `\s*` gives back its one
   * blank, and the list across the run ends where the run ends.
   */
  lemma LeadOverQuoted(s: string, name: string, attrs: seq<Attr>, q: nat, p: nat, closer: Closer)
    requires QuotedTagAt(s, name, attrs, q, p)
    ensures LeadThen(s, q, Span(Space, s, q), closer) ==
      if ListThenCloser(s, p, closer).Some? then Some((q, ListThenCloser(s, p, closer).value)) else None
  {
    NameCharIsNot(s[q + 1]);
    SpanOver(Space, s, q, q + 1);
    ListAtNameChar(s, q + 1, closer);
    ListOfQuoted(s, q, p, attrs, closer);
    assert LeadThen(s, q, q + 1, closer) == LeadThen(s, q, q, closer);
  }

  /** The head of a tag with a non-empty attribute run located in `s`, the run ending at `p`. */
  predicate QuotedTagAt(s: string, name: string, attrs: seq<Attr>, q: nat, p: nat) {
    AllWellFormed(attrs) && attrs != [] && TagHeadAt(s, name) && q == 3 + |name|
    && At(s, q, Quoted(attrs)) && p == q + |Quoted(attrs)|
    && q + 1 < |s| && s[q] == ' ' && IsNameChar(s[q + 1])
  }

  /** `<x-name />` at the start of `s`: the attribute list is empty and ends before `/>`. */
  lemma BareSelfClosingLead(s: string, q: nat)
    requires q + 3 <= |s| && s[q] == ' ' && s[q + 1] == '/' && s[q + 2] == '>'
    ensures LeadThen(s, q, Span(Space, s, q), SlashAngle) == Some((q + 1, Parse(q + 1, q + 3)))
  {
    SpanOver(Space, s, q, q + 1);
    ListAtSlash(s, q + 1);
  }

  /** `<x-name attrs />`: the list runs over the attributes and ends before ` />`. */
  lemma QuotedSelfClosingLead(s: string, name: string, attrs: seq<Attr>, q: nat, p: nat)
    requires QuotedTagAt(s, name, attrs, q, p)
    requires p + 3 <= |s| && s[p] == ' ' && s[p + 1] == '/' && s[p + 2] == '>'
    ensures LeadThen(s, q, Span(Space, s, q), SlashAngle) == Some((q, Parse(p, p + 3)))
  {
    LeadOverQuoted(s, name, attrs, q, p, SlashAngle);
    ListAtSlashAngle(s, p);
  }

  /** `<x-name>`: the attribute list is empty; only the opening closer fits. */
  lemma BareOpeningLead(s: string, q: nat, closer: Closer)
    requires q < |s| && s[q] == '>'
    ensures LeadThen(s, q, Span(Space, s, q), closer) == if closer == Angle then Some((q, Parse(q, q + 1))) else None
  {
    ListAtAngle(s, q);
    SpanOver(Space, s, q, q);
  }

  /** `<x-name attrs>`: the list runs over the attributes; only the opening closer fits. */
  lemma QuotedOpeningLead(s: string, name: string, attrs: seq<Attr>, q: nat, p: nat, closer: Closer)
    requires QuotedTagAt(s, name, attrs, q, p)
    requires p < |s| && s[p] == '>'
    ensures LeadThen(s, q, Span(Space, s, q), closer) == if closer == Angle then Some((q, Parse(p, p + 1))) else None
  {
    LeadOverQuoted(s, name, attrs, q, p, closer);
    ListAtAngle(s, p);
  }

  /** A successful list over a located non-empty run gives the run as the attributes group. */
  lemma QuotedTagMatch(s: string, name: string, attrs: seq<Attr>, q: nat, p: nat, closer: Closer, e: nat)
    requires QuotedTagAt(s, name, attrs, q, p)
    requires LeadThen(s, q, Span(Space, s, q), closer) == Some((q, Parse(p, e)))
    ensures ComponentTag(s, closer) == Some(TagMatch(name, Quoted(attrs), e))
  {
    assert s[q..p] == Quoted(attrs);
    TagHeadSome(s, name, closer, q, Parse(p, e));
  }

  /** `<x-name />` located in `s`. */
  lemma BareSelfClosingIn(s: string, name: string, len: nat)
    requires TagHeadAt(s, name) && len == 6 + |name|
    requires 6 + |name| <= |s| && s[3 + |name|] == ' ' && s[4 + |name|] == '/' && s[5 + |name|] == '>'
    ensures ComponentTag(s, SlashAngle) == Some(TagMatch(name, [], len))
  {
    var q := 3 + |name|;
    BareSelfClosingLead(s, q);
    assert s[q + 1..q + 1] == [];
    TagHeadSome(s, name, SlashAngle, q + 1, Parse(q + 1, len));
  }

  /** `<x-name attrs />` with a non-empty run located in `s`. */
  lemma QuotedSelfClosingIn(s: string, name: string, attrs: seq<Attr>, p: nat, len: nat)
    requires QuotedTagAt(s, name, attrs, 3 + |name|, p) && len == p + 3
    requires p + 3 <= |s| && s[p] == ' ' && s[p + 1] == '/' && s[p + 2] == '>'
    ensures ComponentTag(s, SlashAngle) == Some(TagMatch(name, Quoted(attrs), len))
  {
    var q := 3 + |name|;
    QuotedSelfClosingLead(s, name, attrs, q, p);
    QuotedTagMatch(s, name, attrs, q, p, SlashAngle, len);
  }

  /** `<x-name>` located in `s`. */
  lemma BareOpeningIn(s: string, name: string, len: nat)
    requires TagHeadAt(s, name) && len == 4 + |name| && s[3 + |name|] == '>'
    ensures ComponentTag(s, Angle) == Some(TagMatch(name, [], len))
    ensures ComponentTag(s, SlashAngle) == None
  {
    var q := 3 + |name|;
    BareOpeningLead(s, q, Angle);
    BareOpeningLead(s, q, SlashAngle);
    assert s[q..q] == [];
    TagHeadSome(s, name, Angle, q, Parse(q, len));
    TagHeadNone(s, name, SlashAngle);
  }

  /** `<x-name attrs>` with a non-empty run located in `s`: the opening pattern matches it. */
  lemma QuotedOpeningIn(s: string, name: string, attrs: seq<Attr>, p: nat, len: nat)
    requires QuotedTagAt(s, name, attrs, 3 + |name|, p) && len == p + 1
    requires p < |s| && s[p] == '>'
    ensures ComponentTag(s, Angle) == Some(TagMatch(name, Quoted(attrs), len))
  {
    var q := 3 + |name|;
    QuotedOpeningLead(s, name, attrs, q, p, Angle);
    QuotedTagMatch(s, name, attrs, q, p, Angle, len);
  }

  /** `<x-name attrs>` with a non-empty run located in `s`: the self-closing pattern does not match it. */
  lemma QuotedOpeningNotSelfClosing(s: string, name: string, attrs: seq<Attr>, p: nat)
    requires QuotedTagAt(s, name, attrs, 3 + |name|, p)
    requires p < |s| && s[p] == '>'
    ensures ComponentTag(s, SlashAngle) == None
  {
    QuotedOpeningLead(s, name, attrs, 3 + |name|, p, SlashAngle);
    TagHeadNone(s, name, SlashAngle);
  }

  /** The self-closing pattern on a located `<x-name attrs />`. */
  lemma SelfClosingIn(s: string, name: string, attrs: seq<Attr>, len: nat)
    requires TagLayout(s, name, attrs, " />") && len == 6 + |name| + |Quoted(attrs)|
    ensures ComponentTag(s, SlashAngle) == Some(TagMatch(name, Quoted(attrs), len))
  {
    var q := 3 + |name|;
    var p := q + |Quoted(attrs)|;
    assert s[p] == ' ' && s[p + 1] == '/' && s[p + 2] == '>' by {
      assert s[p..p + 3][0] == s[p] && s[p..p + 3][1] == s[p + 1] && s[p..p + 3][2] == s[p + 2];
    }
    if attrs == [] {
      assert Quoted(attrs) == [];
      BareSelfClosingIn(s, name, len);
    } else {
      QuotedSelfClosingIn(s, name, attrs, p, len);
    }
  }

  /** Both component patterns on a located `<x-name attrs>`. */
  lemma OpeningIn(s: string, name: string, attrs: seq<Attr>, len: nat)
    requires TagLayout(s, name, attrs, ">") && len == 4 + |name| + |Quoted(attrs)|
    ensures ComponentTag(s, Angle) == Some(TagMatch(name, Quoted(attrs), len))
    ensures ComponentTag(s, SlashAngle) == None
  {
    var q := 3 + |name|;
    var p := q + |Quoted(attrs)|;
    assert s[p] == '>' by { assert s[p..p + 1][0] == s[p]; }
    if attrs == [] {
      assert Quoted(attrs) == [];
      BareOpeningIn(s, name, len);
    } else {
      QuotedOpeningIn(s, name, attrs, p, len);
      QuotedOpeningNotSelfClosing(s, name, attrs, p);
    }
  }

  /** The self-closing pattern matches the whole tag, its attribute group being the attributes as written. */
  lemma SelfClosingMatches(name: string, attrs: seq<Attr>, rest: string)
    requires AllWellFormed(attrs) && All(Name, name)
    ensures ComponentTag(SelfClosingTag(name, attrs) + rest, SlashAngle)
      == Some(TagMatch(name, Quoted(attrs), |SelfClosingTag(name, attrs)|))
  {
    TagPieces(name, attrs, " />", rest);
    SelfClosingIn(SelfClosingTag(name, attrs) + rest, name, attrs, |SelfClosingTag(name, attrs)|);
  }

  /** The opening pattern matches the whole tag; the self-closing pattern does not match it at all. */
  lemma OpeningMatches(name: string, attrs: seq<Attr>, rest: string)
    requires AllWellFormed(attrs) && All(Name, name)
    ensures ComponentTag(OpeningTag(name, attrs) + rest, Angle)
      == Some(TagMatch(name, Quoted(attrs), |OpeningTag(name, attrs)|))
    ensures ComponentTag(OpeningTag(name, attrs) + rest, SlashAngle) == None
  {
    TagPieces(name, attrs, ">", rest);
    OpeningIn(OpeningTag(name, attrs) + rest, name, attrs, |OpeningTag(name, attrs)|);
  }

  /**
   * Why `compileTags` runs the self-closing pass first: the opening pattern
   * also takes `<x-a b=c/>`, reading the unquoted value as `c/`, while the
   * self-closing pattern gives that `/` back and reads the value `c`.
   */
  lemma OpeningTakesSelfClosing()
    ensures ComponentTag("<x-a b=c/>", Angle) == Some(TagMatch("a", " b=c/", 10))
    ensures ComponentTag("<x-a b=c/>", SlashAngle) == Some(TagMatch("a", " b=c", 10))
  {
    var s := "<x-a b=c/>";
    SlashedSpans(s);
    OpeningReadsSlash(s);
    SelfClosingGivesSlashBack(s);
  }

  /** The runs of `<x-a b=c/>`. */
  lemma SlashedSpans(s: string)
    requires s == "<x-a b=c/>"
    ensures TagHeadAt(s, "a")
    ensures Span(Space, s, 4) == 5 && Span(Space, s, 5) == 5 && Span(Name, s, 5) == 6
    ensures Span(Bare, s, 7) == 9 && Span(Space, s, 8) == 8 && Span(Space, s, 9) == 9
  {
    assert s[0..4] == "<x-" + "a";
    SpanOver(Space, s, 4, 5);
    SpanOver(Space, s, 5, 5);
    SpanOver(Name, s, 5, 6);
    SpanOver(Bare, s, 7, 9);
    SpanOver(Space, s, 8, 8);
    SpanOver(Space, s, 9, 9);
  }

  /** The opening pattern reads the value `c/` and closes at `>`. */
  lemma OpeningReadsSlash(s: string)
    requires s == "<x-a b=c/>" && TagHeadAt(s, "a")
    requires Span(Space, s, 4) == 5 && Span(Space, s, 5) == 5 && Span(Name, s, 5) == 6
    requires Span(Bare, s, 7) == 9 && Span(Space, s, 9) == 9
    ensures ComponentTag(s, Angle) == Some(TagMatch("a", " b=c/", 10))
  {
    assert ListThenCloser(s, 5, Angle) == None;
    assert ListThenCloser(s, 9, Angle) == Some(Parse(9, 10));
    assert ValueThen(s, 4, 7, Angle) == Some(Parse(9, 10));
    assert ListThenCloser(s, 4, Angle) == Some(Parse(9, 10));
    assert LeadThen(s, 4, 5, Angle) == Some((4, Parse(9, 10)));
    TagHeadSome(s, "a", Angle, 4, Parse(9, 10));
    assert s[4..9] == " b=c/";
  }

  /** The self-closing pattern gives the `/` back, reads the value `c` and closes at `/>`. */
  lemma SelfClosingGivesSlashBack(s: string)
    requires s == "<x-a b=c/>" && TagHeadAt(s, "a")
    requires Span(Space, s, 4) == 5 && Span(Space, s, 5) == 5 && Span(Name, s, 5) == 6
    requires Span(Bare, s, 7) == 9 && Span(Space, s, 8) == 8 && Span(Space, s, 9) == 9
    ensures ComponentTag(s, SlashAngle) == Some(TagMatch("a", " b=c", 10))
  {
    assert ListThenCloser(s, 5, SlashAngle) == None;
    assert ListThenCloser(s, 9, SlashAngle) == None;
    assert ListThenCloser(s, 8, SlashAngle) == Some(Parse(8, 10));
    assert BareThen(s, 4, 7, 9, SlashAngle) == Some(Parse(8, 10));
    assert ValueThen(s, 4, 7, SlashAngle) == Some(Parse(8, 10));
    assert ListThenCloser(s, 4, SlashAngle) == Some(Parse(8, 10));
    assert LeadThen(s, 4, 5, SlashAngle) == Some((4, Parse(8, 10)));
    TagHeadSome(s, "a", SlashAngle, 4, Parse(8, 10));
    assert s[4..8] == " b=c";
  }

  /** `</x-name>` is a closing tag and is matched by neither component pattern. */
  lemma ClosingMatches(name: string, rest: string)
    requires All(Name, name)
    ensures ClosingTag(ClosingTagText(name) + rest) == Some(|ClosingTagText(name)|)
    ensures ComponentTag(ClosingTagText(name) + rest, SlashAngle) == None
    ensures ComponentTag(ClosingTagText(name) + rest, Angle) == None
  {
    var s := ClosingTagText(name) + rest;
    var c := ClosingTagText(name);
    var e := 4 + |name|;
    assert s[..|c|] == c;
    assert forall k :: 0 <= k < |c| ==> s[k] == c[k] by {
      forall k | 0 <= k < |c| ensures s[k] == c[k] { assert s[..|c|][k] == s[k]; }
    }
    assert s[0] == '<' && s[1] == '/' && s[2] == 'x' && s[3] == '-' && s[e] == '>';
    SpanOver(Space, s, 1, 1);
    SpanOver(Space, s, 2, 2);
    forall k | 4 <= k < e ensures InClass(Name, s[k]) { assert s[k] == c[k] == name[k - 4]; }
    SpanOver(Name, s, 4, e);
    SpanOver(Space, s, e, e);
  }

  // ---------------------------------------------------------------------
  // Slots
  // ---------------------------------------------------------------------

  /** `<x-slot attrs>`. */
  function SlotTag(attrs: seq<Attr>): string {
    "<x-slot" + Quoted(attrs) + ">"
  }

  /** `<x-slot:word attrs>`. */
  function InlineSlotTag(word: string, attrs: seq<Attr>): string {
    "<x-slot:" + word + Quoted(attrs) + ">"
  }

  const SlotEnd: string := "</x-slot>"

  /** A tag name the slot patterns do not mistake for `slot`: it does not start with those four letters. */
  predicate NotSlotName(name: string) {
    !(|name| >= 4 && name[..4] == "slot")
  }

  /** A name that is not a slot name differs from `slot` somewhere in its first four places. */
  lemma NotSlotSomewhere(s: string, j: nat, name: string)
    requires At(s, j, name) && j + |name| < |s| && !IsWordChar(s[j + |name|]) && NotSlotName(name)
    ensures exists k :: 0 <= k < 4 && j + k < |s| && s[j + k] != "slot"[k]
  {
    if |name| >= 4 {
      var k :| 0 <= k < 4 && name[k] != "slot"[k];
      assert s[j + k] == s[j..j + |name|][k] == name[k];
    } else {
      var k := |name|;
      assert s[j + k] != "slot"[k];
    }
  }

  /**
   * A tag name the slot opening pattern does not take: it does not start
   * with `slot`, or `slot` is followed by a name character other than `:`
   * (`slot-item`, `slotted`), where the pattern needs `:`, white space or
   * `>`.
   */
  predicate NotSlotOpeningName(name: string) {
    NotSlotName(name) || (|name| > 4 && name[4] != ':')
  }

  /** The slot passes pass over a component tag whose name is not a slot opening's. */
  lemma SlotPatternsSkipTag(s: string, name: string)
    requires TagHeadAt(s, name) && NotSlotOpeningName(name)
    ensures SlotOpening(s).None? && SlotClosing(s).None?
  {
    assert s[..3 + |name|] == "<x-" + name;
    assert s[1] == 'x' by { assert s[..3 + |name|][1] == s[1]; }
    assert At(s, 3, name) by {
      assert s[3..3 + |name|] == s[..3 + |name|][3..];
    }
    if NotSlotName(name) {
      NotSlotSomewhere(s, 3, name);
      var k :| 0 <= k < 4 && 3 + k < |s| && s[3 + k] != "slot"[k];
      if |s| >= 7 {
        assert s[..7][3 + k] == s[3 + k];
      }
    } else {
      SlotPrefixedSkipped(s, name);
    }
  }

  /** `<x-slot` followed by a name character other than `:` opens no slot. */
  lemma SlotPrefixedSkipped(s: string, name: string)
    requires All(Name, name) && At(s, 3, name) && |name| > 4 && name[4] != ':'
    ensures SlotOpening(s).None?
  {
    assert s[7] == name[4] by { assert s[3..3 + |name|][4] == s[7]; }
    assert InClass(Name, name[4]);
    ListAtNameChar(s, 7, Angle);
  }

  /** The slot passes pass over a closing tag whose name does not start with `slot`. */
  lemma SlotPatternsSkipClosing(name: string, rest: string)
    requires All(Name, name) && NotSlotName(name)
    ensures SlotOpening(ClosingTagText(name) + rest).None?
    ensures SlotClosing(ClosingTagText(name) + rest).None?
  {
    var s := ClosingTagText(name) + rest;
    var c := ClosingTagText(name);
    assert s[..|c|] == c;
    assert s[1] == '/' && s[2] == 'x' && s[4 + |name|] == '>' by {
      assert s[..|c|][1] == s[1] && s[..|c|][2] == s[2] && s[..|c|][4 + |name|] == s[4 + |name|];
    }
    assert At(s, 4, name) by {
      assert s[4..4 + |name|] == s[..|c|][4..4 + |name|];
    }
    SpanOver(Space, s, 2, 2);
    NotSlotSomewhere(s, 4, name);
    var k :| 0 <= k < 4 && 4 + k < |s| && s[4 + k] != "slot"[k];
    if 8 <= |s| {
      assert s[4..8][k] == s[4 + k];
    }
    if |s| >= 7 {
      assert s[..7][1] == s[1];
    }
  }

  /**
   * The slot passes pass over self-closing and opening component tags
   * whose name is not a slot opening's: `<x-card />`, and also
   * `<x-slot-item />` and `<x-slotted>`.
   */
  lemma SlotPatternsSkipTags(name: string, attrs: seq<Attr>, rest: string)
    requires All(Name, name) && AllWellFormed(attrs) && NotSlotOpeningName(name)
    ensures SlotOpening(SelfClosingTag(name, attrs) + rest).None? && SlotClosing(SelfClosingTag(name, attrs) + rest).None?
    ensures SlotOpening(OpeningTag(name, attrs) + rest).None? && SlotClosing(OpeningTag(name, attrs) + rest).None?
  {
    TagPieces(name, attrs, " />", rest);
    SlotPatternsSkipTag(SelfClosingTag(name, attrs) + rest, name);
    TagPieces(name, attrs, ">", rest);
    SlotPatternsSkipTag(OpeningTag(name, attrs) + rest, name);
  }

  /** The pieces of `<x-slot attrs>` in `s`. */
  predicate SlotLayout(s: string, attrs: seq<Attr>) {
    AllWellFormed(attrs) && At(s, 0, "<x-slot") && At(s, 7, Quoted(attrs)) && At(s, 7 + |Quoted(attrs)|, ">")
  }

  /** Where the pieces of `<x-slot attrs>` sit in `tag + rest`. */
  lemma SlotPieces(attrs: seq<Attr>, rest: string)
    requires AllWellFormed(attrs)
    ensures SlotLayout(SlotTag(attrs) + rest, attrs)
    ensures |SlotTag(attrs)| == 8 + |Quoted(attrs)|
  {
    var s := SlotTag(attrs) + rest;
    var q := Quoted(attrs);
    assert s[0..7] == "<x-slot";
    assert s[7..7 + |q|] == q;
    assert s[7 + |q|..8 + |q|] == ">";
  }

  /** Without an inline name the slot opening pattern's attributes end where its list ends. */
  lemma SlotOpeningPlain(s: string, p: nat)
    requires 8 <= |s| && s[..7] == "<x-slot" && s[7] != ':' && 7 <= p < |s|
    requires ListThenCloser(s, 7, Angle) == Some(Parse(p, p + 1))
    ensures SlotOpening(s) == Some(SlotMatch(None, s[7..p], p + 1))
  {
  }

  /** With `:` after `<x-slot` the word run is the inline name, and the list follows it. */
  lemma SlotOpeningInline(s: string, e: nat, p: nat)
    requires 8 <= |s| && s[..7] == "<x-slot" && s[7] == ':' && 8 <= e <= p < |s|
    requires Span(Word, s, 8) == e && ListThenCloser(s, e, Angle) == Some(Parse(p, p + 1))
    ensures SlotOpening(s) == Some(SlotMatch(Some(s[8..e]), s[e..p], p + 1))
  {
  }

  /** The slot opening pattern on a located `<x-slot attrs>`: no inline name, the attributes as written. */
  lemma SlotOpeningIn(s: string, attrs: seq<Attr>, len: nat)
    requires SlotLayout(s, attrs) && len == 8 + |Quoted(attrs)|
    ensures SlotOpening(s) == Some(SlotMatch(None, Quoted(attrs), len))
  {
    var p := 7 + |Quoted(attrs)|;
    assert s[..7] == "<x-slot" && s[p] == '>' by { assert s[p..p + 1][0] == s[p]; }
    if attrs == [] {
      assert s[7] == '>';
      ListAtAngle(s, 7);
    } else {
      var a := AttrText(attrs[0]);
      assert Quoted(attrs) == a + Quoted(attrs[1..]);
      assert s[7] == ' ' by { assert s[7..p][0] == s[7]; }
      ListOfQuoted(s, 7, p, attrs, Angle);
      ListAtAngle(s, p);
    }
    SlotOpeningPlain(s, p);
  }

  /** The slot opening pattern reads `<x-slot attrs>` exactly, whatever follows. */
  lemma SlotOpeningMatches(attrs: seq<Attr>, rest: string)
    requires AllWellFormed(attrs)
    ensures SlotOpening(SlotTag(attrs) + rest) == Some(SlotMatch(None, Quoted(attrs), |SlotTag(attrs)|))
  {
    SlotPieces(attrs, rest);
    SlotOpeningIn(SlotTag(attrs) + rest, attrs, |SlotTag(attrs)|);
  }

  /** The pieces of `<x-slot:word attrs>` in `s`. */
  predicate InlineSlotLayout(s: string, word: string, attrs: seq<Attr>) {
    AllWellFormed(attrs) && All(Word, word) && At(s, 0, "<x-slot:") && At(s, 8, word)
    && At(s, 8 + |word|, Quoted(attrs)) && At(s, 8 + |word| + |Quoted(attrs)|, ">")
    && s[8 + |word|] == (if attrs == [] then '>' else ' ')
  }

  /** Where the pieces of `<x-slot:word attrs>` sit in `tag + rest`. */
  lemma InlineSlotPieces(word: string, attrs: seq<Attr>, rest: string)
    requires AllWellFormed(attrs) && All(Word, word)
    ensures InlineSlotLayout(InlineSlotTag(word, attrs) + rest, word, attrs)
    ensures |InlineSlotTag(word, attrs)| == 9 + |word| + |Quoted(attrs)|
  {
    var s := InlineSlotTag(word, attrs) + rest;
    var q := Quoted(attrs);
    var e := 8 + |word|;
    assert s[0..8] == "<x-slot:";
    assert s[8..e] == word;
    assert s[e..e + |q|] == q;
    assert s[e + |q|..e + |q| + 1] == ">";
    if attrs != [] {
      assert q == AttrText(attrs[0]) + Quoted(attrs[1..]);
      assert s[e] == q[0];
    }
  }

  /** The slot opening pattern on a located `<x-slot:word attrs>`: the inline name is `word`. */
  lemma InlineSlotOpeningIn(s: string, word: string, attrs: seq<Attr>, len: nat)
    requires InlineSlotLayout(s, word, attrs) && len == 9 + |word| + |Quoted(attrs)|
    ensures SlotOpening(s) == Some(SlotMatch(Some(word), Quoted(attrs), len))
  {
    var e := 8 + |word|;
    var p := e + |Quoted(attrs)|;
    assert s[..7] == "<x-slot" && s[7] == ':' by { assert s[0..8][7] == s[7]; assert s[..7] == s[0..8][..7]; }
    assert s[p] == '>' by { assert s[p..p + 1][0] == s[p]; }
    RunAt(Word, s, 8, word);
    if attrs == [] {
      ListAtAngle(s, e);
    } else {
      ListOfQuoted(s, e, p, attrs, Angle);
      ListAtAngle(s, p);
    }
    SlotOpeningInline(s, e, p);
  }

  /** The slot opening pattern reads `<x-slot:word attrs>` exactly, whatever follows. */
  lemma InlineSlotOpeningMatches(word: string, attrs: seq<Attr>, rest: string)
    requires AllWellFormed(attrs) && All(Word, word)
    ensures SlotOpening(InlineSlotTag(word, attrs) + rest)
      == Some(SlotMatch(Some(word), Quoted(attrs), |InlineSlotTag(word, attrs)|))
  {
    InlineSlotPieces(word, attrs, rest);
    InlineSlotOpeningIn(InlineSlotTag(word, attrs) + rest, word, attrs, |InlineSlotTag(word, attrs)|);
  }

  /** `</x-slot>` is a slot closing, and the slot opening pattern does not take it. */
  lemma SlotEndMatches(rest: string)
    ensures SlotClosing(SlotEnd + rest) == Some(|SlotEnd|)
    ensures SlotOpening(SlotEnd + rest).None?
  {
    var s := SlotEnd + rest;
    assert s[..9] == SlotEnd;
    assert s[0] == '<' && s[1] == '/' && s[2] == 'x' && s[3] == '-' && s[8] == '>' by {
      assert s[..9][1] == s[1] && s[..9][2] == s[2] && s[..9][3] == s[3] && s[..9][8] == s[8];
    }
    assert s[4..8] == "slot" by { assert s[4..8] == s[..9][4..8]; }
    SpanOver(Space, s, 2, 2);
    SpanOver(Except('>'), s, 8, 8);
    assert s[..7][1] == s[1];
  }
}
