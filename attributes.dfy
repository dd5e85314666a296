/**
 * The attribute extractor of the tag compiler: the scan of an attribute
 * substring into an insertion-ordered map of typed values, and the rendering
 * of that map as the inside of an object literal.
 */
module Attributes {
  import opened Text

  /**
   * A typed attribute value. `Raw` is a bound expression copied verbatim;
   * its text is absent when the attribute had no (or an empty) value, which
   * the source stores as JavaScript `undefined`.
   */
  datatype Value =
    | Literal(text: string)
    | Raw(expr: Option<string>)
    | Interpolated(template: string)
    | True

  datatype Entry = Entry(key: string, value: Value)

  /** Insertion-ordered attribute record; `Put` keeps the keys unique. */
  type AttrMap = seq<Entry>

  /** The JavaScript value the source stores for `v`: a string, or `undefined` (`None`). */
  function Stored(v: Value): Option<string> {
    match v
    case Literal(t) => Some("\"" + t + "\"")
    case Raw(e) => e
    case Interpolated(t) => Some("`" + t + "`")
    case True => Some("true")
  }

  /** `${v}` of the stored value: `undefined` prints as the word. */
  function Render(v: Value): string {
    match Stored(v)
    case None => "undefined"
    case Some(x) => x
  }

  /** JavaScript truthiness of the stored value (only non-empty strings are truthy). */
  predicate Truthy(v: Value) {
    Stored(v).Some? && Stored(v).value != ""
  }

  // ---------------------------------------------------------------------
  // Ordered map with overwrite
  // ---------------------------------------------------------------------

  function Keys(m: AttrMap): (ks: seq<string>)
    ensures |ks| == |m|
    ensures forall i :: 0 <= i < |m| ==> ks[i] == m[i].key
  {
    if m == [] then [] else [m[0].key] + Keys(m[1..])
  }

  /** No key occurs twice, as in a JavaScript object. */
  predicate UniqueKeys(m: AttrMap) {
    forall i, j :: 0 <= i < j < |m| ==> m[i].key != m[j].key
  }

  /** The value stored under `key`, if any (the first entry with that key). */
  function Lookup(m: AttrMap, key: string): (r: Option<Value>)
    ensures r.None? <==> forall i :: 0 <= i < |m| ==> m[i].key != key
    ensures r.Some? ==> exists i :: 0 <= i < |m| && m[i] == Entry(key, r.value)
  {
    if m == [] then None
    else if m[0].key == key then Some(m[0].value)
    else
      var r := Lookup(m[1..], key);
      assert r.Some? ==> exists i :: 0 <= i < |m[1..]| && m[1..][i] == Entry(key, r.value);
      r
  }

  /**
   * `attributes[key] = value` on a JavaScript object: an existing key keeps
   * its position and takes the new value, a new key goes last.
   */
  function Put(m: AttrMap, key: string, value: Value): AttrMap {
    if m == [] then [Entry(key, value)]
    else if m[0].key == key then [Entry(key, value)] + m[1..]
    else [m[0]] + Put(m[1..], key, value)
  }

  /** After `Put`, the key holds the new value and every other key is untouched. */
  lemma {:induction false} PutLookup(m: AttrMap, key: string, value: Value, other: string)
    requires UniqueKeys(m)
    ensures UniqueKeys(Put(m, key, value))
    ensures Lookup(Put(m, key, value), key) == Some(value)
    ensures other != key ==> Lookup(Put(m, key, value), other) == Lookup(m, other)
  {
    PutUnique(m, key, value);
    if m != [] && m[0].key != key {
      PutLookup(m[1..], key, value, other);
      assert Put(m, key, value)[1..] == Put(m[1..], key, value);
    }
  }

  /** `Put` never duplicates a key. */
  lemma {:induction false} PutUnique(m: AttrMap, key: string, value: Value)
    requires UniqueKeys(m)
    ensures UniqueKeys(Put(m, key, value))
  {
    if m != [] && m[0].key != key {
      PutUnique(m[1..], key, value);
      var r := Put(m[1..], key, value);
      PutKeys(m[1..], key, value);
      assert m[0].key !in Keys(m[1..]);
      assert m[0].key !in Keys(r);
      ConsUnique(m[0], r);
    }
  }

  /** An entry whose key the rest does not hold keeps the keys unique. */
  lemma ConsUnique(h: Entry, r: AttrMap)
    requires UniqueKeys(r) && h.key !in Keys(r)
    ensures UniqueKeys([h] + r)
  {
    forall i, j | 0 <= i < j < |[h] + r| ensures ([h] + r)[i].key != ([h] + r)[j].key {
      if i == 0 {
        assert ([h] + r)[j].key == Keys(r)[j - 1];
      } else {
        assert ([h] + r)[i] == r[i - 1] && ([h] + r)[j] == r[j - 1];
      }
    }
  }

  /** `Put` keeps the insertion order: an old key stays where it was, a new one is appended. */
  lemma {:induction false} PutKeys(m: AttrMap, key: string, value: Value)
    ensures Keys(Put(m, key, value)) == if key in Keys(m) then Keys(m) else Keys(m) + [key]
  {
    if m != [] {
      if m[0].key != key {
        PutKeys(m[1..], key, value);
        assert Keys(m) == [m[0].key] + Keys(m[1..]);
        assert key in Keys(m) <==> key in Keys(m[1..]);
      }
    }
  }

  // ---------------------------------------------------------------------
  // Interpolation of `{{ ... }}` inside a value
  // ---------------------------------------------------------------------

  /** Some `}}` occurs at or after `k` with no line terminator before it. */
  predicate ClosesOnLine(v: string, k: nat)
    decreases |v| - k
  {
    k + 1 < |v| && ((v[k] == '}' && v[k + 1] == '}') || (!IsLineTerminator(v[k]) && ClosesOnLine(v, k + 1)))
  }

  /** The test `value.match(/(\\)?{{(.*?)}}/)` from position `a` on. */
  predicate HasMustacheFrom(v: string, a: nat)
    decreases |v| - a
  {
    a + 1 < |v| && ((v[a] == '{' && v[a + 1] == '{' && ClosesOnLine(v, a + 2)) || HasMustacheFrom(v, a + 1))
  }

  /** `value.match(/(\\)?{{(.*?)}}/)` succeeds: a `{{` closed by `}}` on the same line. */
  predicate HasMustache(v: string) {
    HasMustacheFrom(v, 0)
  }

  /** A line-free stretch from `k` to a `}}` at `b`. */
  ghost predicate ClosesAt(v: string, k: nat, b: nat) {
    k <= b && b + 2 <= |v| && v[b] == '}' && v[b + 1] == '}'
    && forall j :: k <= j < b ==> !IsLineTerminator(v[j])
  }

  /** A `{{` at `i` whose `}}` at `b` is on the same line. */
  ghost predicate MustacheSpan(v: string, i: nat, b: nat) {
    i + 1 < |v| && v[i] == '{' && v[i + 1] == '{' && ClosesAt(v, i + 2, b)
  }

  /** The recursive closing search agrees with its declarative reading. */
  lemma {:induction false} ClosesOnLineIff(v: string, k: nat)
    ensures ClosesOnLine(v, k) <==> exists b :: ClosesAt(v, k, b)
    decreases |v| - k
  {
    if k + 1 < |v| {
      ClosesOnLineIff(v, k + 1);
      if v[k] == '}' && v[k + 1] == '}' {
        assert ClosesAt(v, k, k);
      } else if !IsLineTerminator(v[k]) && ClosesOnLine(v, k + 1) {
        var b :| ClosesAt(v, k + 1, b);
        assert ClosesAt(v, k, b);
      }
      forall b | ClosesAt(v, k, b) ensures ClosesOnLine(v, k) {
        if b != k {
          assert ClosesAt(v, k + 1, b);
        }
      }
    }
  }

  /**
   * The value counts as interpolated exactly when it holds a `{{` that is
   * followed by a `}}` on the same line.
   */
  lemma {:induction false} HasMustacheIff(v: string, a: nat)
    ensures HasMustacheFrom(v, a) <==>
      exists i, b :: a <= i && MustacheSpan(v, i, b)
    decreases |v| - a
  {
    if a + 1 < |v| {
      HasMustacheIff(v, a + 1);
      ClosesOnLineIff(v, a + 2);
      if v[a] == '{' && v[a + 1] == '{' && ClosesOnLine(v, a + 2) {
        var b :| ClosesAt(v, a + 2, b);
        assert MustacheSpan(v, a, b);
      }
      forall i, b | a <= i && MustacheSpan(v, i, b)
        ensures HasMustacheFrom(v, a)
      {
        if i != a {
          assert a + 1 <= i;
        }
      }
    }
  }

  /** Without a `{`, a value is never taken for a template. */
  lemma {:induction false} NoBraceNoMustache(v: string, a: nat)
    requires forall j :: a <= j < |v| ==> v[j] != '{'
    ensures !HasMustacheFrom(v, a)
    decreases |v| - a
  {
    if a + 1 < |v| {
      NoBraceNoMustache(v, a + 1);
    }
  }

  /**
   * One match of `/{{\s*([^}]+)\s*}}/` at the start of `v`: the captured
   * expression and the length of the match. The capture runs to the first
   * `}`, which must be doubled; the greedy `\s*` drops the leading blanks
   * but leaves at least one character for `[^}]+`.
   */
  function MustacheAt(v: string): (r: Option<(string, nat)>)
    ensures r.Some? ==> 4 < r.value.1 <= |v| && r.value.0 != []
  {
    if |v| >= 2 && v[0] == '{' && v[1] == '{' then
      var close := Span(Except('}'), v, 2);
      if 2 < close && close + 1 < |v| && v[close + 1] == '}' then
        var lead := Span(Space, v, 2);
        var start := if lead < close then lead else close - 1;
        Some((v[start..close], close + 2))
      else None
    else None
  }

  /** `value.replace(/{{\s*([^}]+)\s*}}/g, "${$1}")`. */
  function Splice(v: string): string
    decreases |v|
  {
    if v == [] then []
    else match MustacheAt(v)
      case Some((expr, n)) => "${" + expr + "}" + Splice(v[n..])
      case None => [v[0]] + Splice(v[1..])
  }

  /** Without a `{{`, splicing changes nothing. */
  lemma {:induction false} SpliceIdentity(v: string)
    requires forall i :: 0 <= i < |v| - 1 ==> !(v[i] == '{' && v[i + 1] == '{')
    ensures Splice(v) == v
  {
    if v != [] {
      assert MustacheAt(v).None?;
      SpliceIdentity(v[1..]);
    }
  }

  /** The text `{{ blanks expr }}` of one template. */
  function Template(blanks: string, expr: string): string {
    "{{" + blanks + expr + "}}"
  }

  /** What the splice puts in place of a template with expression `expr`. */
  function Spliced(expr: string): string {
    "${" + expr + "}"
  }

  /**
   * One `{{ expr }}` after text with no `{`: the text is copied, the
   * blanks after `{{` disappear, the text up to the first `}` is kept,
   * trailing blanks included, and the splice goes on after `}}`. Applied
   * once per template, this covers every `{{ … }}` of a value.
   */
  lemma {:induction false} SpliceStep(p: string, blanks: string, expr: string, w: string)
    requires All(Except('{'), p)
    requires All(Space, blanks)
    requires expr != [] && !IsSpace(expr[0]) && All(Except('}'), expr)
    ensures Splice(p + Template(blanks, expr) + w) == p + Spliced(expr) + Splice(w)
    decreases |p|
  {
    var m := Template(blanks, expr);
    if p == [] {
      EmptyFirst(p, m, w);
      SpliceAtTemplate(blanks, expr, w);
      EmptyFirst(p, Spliced(expr), Splice(w));
    } else {
      HeadFirst(p, m, w);
      SpliceHead(p[0], p[1..] + m + w);
      SpliceStep(p[1..], blanks, expr, w);
      HeadFirst(p, Spliced(expr), Splice(w));
    }
  }

  /** Three pieces, the first of them empty. */
  lemma EmptyFirst(p: string, a: string, b: string)
    requires p == []
    ensures p + a + b == a + b
  {
  }

  /** A text followed by nothing. */
  lemma EmptyLast(a: string)
    ensures a + [] == a
  {
  }

  /** Three pieces, the first split at its head. */
  lemma HeadFirst(p: string, a: string, b: string)
    requires p != []
    ensures p + a + b == [p[0]] + (p[1..] + a + b)
  {
    SplitHead(p, a + b);
  }

  /** A template at the start is spliced and the splice goes on after it. */
  lemma SpliceAtTemplate(blanks: string, expr: string, w: string)
    requires All(Space, blanks)
    requires expr != [] && !IsSpace(expr[0]) && All(Except('}'), expr)
    ensures Splice(Template(blanks, expr) + w) == Spliced(expr) + Splice(w)
  {
    var m := Template(blanks, expr);
    MustacheOfSingle(blanks, expr, w);
    assert (m + w)[|m|..] == w;
  }

  /** A character other than `{` opens no template and is copied. */
  lemma SpliceHead(c: char, t: string)
    requires c != '{'
    ensures Splice([c] + t) == [c] + Splice(t)
  {
    assert ([c] + t)[1..] == t;
  }

  /**
   * Two templates in one value, as in `btn {{ color }} {{ size }}`: both
   * are spliced and the text around them is kept.
   */
  lemma SpliceTwo(p: string, b1: string, e1: string, q: string, b2: string, e2: string, w: string)
    requires All(Except('{'), p) && All(Except('{'), q) && All(Except('{'), w)
    requires All(Space, b1) && e1 != [] && !IsSpace(e1[0]) && All(Except('}'), e1)
    requires All(Space, b2) && e2 != [] && !IsSpace(e2[0]) && All(Except('}'), e2)
    ensures Splice(p + Template(b1, e1) + q + Template(b2, e2) + w)
         == p + Spliced(e1) + q + Spliced(e2) + w
  {
    var m1, m2 := Template(b1, e1), Template(b2, e2);
    var rest := q + m2 + w;
    Regroup5(p, m1, q, m2, w);
    SpliceStep(p, b1, e1, rest);
    SpliceStep(q, b2, e2, w);
    SpliceIdentity(w);
    Regroup5(p, Spliced(e1), q, Spliced(e2), w);
  }

  /**
   * A single `{{ expr }}` as the whole value (`{{ size }}` gives
   * `${size }`).
   */
  lemma SpliceSingle(blanks: string, expr: string)
    requires All(Space, blanks)
    requires expr != [] && !IsSpace(expr[0]) && All(Except('}'), expr)
    ensures Splice(Template(blanks, expr)) == Spliced(expr)
  {
    var m := Template(blanks, expr);
    SpliceAtTemplate(blanks, expr, []);
    EmptyLast(m);
    EmptyLast(Spliced(expr) + Splice([]));
  }

  /** The match of the template pattern over `{{ expr }}` and what follows. */
  lemma MustacheOfSingle(blanks: string, expr: string, w: string)
    requires All(Space, blanks)
    requires expr != [] && !IsSpace(expr[0]) && All(Except('}'), expr)
    ensures MustacheAt(Template(blanks, expr) + w) == Some((expr, 4 + |blanks| + |expr|))
  {
    var v := Template(blanks, expr) + w;
    var b := 2 + |blanks|;
    SingleSpans(blanks, expr, w);
    assert v[b..b + |expr|] == expr;
  }

  /** Where the blanks and the expression of `{{ expr }}` end. */
  lemma SingleSpans(blanks: string, expr: string, w: string)
    requires All(Space, blanks)
    requires expr != [] && !IsSpace(expr[0]) && All(Except('}'), expr)
    ensures var v := Template(blanks, expr) + w;
      Span(Space, v, 2) == 2 + |blanks| && Span(Except('}'), v, 2) == 2 + |blanks| + |expr|
  {
    var v := Template(blanks, expr) + w;
    var b := 2 + |blanks|;
    var close := b + |expr|;
    assert forall j :: 2 <= j < b ==> v[j] == blanks[j - 2];
    assert forall j :: b <= j < close ==> v[j] == expr[j - b];
    assert v[b] == expr[0] && v[close] == '}' && v[close + 1] == '}';
    SpanOver(Space, v, 2, b);
    SpanOver(Except('}'), v, 2, close);
  }

  /** A single `{{ … }}` on one line makes the value a template. */
  lemma SingleMustache(inner: string)
    requires forall j :: 0 <= j < |inner| ==> !IsLineTerminator(inner[j])
    ensures HasMustache("{{" + inner + "}}")
  {
    var v := "{{" + inner + "}}";
    var b := |v| - 2;
    assert forall j :: 2 <= j < b ==> v[j] == inner[j - 2];
    assert ClosesAt(v, 2, b);
    assert MustacheSpan(v, 0, b);
    HasMustacheIff(v, 0);
  }

  // ---------------------------------------------------------------------
  // The attribute scan
  // ---------------------------------------------------------------------

  /** One match of the attribute pattern: the name (sigil included), the value, and where it ends. */
  datatype Token = Token(name: string, value: Option<string>, end: nat)

  /**
   * A quoted or bare value at `v`: its text and where it ends. `"…"` and
   * `'…'` run to the next matching quote; a bare value is the longest run
   * of `[^'"=<>\s]`. Nothing follows the value in the pattern, so the first
   * alternative that applies is final.
   */
  function ValueAt(t: string, v: nat): (r: Option<(string, nat)>)
    requires v <= |t|
    ensures r.Some? ==> v < r.value.1 <= |t|
  {
    if v < |t| && (t[v] == '"' || t[v] == '\'') then
      var close := Span(Except(t[v]), t, v + 1);
      if close < |t| then Some((t[v + 1..close], close + 1)) else None
    else if v < |t| && IsBareChar(t[v]) then
      var e := Span(Bare, t, v);
      Some((t[v..e], e))
    else None
  }

  /**
   * `/\s([:@]?[\w-:.]+)(?:=(?:"([^"]*)"|'([^']*)'|([^'"=<>\s]+)))?/` tried at
   * position `i` of `t`. A leading `:` is itself a name character, so both
   * ways of reading it give the same name; `@` must be followed by a name
   * character. `m[2] || m[3] || m[4]` turns an empty value into `undefined`.
   */
  function TokenAt(t: string, i: nat): (r: Option<Token>)
    requires i <= |t|
    ensures r.Some? ==> i + 1 < r.value.end <= |t| && r.value.name != []
  {
    if i + 1 >= |t| || !IsSpace(t[i]) then None
    else
      var body := if t[i + 1] == '@' then i + 2 else i + 1;
      if body >= |t| || !IsNameChar(t[body]) then None
      else
        var nameEnd := Span(Name, t, body);
        var name := t[i + 1..nameEnd];
        if nameEnd < |t| && t[nameEnd] == '=' && ValueAt(t, nameEnd + 1).Some? then
          var (text, e) := ValueAt(t, nameEnd + 1).value;
          Some(Token(name, if text == "" then None else Some(text), e))
        else Some(Token(name, None, nameEnd))
  }

  /** `attrPattern.exec(t)` with `lastIndex == from`: the first match at or after `from`. */
  function NextToken(t: string, from: nat): (r: Option<Token>)
    requires from <= |t|
    ensures r.Some? ==> from < r.value.end <= |t| && r.value.name != []
    decreases |t| - from
  {
    if from == |t| then None
    else match TokenAt(t, from)
      case Some(tok) => Some(tok)
      case None => NextToken(t, from + 1)
  }

  /**
   * The typing of one attribute: a name starting with `:` is bound (stored
   * without its first character, value verbatim); a non-empty value with a
   * `{{ … }}` becomes a template string; any other non-empty value a quoted
   * literal; no value the literal `true`.
   */
  function Classify(name: string, value: Option<string>): Entry
    requires name != []
  {
    if name[0] == ':' then Entry(name[1..], Raw(value))
    else if value.Some? then
      if HasMustache(value.value) then Entry(name, Interpolated(Splice(value.value)))
      else Entry(name, Literal(value.value))
    else Entry(name, True)
  }

  /** What the loop of the extractor computes from `lastIndex == from` with record `acc`. */
  function ScanFrom(t: string, from: nat, acc: AttrMap): AttrMap
    requires from <= |t|
    decreases |t| - from
  {
    match NextToken(t, from)
    case None => acc
    case Some(tok) =>
      var e := Classify(tok.name, tok.value);
      ScanFrom(t, tok.end, Put(acc, e.key, e.value))
  }

  /** The record never holds a key twice, since every write goes through `Put`. */
  lemma {:induction false} ScanFromUnique(t: string, from: nat, acc: AttrMap)
    requires from <= |t| && UniqueKeys(acc)
    ensures UniqueKeys(ScanFrom(t, from, acc))
    decreases |t| - from
  {
    match NextToken(t, from)
    case None =>
    case Some(tok) =>
      var e := Classify(tok.name, tok.value);
      PutUnique(acc, e.key, e.value);
      ScanFromUnique(t, tok.end, Put(acc, e.key, e.value));
  }

  /** `getAttributesFromAttributeString`, as a function of the attribute substring. */
  function AttributesOf(attributeString: string): (r: AttrMap)
    ensures UniqueKeys(r)
    ensures attributeString == [] ==> r == []
  {
    if attributeString == [] then []
    else
      ScanFromUnique(" " + attributeString, 0, []);
      ScanFrom(" " + attributeString, 0, [])
  }

  /**
   * The extractor as the source runs it: a loop over successive matches
   * that writes each typed attribute into the record.
   */
  method GetAttributesFromAttributeString(attributeString: string) returns (attributes: AttrMap)
    ensures attributes == AttributesOf(attributeString)
    ensures UniqueKeys(attributes)
  {
    if attributeString == [] {
      return [];
    }
    var t := " " + attributeString;
    attributes := [];
    var lastIndex := 0;
    var attrMatch := NextToken(t, lastIndex);
    while attrMatch.Some?
      invariant lastIndex <= |t|
      invariant UniqueKeys(attributes)
      invariant attrMatch == NextToken(t, lastIndex)
      invariant ScanFrom(t, lastIndex, attributes) == ScanFrom(t, 0, [])
      decreases |t| - lastIndex
    {
      var entry := Classify(attrMatch.value.name, attrMatch.value.value);
      PutUnique(attributes, entry.key, entry.value);
      attributes := Put(attributes, entry.key, entry.value);
      lastIndex := attrMatch.value.end;
      attrMatch := NextToken(t, lastIndex);
    }
  }

  // ---------------------------------------------------------------------
  // Rendering
  // ---------------------------------------------------------------------

  function EntryText(e: Entry): string {
    "\"" + e.key + "\": " + Render(e.value)
  }

  /** `Object.entries(attributes).map(…).join(", ")`. */
  function AttributesToString(m: AttrMap): (r: string)
    ensures m == [] <==> r == []
    ensures |m| == 1 ==> r == EntryText(m[0])
  {
    if m == [] then []
    else if |m| == 1 then EntryText(m[0])
    else EntryText(m[0]) + ", " + AttributesToString(m[1..])
  }

  /** Appending an entry appends `, "key": value` to the rendering. */
  lemma {:induction false} AttributesToStringSnoc(m: AttrMap, e: Entry)
    requires m != []
    ensures AttributesToString(m + [e]) == AttributesToString(m) + ", " + EntryText(e)
  {
    if |m| > 1 {
      assert (m + [e])[1..] == m[1..] + [e];
      AttributesToStringSnoc(m[1..], e);
    } else {
      assert (m + [e])[1..] == [e];
    }
  }
}
