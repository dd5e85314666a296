/**
 * Recognizers for the five regular expressions of the tag compiler, each
 * tried at the start of a suffix of the text.
 *
 * The attribute list `(?:\s+[:@]?[\w-:.]+(?:=(?:"[^"]*"|'[^']*'|\{\{[^}]*\}\}|[^'"=<>\s]+))?)*`
 * is explored in the backtracking order of the regular-expression engine:
 * one more attribute before stopping, the value alternatives in the order
 * written, an unquoted value longest first, and the whitespace before the
 * list given back one character at a time. The first exploration that
 * reaches the closer decides the match. A greedy run is taken at full length
 * without exploring shorter choices only where a shorter run leaves a
 * character of the run's own class next and every continuation needs a
 * character outside that class there (tag and attribute names, whitespace
 * runs, `[^"]*`, `[^}]*`, `[^>]*`), so those shorter choices cannot succeed.
 */
module Patterns {
  import opened Text

  /** How a tag must end: `\s*\/>` (self-closing) or `\s*>`. */
  datatype Closer = SlashAngle | Angle

  /** Where the closer that starts at `j` ends, if it is there. */
  function CloserEnd(s: string, j: nat, closer: Closer): (r: Option<nat>)
    requires j <= |s|
    ensures r.Some? ==> j < r.value <= |s| && s[r.value - 1] == '>'
    ensures r.Some? && closer == SlashAngle ==> j + 1 < r.value && s[r.value - 2] == '/'
  {
    var w := Span(Space, s, j);
    match closer
    case SlashAngle => if w + 1 < |s| && s[w] == '/' && s[w + 1] == '>' then Some(w + 2) else None
    case Angle => if w < |s| && s[w] == '>' then Some(w + 1) else None
  }

  /** A successful exploration: where the attribute list stopped and where the match ends. */
  datatype Parse = Parse(attrsEnd: nat, end: nat)

  /** A successful exploration from `j` ends in the closer, inside `s`. */
  predicate ParseWithin(s: string, j: nat, closer: Closer, r: Option<Parse>) {
    r.Some? ==> j <= r.value.attrsEnd < r.value.end <= |s| && s[r.value.end - 1] == '>'
                && (closer == SlashAngle ==> r.value.attrsEnd + 1 < r.value.end && s[r.value.end - 2] == '/')
  }

  /**
   * The attribute list from `j` on, followed by the closer: first one more
   * attribute (`\s+` then a name), and only if that leads nowhere, the end
   * of the list at `j`.
   */
  function ListThenCloser(s: string, j: nat, closer: Closer): (r: Option<Parse>)
    requires j <= |s|
    ensures ParseWithin(s, j, closer, r)
    decreases |s| - j, 3, 0
  {
    var m := Span(Space, s, j);
    var more := if j < m then AttributeThen(s, j, m, closer) else None;
    if more.Some? then more
    else match CloserEnd(s, j, closer)
      case Some(e) => Some(Parse(j, e))
      case None => None
  }

  /**
   * One attribute whose name starts at `m` (after the whitespace that began
   * at `j`), then the rest of the list and the closer. With `=` next, the
   * value alternatives come first, and the attribute without its value last.
   */
  function AttributeThen(s: string, j: nat, m: nat, closer: Closer): (r: Option<Parse>)
    requires j < m <= |s|
    ensures ParseWithin(s, j, closer, r)
    decreases |s| - j, 2, 0
  {
    var body := if m < |s| && s[m] == '@' then m + 1 else m;
    if body >= |s| || !IsNameChar(s[body]) then None
    else
      var n := Span(Name, s, body);
      var valued := if n < |s| && s[n] == '=' then ValueThen(s, j, n + 1, closer) else None;
      if valued.Some? then valued else ListThenCloser(s, n, closer)
  }

  /**
   * The value alternatives at `v` in the order written: `"…"`, `'…'`,
   * `{{…}}`, then an unquoted run from its longest length down.
   */
  function ValueThen(s: string, j: nat, v: nat, closer: Closer): (r: Option<Parse>)
    requires j < v <= |s|
    ensures ParseWithin(s, j, closer, r)
    decreases |s| - j, 1, 0
  {
    var quoted :=
      if v < |s| && (s[v] == '"' || s[v] == '\'') then
        var close := Span(Except(s[v]), s, v + 1);
        if close < |s| then ListThenCloser(s, close + 1, closer) else None
      else None;
    if quoted.Some? then quoted
    else
      var curly :=
        if v + 1 < |s| && s[v] == '{' && s[v + 1] == '{' then
          var close := Span(Except('}'), s, v + 2);
          if close + 1 < |s| && s[close + 1] == '}' then ListThenCloser(s, close + 2, closer) else None
        else None;
      if curly.Some? then curly
      else BareThen(s, j, v, Span(Bare, s, v), closer)
  }

  /** An unquoted value `s[v..k]`, then shorter ones, each followed by the rest. */
  function BareThen(s: string, j: nat, v: nat, k: nat, closer: Closer): (r: Option<Parse>)
    requires j < v <= k <= |s|
    ensures ParseWithin(s, j, closer, r)
    decreases |s| - j, 0, k
  {
    if k == v then None
    else
      var r := ListThenCloser(s, k, closer);
      if r.Some? then r else BareThen(s, j, v, k - 1, closer)
  }

  /**
   * The `\s*` before the attribute list, from its longest choice `k` down to
   * `q`: the attribute list then starts at the chosen end.
   */
  function LeadThen(s: string, q: nat, k: nat, closer: Closer): (r: Option<(nat, Parse)>)
    requires q <= k <= |s|
    ensures r.Some? ==> q <= r.value.0 && ParseWithin(s, r.value.0, closer, Some(r.value.1))
    decreases k
  {
    match ListThenCloser(s, k, closer)
    case Some(p) => Some((k, p))
    case None => if k == q then None else LeadThen(s, q, k - 1, closer)
  }

  // ---------------------------------------------------------------------
  // The five patterns
  // ---------------------------------------------------------------------

  /** The start shared by every tag: `<`, an optional `/`, optional whitespace, `x`, then `-` or `:`. */
  predicate OpensTag(s: string) {
    |s| > 0 && s[0] == '<'
    && var i := if 1 < |s| && s[1] == '/' then 2 else 1;
       var w := Span(Space, s, i);
       w + 1 < |s| && s[w] == 'x' && (s[w + 1] == '-' || s[w + 1] == ':')
  }

  /** A matched component tag: group 1 (the tag name), the attributes group, the match length. */
  datatype TagMatch = TagMatch(name: string, attributes: string, length: nat)

  /**
   * `<\s*x[-:]([\w-:.]*)\s*(?<attributes>…)` followed by `\s*\/>` or `\s*>`:
   * the self-closing and the opening pattern.
   */
  function ComponentTag(s: string, closer: Closer): (r: Option<TagMatch>)
    ensures r.Some? ==> OpensTag(s) && 0 < r.value.length <= |s| && s[r.value.length - 1] == '>'
    ensures r.Some? ==> All(Name, r.value.name)
    ensures r.Some? && closer == SlashAngle ==> 1 < r.value.length && s[r.value.length - 2] == '/'
  {
    if |s| == 0 || s[0] != '<' then None
    else
      var x := Span(Space, s, 1);
      if x + 1 < |s| && s[x] == 'x' && (s[x + 1] == '-' || s[x + 1] == ':') then
        var q := Span(Name, s, x + 2);
        match LeadThen(s, q, Span(Space, s, q), closer)
        case None => None
        case Some((a, p)) =>
          assert s[1] != '/';
          Some(TagMatch(s[x + 2..q], s[a..p.attrsEnd], p.end))
      else None
  }

  /** A matched slot opening: group 1 (the inline `:name`, if the group took part) and the attributes group. */
  datatype SlotMatch = SlotMatch(slotName: Option<string>, attributes: string, length: nat)

  /**
   * `<x-slot(?::(\w*))?(?<attributes>…)\s*>`. The optional `:name` group is
   * tried first; without it the list would start at a `:`, which neither the
   * list nor the closer accepts, but the alternative is kept as written.
   */
  function SlotOpening(s: string): (r: Option<SlotMatch>)
    ensures r.Some? ==> OpensTag(s) && 0 < r.value.length <= |s|
  {
    if |s| < 7 || s[..7] != "<x-slot" then None
    else
      assert s[0] == '<' && s[1] == 'x' && s[2] == '-';
      var named :=
        if 7 < |s| && s[7] == ':' then
          var e := Span(Word, s, 8);
          match ListThenCloser(s, e, Angle)
          case Some(p) => Some(SlotMatch(Some(s[8..e]), s[e..p.attrsEnd], p.end))
          case None => None
        else None;
      if named.Some? then named
      else match ListThenCloser(s, 7, Angle)
        case Some(p) => Some(SlotMatch(None, s[7..p.attrsEnd], p.end))
        case None => None
  }

  /** `<\/\s*x[-:]slot[^>]*>`: the length of the match. */
  function SlotClosing(s: string): (r: Option<nat>)
    ensures r.Some? ==> OpensTag(s) && 0 < r.value <= |s|
  {
    if |s| < 2 || s[0] != '<' || s[1] != '/' then None
    else
      var w := Span(Space, s, 2);
      if w + 6 <= |s| && s[w] == 'x' && (s[w + 1] == '-' || s[w + 1] == ':') && s[w + 2..w + 6] == "slot" then
        var close := Span(Except('>'), s, w + 6);
        if close < |s| then Some(close + 1) else None
      else None
  }

  /** `<\/\s*x[-:][\w\-:.]*\s*>`: the length of the match. */
  function ClosingTag(s: string): (r: Option<nat>)
    ensures r.Some? ==> OpensTag(s) && 0 < r.value <= |s|
  {
    if |s| < 2 || s[0] != '<' || s[1] != '/' then None
    else
      var w := Span(Space, s, 2);
      if w + 1 < |s| && s[w] == 'x' && (s[w + 1] == '-' || s[w + 1] == ':') then
        var e := Span(Space, s, Span(Name, s, w + 2));
        if e < |s| && s[e] == '>' then Some(e + 1) else None
      else None
  }
}
