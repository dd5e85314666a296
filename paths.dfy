/**
 * The component path resolver: the disk name of a tag, the catalog group it
 * selects, the four probes against that group, and the `@component` call
 * built from the result.
 */
module Paths {
  import opened Text
  import opened Attributes

  /** One entry of `listComponents()`: an optional disk name and the component names on it. */
  datatype Group = Group(diskName: Option<string>, components: seq<string>)

  type Catalog = seq<Group>

  /**
   * Group 1 of `/^(?:(\w+)::)?([\w\-:.]*)$/`: the longest word prefix when
   * `::` follows it (a shorter word run leaves a word character where `:`
   * is needed), and nothing when the tag holds a character outside
   * `[\w-:.]` and the whole match fails.
   */
  function DiskName(tag: string): (r: Option<string>)
    ensures r.Some? ==> r.value != [] && All(Word, r.value)
    ensures r.Some? ==> (|r.value| + 2 <= |tag| && tag[..|r.value|] == r.value
                         && tag[|r.value|] == ':' && tag[|r.value| + 1] == ':')
  {
    var w := Span(Word, tag, 0);
    if All(Name, tag) && 0 < w && w + 1 < |tag| && tag[w] == ':' && tag[w + 1] == ':' then Some(tag[..w])
    else None
  }

  /** A disk-prefixed tag name yields its disk name. */
  lemma DiskNameOfPrefixed(disk: string, rest: string)
    requires disk != [] && All(Word, disk) && All(Name, rest)
    ensures DiskName(disk + "::" + rest) == Some(disk)
  {
    var tag := disk + "::" + rest;
    SpanOver(Word, tag, 0, |disk|);
    assert tag[..|disk|] == disk;
  }

  /** A tag name without `:` has no disk name. */
  lemma NoColonNoDisk(tag: string)
    requires forall j :: 0 <= j < |tag| ==> tag[j] != ':'
    ensures DiskName(tag) == None
  {
  }

  /** The `find` predicate: the named disk, or with no disk name a nameless or `"default"` group. */
  predicate Selects(disk: Option<string>, g: Group) {
    if disk.Some? then g.diskName == disk
    else g.diskName == None || g.diskName == Some("") || g.diskName == Some("default")
  }

  /** `listComponents().find(…)`: the index of the first selected group. */
  function FindGroup(catalog: Catalog, disk: Option<string>): (r: Option<nat>)
    ensures r.Some? ==> r.value < |catalog| && Selects(disk, catalog[r.value])
    ensures r.Some? ==> forall k :: 0 <= k < r.value ==> !Selects(disk, catalog[k])
    ensures r.None? ==> forall k :: 0 <= k < |catalog| ==> !Selects(disk, catalog[k])
  {
    if catalog == [] then None
    else if Selects(disk, catalog[0]) then Some(0)
    else match FindGroup(catalog[1..], disk)
      case None => None
      case Some(i) => Some(i + 1)
  }

  /** The member names probed: those of the selected group, or none. */
  function Components(catalog: Catalog, disk: Option<string>): seq<string> {
    match FindGroup(catalog, disk)
    case None => []
    case Some(i) => catalog[i].components
  }

  /** `tagName.replace(/\./g, "/")`. */
  function DotsToSlashes(s: string): (r: string)
    ensures |r| == |s|
    ensures forall i :: 0 <= i < |s| ==> r[i] == if s[i] == '.' then '/' else s[i]
  {
    if s == [] then [] else [if s[0] == '.' then '/' else s[0]] + DotsToSlashes(s[1..])
  }

  /** The `disk::` prefix of the probes, empty without a disk name. */
  function Prefix(disk: Option<string>): string {
    match disk
    case None => ""
    case Some(d) => d + "::"
  }

  /** The probes in the order the source tries them. */
  function Candidates(p: string): seq<string> {
    [p, "components/" + p, p + "/index", "components/" + p + "/index"]
  }

  /**
   * Reference definition of the probing: the first candidate whose
   * prefixed form is listed, or `fallback` when none is.
   */
  function FirstListed(pre: string, comps: seq<string>, cs: seq<string>, fallback: string): string {
    if cs == [] then fallback
    else if pre + cs[0] in comps then cs[0]
    else FirstListed(pre, comps, cs[1..], fallback)
  }

  /**
   * What the probing promises: the answer is a listed candidate whose
   * predecessors are all unlisted, or the fallback when no candidate is listed.
   */
  lemma {:induction false} FirstListedIsFirstHit(pre: string, comps: seq<string>, cs: seq<string>, fallback: string)
    ensures var r := FirstListed(pre, comps, cs, fallback);
      (exists k :: 0 <= k < |cs| && r == cs[k] && pre + r in comps
                   && forall j :: 0 <= j < k ==> pre + cs[j] !in comps)
      || (r == fallback && forall j :: 0 <= j < |cs| ==> pre + cs[j] !in comps)
  {
    if cs != [] && pre + cs[0] !in comps {
      FirstListedIsFirstHit(pre, comps, cs[1..], fallback);
      var r := FirstListed(pre, comps, cs, fallback);
      if k :| 0 <= k < |cs[1..]| && r == cs[1..][k] && pre + r in comps
              && forall j :: 0 <= j < k ==> pre + cs[1..][j] !in comps {
        assert r == cs[k + 1];
        assert forall j :: 0 <= j < k + 1 ==> pre + cs[j] !in comps by {
          forall j | 0 <= j < k + 1 ensures pre + cs[j] !in comps {
            if j > 0 { assert cs[j] == cs[1..][j - 1]; }
          }
        }
      } else {
        assert forall j :: 0 <= j < |cs| ==> pre + cs[j] !in comps by {
          forall j | 0 <= j < |cs| ensures pre + cs[j] !in comps {
            if j > 0 { assert cs[j] == cs[1..][j - 1]; }
          }
        }
      }
    } else if cs != [] {
      assert FirstListed(pre, comps, cs, fallback) == cs[0];
    }
  }

  /**
   * `componentPath` after the four probes: the first candidate, in the
   * source's order, whose prefixed form is in the selected group, else the
   * dots-to-slashes name.
   */
  function ComponentPath(catalog: Catalog, tag: string): (r: string)
    ensures r == FirstListed(Prefix(DiskName(tag)), Components(catalog, DiskName(tag)),
                             Candidates(DotsToSlashes(tag)), DotsToSlashes(tag))
  {
    var disk := DiskName(tag);
    var prefix := Prefix(disk);
    var components := Components(catalog, disk);
    var componentPath := DotsToSlashes(tag);
    ghost var cs := Candidates(componentPath);
    assert prefix + cs[1] == prefix + "components/" + componentPath;
    assert prefix + cs[2] == prefix + componentPath + "/index";
    assert prefix + cs[3] == prefix + "components/" + componentPath + "/index";
    ghost var rest1, rest2, rest3 := cs[1..], cs[1..][1..], cs[1..][1..][1..];
    assert rest1[0] == cs[1] && rest2[0] == cs[2] && rest3[0] == cs[3] && rest3[1..] == [];
    assert FirstListed(prefix, components, rest2, componentPath)
      == if prefix + cs[2] in components then cs[2] else FirstListed(prefix, components, rest3, componentPath);
    assert FirstListed(prefix, components, rest3, componentPath)
      == if prefix + cs[3] in components then cs[3] else FirstListed(prefix, components, [], componentPath);
    if prefix + componentPath in components then
      // the source recomputes the same dots-to-slashes name here
      componentPath
    else if prefix + "components/" + componentPath in components then
      "components/" + componentPath
    else if prefix + componentPath + "/index" in components then
      componentPath + "/index"
    else if prefix + "components/" + componentPath + "/index" in components then
      "components/" + componentPath + "/index"
    else
      componentPath
  }

  /**
   * A tag with no listed candidate in its group resolves to its name with
   * dots made slashes; with a disk name the `disk::` part stays in it.
   */
  lemma UnlistedTagKeepsName(catalog: Catalog, tag: string)
    requires forall c :: c in Candidates(DotsToSlashes(tag)) ==>
      Prefix(DiskName(tag)) + c !in Components(catalog, DiskName(tag))
    ensures ComponentPath(catalog, tag) == DotsToSlashes(tag)
    ensures DiskName(tag).Some? ==> ComponentPath(catalog, tag)[..|DiskName(tag).value| + 2] == DiskName(tag).value + "::"
  {
    var p := DotsToSlashes(tag);
    var cs := Candidates(p);
    FirstListedIsFirstHit(Prefix(DiskName(tag)), Components(catalog, DiskName(tag)), cs, p);
    assert cs[0] in cs && cs[1] in cs && cs[2] in cs && cs[3] in cs;
    if DiskName(tag).Some? {
      var d := DiskName(tag).value;
      assert p[..|d| + 2] == d + "::";
    }
  }

  /** A tag without `.` keeps its name under the dots-to-slashes rewrite. */
  lemma NoDotsKept(tag: string)
    requires forall j :: 0 <= j < |tag| ==> tag[j] != '.'
    ensures DotsToSlashes(tag) == tag
  {
  }

  /** When the first probe is listed, the tag resolves to its dots-to-slashes name. */
  lemma FirstProbeListed(catalog: Catalog, tag: string)
    requires Prefix(DiskName(tag)) + DotsToSlashes(tag) in Components(catalog, DiskName(tag))
    ensures ComponentPath(catalog, tag) == DotsToSlashes(tag)
  {
  }

  /** A plain name (no `:`, no `.`) listed in the default group resolves to itself. */
  lemma ListedNameKept(catalog: Catalog, name: string)
    requires forall j :: 0 <= j < |name| ==> name[j] != ':' && name[j] != '.'
    requires name in Components(catalog, None)
    ensures ComponentPath(catalog, name) == name
  {
    assert Prefix(None) + name == name;
    NoColonNoDisk(name);
    NoDotsKept(name);
    FirstProbeListed(catalog, name);
  }

  /**
   * A disk-prefixed tag whose group lists only the tag itself: every probe
   * carries the `disk::` prefix a second time, so none is listed and the
   * tag keeps its name.
   */
  lemma DiskTagKeepsName(catalog: Catalog, disk: string, rest: string)
    requires disk != [] && All(Word, disk) && All(Name, rest)
    requires forall j :: 0 <= j < |rest| ==> rest[j] != '.'
    requires Components(catalog, Some(disk)) == [disk + "::" + rest]
    ensures ComponentPath(catalog, disk + "::" + rest) == disk + "::" + rest
  {
    var tag := disk + "::" + rest;
    DiskNameOfPrefixed(disk, rest);
    assert forall j :: 0 <= j < |tag| ==> tag[j] != '.' by {
      forall j | 0 <= j < |tag| ensures tag[j] != '.' {
        if j < |disk| { assert tag[j] == disk[j] && InClass(Word, disk[j]); }
      }
    }
    NoDotsKept(tag);
    forall c | c in Candidates(tag) ensures Prefix(Some(disk)) + c !in Components(catalog, Some(disk)) {
      assert |Prefix(Some(disk)) + c| > |tag|;
    }
    UnlistedTagKeepsName(catalog, tag);
  }

  /** `componentString`: the `@component` call for `tag` with its typed attributes. */
  function ComponentString(catalog: Catalog, tag: string, attributes: AttrMap): string {
    "\n@component(\"" + ComponentPath(catalog, tag) + "\", { " + AttributesToString(attributes) + " })"
  }
}
