/** Lockfile lookups and target editing of `Sources/Helpers/Manifest.swift`.

    The lockfile `Package.resolved` is read as loosely typed JSON: each pin is a
    dictionary whose `package` and `repositoryURL` keys may be missing or not be
    strings. The manifest `Package.swift` is a sequence of chunks: plain text,
    and the `.target(name: ...)` / `.testTarget(name: ...)` declarations that the
    target pattern of the source recognises. */
module Manifest {
  import opened Wrappers

  /** One pin of `Package.resolved`; `None` stands for a key that is absent or not a string. */
  datatype JsonPin = JsonPin(package: Option<string>, repositoryURL: Option<string>)

  const UnreadableResolved := "Unable to read Package.resolved"
  const NonExistentTarget := "Attempted to add a dependency to a non-existent target"

  function NoPackageFor(name: string): string
  {
    "No package data found for name '" + name + "'"
  }

  function NoUrlFor(name: string): string
  {
    "Unable to read repo URL for package with name '" + name + "'"
  }

  /** The three messages of the lookups are different texts. */
  lemma MessagesDiffer(name: string)
    ensures NoPackageFor(name) != NoUrlFor(name)
    ensures NoPackageFor(name) != UnreadableResolved && NoUrlFor(name) != UnreadableResolved
  {
    assert |NoPackageFor(name)| == 33 + |name|;
    assert |NoUrlFor(name)| == 48 + |name|;
    assert |UnreadableResolved| == 31;
  }

  function Url(p: JsonPin): Option<string> { p.repositoryURL }

  function Name(p: JsonPin): Option<string> { p.package }

  /** The index of the first pin whose `key` is the string `want` (`filter { ... }.first`). */
  function FirstMatch(pins: seq<JsonPin>, key: JsonPin -> Option<string>, want: string): (r: Option<nat>)
    ensures r.Some? ==> r.value < |pins| && key(pins[r.value]) == Some(want)
    ensures r.Some? ==> forall j :: 0 <= j < r.value ==> key(pins[j]) != Some(want)
    ensures r.None? ==> forall j :: 0 <= j < |pins| ==> key(pins[j]) != Some(want)
    ensures forall i :: FirstWith(pins, key, want, i) <==> r == Some(i)
  {
    if pins == [] then None
    else if key(pins[0]) == Some(want) then Some(0)
    else match FirstMatch(pins[1..], key, want)
      case None => None
      case Some(i) => Some(i + 1)
  }

  /** True when every pin has the string key `key`: the filter closure of the source
      throws on the first pin that lacks it. */
  predicate AllHave(pins: seq<JsonPin>, key: JsonPin -> Option<string>)
  {
    forall j :: 0 <= j < |pins| ==> key(pins[j]).Some?
  }

  /** Pin `i` is the first pin whose `key` is `want`. */
  predicate FirstWith(pins: seq<JsonPin>, key: JsonPin -> Option<string>, want: string, i: int)
  {
    0 <= i < |pins| && key(pins[i]) == Some(want)
    && forall j :: 0 <= j < i ==> key(pins[j]) != Some(want)
  }

  /** `getPackageName(for:)`: the `package` of the first pin whose `repositoryURL` is `url`.
      `pins` is `None` when the document has no `object.pins` array. Every failure,
      including a pin without a string `repositoryURL` anywhere in the list, carries
      the same message. */
  function PackageName(pins: Option<seq<JsonPin>>, url: string): (r: Result<string, string>)
    ensures r.Err? ==> r.error == UnreadableResolved
    ensures r.Ok? <==> pins.Some? && AllHave(pins.value, Url)
                        && exists i :: FirstWith(pins.value, Url, url, i) && pins.value[i].package.Some?
    ensures r.Ok? ==> exists i :: FirstWith(pins.value, Url, url, i) && pins.value[i].package == Some(r.value)
    ensures pins.Some? && !AllHave(pins.value, Url) ==> r.Err?
  {
    match pins
    case None => Err(UnreadableResolved)
    case Some(ps) =>
      if !AllHave(ps, Url) then Err(UnreadableResolved)
      else match FirstMatch(ps, Url, url)
        case None => Err(UnreadableResolved)
        case Some(i) =>
          if ps[i].package.Some? then Ok(ps[i].package.value) else Err(UnreadableResolved)
  }

  /** `getPackageUrl(for:)`: the `repositoryURL` of the first pin whose `package` is `name`.
      A missing `object.pins` array or a pin without a string `package` gives the
      unreadable-file message; no pin named `name` gives the no-package message; a first
      named pin without a string `repositoryURL` gives the no-URL message. */
  function PackageUrl(pins: Option<seq<JsonPin>>, name: string): (r: Result<string, string>)
    ensures pins.None? || (pins.Some? && !AllHave(pins.value, Name)) ==> r == Err(UnreadableResolved)
    ensures pins.Some? && AllHave(pins.value, Name) ==>
              ((forall j :: 0 <= j < |pins.value| ==> Name(pins.value[j]) != Some(name))
               <==> r == Err(NoPackageFor(name)))
    ensures r.Ok? <==> pins.Some? && AllHave(pins.value, Name)
                        && exists i :: FirstWith(pins.value, Name, name, i) && Url(pins.value[i]).Some?
    ensures r.Ok? ==> exists i :: FirstWith(pins.value, Name, name, i) && Url(pins.value[i]) == Some(r.value)
    ensures r == Err(NoUrlFor(name)) <==>
              (pins.Some? && AllHave(pins.value, Name)
               && exists i :: FirstWith(pins.value, Name, name, i) && Url(pins.value[i]).None?)
  {
    MessagesDiffer(name);
    match pins
    case None => Err(UnreadableResolved)
    case Some(ps) =>
      if !AllHave(ps, Name) then Err(UnreadableResolved)
      else match FirstMatch(ps, Name, name)
        case None => Err(NoPackageFor(name))
        case Some(i) =>
          if ps[i].repositoryURL.Some? then Ok(ps[i].repositoryURL.value) else Err(NoUrlFor(name))
  }

  /** Every pin has both keys, and no two pins share a name or a URL. */
  predicate UniquePins(pins: seq<JsonPin>)
  {
    AllHave(pins, Url) && AllHave(pins, Name)
    && (forall i, j :: 0 <= i < j < |pins| ==> Url(pins[i]) != Url(pins[j]))
    && (forall i, j :: 0 <= i < j < |pins| ==> Name(pins[i]) != Name(pins[j]))
  }

  /** The two lookups are inverse to each other on a lockfile whose names and URLs are unique. */
  lemma NameThenUrl(pins: seq<JsonPin>, url: string)
    requires UniquePins(pins)
    requires PackageName(Some(pins), url).Ok?
    ensures PackageUrl(Some(pins), PackageName(Some(pins), url).value) == Ok(url)
  {
    var name := PackageName(Some(pins), url).value;
    var i := FirstMatch(pins, Url, url).value;
    assert Name(pins[i]) == Some(name);
    assert FirstMatch(pins, Name, name) == Some(i);
  }

  lemma UrlThenName(pins: seq<JsonPin>, name: string)
    requires UniquePins(pins)
    requires PackageUrl(Some(pins), name).Ok?
    ensures PackageName(Some(pins), PackageUrl(Some(pins), name).value) == Ok(name)
  {
    var url := PackageUrl(Some(pins), name).value;
    var i := FirstMatch(pins, Name, name).value;
    assert Url(pins[i]) == Some(url);
    assert FirstMatch(pins, Url, url) == Some(i);
  }

  // ---------------------------------------------------------------------------
  // Targets of the manifest

  /** `.target(` or `.testTarget(`. */
  datatype TargetKind = Regular | Test

  /** The `dependencies: [...]` list of a target: its element literals in order
      (`"Vapor"`, `.product(name: "X", package: "Y")`, ...) and whether a comma
      follows the last one. */
  datatype DepList = DepList(items: seq<string>, trailingComma: bool)

  /** One declaration matched by the target pattern; `deps` is `None` when the
      declaration has no `dependencies:` argument. */
  datatype TargetDecl = TargetDecl(kind: TargetKind, name: string, deps: Option<DepList>)

  datatype Chunk = Text(text: string) | Decl(decl: TargetDecl)

  /** `getTargets()`: the names of the target declarations, in source order. */
  function TargetNames(doc: seq<Chunk>): (names: seq<string>)
    ensures |names| <= |doc|
    ensures forall n :: n in names <==> exists i :: 0 <= i < |doc| && doc[i].Decl? && doc[i].decl.name == n
  {
    if doc == [] then []
    else
      var rest := TargetNames(doc[1..]);
      assert forall i :: 1 <= i < |doc| ==> doc[i] == doc[1..][i - 1];
      if doc[0].Decl? then [doc[0].decl.name] + rest else rest
  }

  /** Listing splits over a concatenation of documents; with `TargetNamesOne` this fixes
      the order and the multiplicity of the names: one per declaration, in source order. */
  lemma {:induction false} TargetNamesAppend(a: seq<Chunk>, b: seq<Chunk>)
    ensures TargetNames(a + b) == TargetNames(a) + TargetNames(b)
  {
    if a == [] {
      assert a + b == b;
    } else {
      assert (a + b)[0] == a[0] && (a + b)[1..] == a[1..] + b;
      TargetNamesAppend(a[1..], b);
    }
  }

  /** A declaration lists its name once; text lists nothing. */
  lemma TargetNamesOne(c: Chunk)
    ensures c.Decl? ==> TargetNames([c]) == [c.decl.name]
    ensures c.Text? ==> TargetNames([c]) == []
  {
  }

  /** The index of the first target declaration named `target`. */
  function FirstTarget(doc: seq<Chunk>, target: string): (r: Option<nat>)
    ensures r.Some? ==> r.value < |doc| && doc[r.value].Decl? && doc[r.value].decl.name == target
    ensures r.Some? ==> forall j :: 0 <= j < r.value ==> !(doc[j].Decl? && doc[j].decl.name == target)
    ensures r.None? ==> forall j :: 0 <= j < |doc| ==> !(doc[j].Decl? && doc[j].decl.name == target)
  {
    if doc == [] then None
    else if doc[0].Decl? && doc[0].decl.name == target then Some(0)
    else match FirstTarget(doc[1..], target)
      case None => None
      case Some(i) => Some(i + 1)
  }

  function Quoted(s: string): string
  {
    "\"" + s + "\""
  }

  /** The dependencies pattern needs a non-empty list whose last element closes with a
      quote or a parenthesis; an empty or absent list is left as it is. */
  predicate Appendable(deps: Option<DepList>)
  {
    deps.Some? && |deps.value.items| > 0
    && var last := deps.value.items[|deps.value.items| - 1];
       |last| > 0 && (last[|last| - 1] == '"' || last[|last| - 1] == ')')
  }

  /** The replacement `$1, "dep"]` applied to one target's dependency list. */
  function AppendDependency(t: TargetDecl, dep: string): (r: TargetDecl)
  {
    if Appendable(t.deps) then t.(deps := Some(DepList(t.deps.value.items + [Quoted(dep)], false)))
    else t
  }

  /** `addDependency(_:to:)` on the text: the new manifest, or the message thrown when
      no target has that name. */
  function WithDependency(doc: seq<Chunk>, dep: string, target: string): (r: Result<seq<Chunk>, string>)
    ensures r.Err? <==> target !in TargetNames(doc)
    ensures r.Err? ==> r.error == NonExistentTarget
    ensures r.Ok? ==> |r.value| == |doc|
    ensures r.Ok? ==> exists i :: (0 <= i < |doc| && doc[i].Decl? && doc[i].decl.name == target
              && (forall j :: 0 <= j < i ==> !(doc[j].Decl? && doc[j].decl.name == target))
              && r.value[i] == Decl(AppendDependency(doc[i].decl, dep))
              && forall j :: 0 <= j < |doc| && j != i ==> r.value[j] == doc[j])
  {
    match FirstTarget(doc, target)
    case None => Err(NonExistentTarget)
    case Some(i) => Ok(doc[i := Decl(AppendDependency(doc[i].decl, dep))])
  }

  /** Within the edited target the new name becomes the last element, the trailing comma
      goes, and nothing else of the target changes. */
  lemma AppendDependencyEffect(t: TargetDecl, dep: string)
    requires Appendable(t.deps)
    ensures var r := AppendDependency(t, dep);
            r.kind == t.kind && r.name == t.name && r.deps.Some?
            && r.deps.value.items == t.deps.value.items + ["\"" + dep + "\""]
            && !r.deps.value.trailingComma
  {
  }

  /** No duplicate check: adding the same name twice lists it twice. */
  lemma {:induction false} AddTwiceListsTwice(doc: seq<Chunk>, dep: string, target: string)
    requires WithDependency(doc, dep, target).Ok?
    requires Appendable(doc[FirstTarget(doc, target).value].decl.deps)
    ensures var once := WithDependency(doc, dep, target).value;
            var twice := WithDependency(once, dep, target);
            var i := FirstTarget(doc, target).value;
            twice.Ok? && twice.value[i].decl.deps.value.items
                         == doc[i].decl.deps.value.items + [Quoted(dep), Quoted(dep)]
  {
    var i := FirstTarget(doc, target).value;
    var once := WithDependency(doc, dep, target).value;
    assert once == doc[i := Decl(AppendDependency(doc[i].decl, dep))];
    assert forall j :: 0 <= j < i ==> once[j] == doc[j];
    assert FirstTarget(once, target) == Some(i);
    assert Appendable(once[i].decl.deps);
  }

  /** Adding a dependency keeps every target and its name. */
  lemma {:induction false} AddKeepsTargets(doc: seq<Chunk>, dep: string, target: string)
    requires WithDependency(doc, dep, target).Ok?
    ensures TargetNames(WithDependency(doc, dep, target).value) == TargetNames(doc)
  {
    var i := FirstTarget(doc, target).value;
    NamesAfterUpdate(doc, i, Decl(AppendDependency(doc[i].decl, dep)));
  }

  lemma {:induction false} NamesAfterUpdate(doc: seq<Chunk>, i: nat, c: Chunk)
    requires i < |doc| && doc[i].Decl? && c.Decl? && c.decl.name == doc[i].decl.name
    ensures TargetNames(doc[i := c]) == TargetNames(doc)
    decreases |doc|
  {
    if i > 0 {
      assert doc[i := c][1..] == doc[1..][i - 1 := c];
      NamesAfterUpdate(doc[1..], i - 1, c);
    } else {
      assert doc[i := c][1..] == doc[1..];
    }
  }

  /** The manifest text as `addDependency` sees it: an `NSMutableString` edited in place. */
  class ManifestText {
    var chunks: seq<Chunk>

    constructor (doc: seq<Chunk>)
      ensures chunks == doc
    {
      chunks := doc;
    }

    /** `addDependency(_:to:)`: on failure the text is untouched. */
    method AddDependency(dep: string, target: string) returns (failure: Option<string>)
      modifies this
      ensures failure.Some? <==> target !in TargetNames(old(chunks))
      ensures failure.Some? ==> failure.value == NonExistentTarget && chunks == old(chunks)
      ensures failure.None? ==> chunks == WithDependency(old(chunks), dep, target).value
    {
      var i := FirstTarget(chunks, target);
      if i.None? {
        return Some(NonExistentTarget);
      }
      chunks := chunks[i.value := Decl(AppendDependency(chunks[i.value].decl, dep))];
      failure := None;
    }
  }
}
