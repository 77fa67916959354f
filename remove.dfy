/** `ether remove <name>` (`Sources/Ether/Remove.swift`): delete every dependency entry
    of the manifest whose URL names the package, then fetch and update. */
module Remove {
  import opened Wrappers
  import opened Strings
  import opened PackageText

  /** A line break and the eight spaces of indentation the pattern demands before `.Package`. */
  const Indent: string := "\n        "

  /** The URL characters of the pattern: digits, `-`, `.`, `@`, `\w`, `/` and `:`. */
  predicate IsUrlChar(c: char)
  {
    IsWordChar(c) || c == '-' || c == '.' || c == '@' || c == '/' || c == ':'
  }

  /** The URL ends in `<name>.git`, ignoring case, after at least one URL character. */
  predicate NamesPackage(url: string, name: string)
  {
    var cut := |url| - |name| - 4;
    cut > 0 && Lower(url[cut..]) == Lower(name + ".git")
    && forall k :: 0 <= k < cut ==> IsUrlChar(url[k])
  }

  /** An entry the case-insensitive pattern of `remove` finds for `name`. */
  predicate MatchesRemove(e: Entry, name: string)
  {
    EndsWith(e.lead, Indent) && Lower(e.head) == ".package(url:"
    && NamesPackage(e.url, name) && IsVersionArg(e.version)
  }

  /** What the deletion leaves of a matching entry. The match begins at the last line
      break of the lead, and takes the comma only when the comma is right before it. */
  function Residue(e: Entry): string
    requires EndsWith(e.lead, Indent)
  {
    if e.lead == Indent then "" else CommaText(e.comma) + e.lead[..|e.lead| - |Indent|]
  }

  /** The text the pattern matches: optional comma, line break and indentation, the entry. */
  function Deleted(e: Entry): string
  {
    (if e.lead == Indent then CommaText(e.comma) else "") + Indent + Tail(e)
  }

  /** The residue followed by the deleted text is the whole entry: the deletion takes the
      leading comma and line break with it and leaves the rest of the text as it was. */
  lemma ResidueThenDeleted(e: Entry)
    requires EndsWith(e.lead, Indent)
    ensures RenderEntry(e) == Residue(e) + Deleted(e)
    ensures e.lead == Indent ==> Residue(e) == "" && Deleted(e) == RenderEntry(e)
  {
    var n := |e.lead| - |Indent|;
    assert e.lead == e.lead[..n] + Indent;
    if e.lead == Indent {
      assert RenderEntry(e) == CommaText(e.comma) + Indent + Tail(e);
    } else {
      calc {
        RenderEntry(e);
        CommaText(e.comma) + e.lead + Tail(e);
        CommaText(e.comma) + (e.lead[..n] + Indent) + Tail(e);
        (CommaText(e.comma) + e.lead[..n]) + ("" + Indent + Tail(e));
      }
    }
  }

  function DeleteMatch(c: Chunk, name: string): Chunk
  {
    if c.Dep? && MatchesRemove(c.entry, name) then Text(Residue(c.entry)) else c
  }

  /** `replaceMatches(..., withTemplate: "")` as written: each match is deleted from the
      text and nothing else changes. */
  function RemoveAsWritten(doc: seq<Chunk>, name: string): (r: seq<Chunk>)
    ensures |r| == |doc|
    ensures forall i :: 0 <= i < |doc| ==> r[i] == DeleteMatch(doc[i], name)
  {
    seq(|doc|, i requires 0 <= i < |doc| => DeleteMatch(doc[i], name))
  }

  /** A manifest with two entries in one list, the first of them for package `a`. */
  function TwoEntryList(): seq<Chunk>
  {
    [Text("["),
     Dep(Entry(false, Indent, ".Package(url:", "x/a.git", "majorVersion: 1")),
     Dep(Entry(true, Indent, ".Package(url:", "x/b.git", "majorVersion: 1")),
     Text("]")]
  }

  /** The pattern for `a` finds the first entry of the list and not the second. */
  lemma TwoEntryMatches()
    ensures MatchesRemove(TwoEntryList()[1].entry, "a")
    ensures !MatchesRemove(TwoEntryList()[2].entry, "a")
  {
    var a := TwoEntryList()[1].entry;
    var b := TwoEntryList()[2].entry;
    assert EndsWith(a.lead, Indent);
    assert Lower(a.head) == ".package(url:";
    assert a.url[2..] == "a.git";
    assert NamesPackage(a.url, "a");
    assert IsVersionArg(a.version);
    assert b.url[2..] == "b.git";
    assert Lower(b.url[2..])[0] == 'b';
    assert Lower("a" + ".git")[0] == 'a';
  }

  lemma TwoEntryRemoved()
    ensures RemoveAsWritten(TwoEntryList(), "a") == [Text("["), Text(""), TwoEntryList()[2], Text("]")]
  {
    TwoEntryMatches();
  }

  /** The entries of a list written as text, two chunks, text. */
  lemma EntriesOfFour(c0: Chunk, c1: Chunk, c2: Chunk, c3: Chunk)
    requires c0.Text? && c3.Text?
    ensures Entries([c0, c1, c2, c3]) == (if c1.Dep? then [c1.entry] else []) + (if c2.Dep? then [c2.entry] else [])
  {
    var t3 := [c3] + [];
    var t2 := [c2] + t3;
    var t1 := [c1] + t2;
    assert [c0, c1, c2, c3] == [c0] + t1;
    EntriesCons(c3, []);
    EntriesCons(c2, t3);
    EntriesCons(c1, t2);
    EntriesCons(c0, t1);
  }

  /** The text of four chunks, one after the other. */
  lemma RenderOfFour(c0: Chunk, c1: Chunk, c2: Chunk, c3: Chunk)
    ensures Render([c0, c1, c2, c3]) == RenderChunk(c0) + (RenderChunk(c1) + (RenderChunk(c2) + RenderChunk(c3)))
  {
    var t3 := [c3] + [];
    var t2 := [c2] + t3;
    var t1 := [c1] + t2;
    assert [c0, c1, c2, c3] == [c0] + t1;
    RenderCons(c3, []);
    RenderCons(c2, t3);
    RenderCons(c1, t2);
    RenderCons(c0, t1);
    assert RenderChunk(c3) + "" == RenderChunk(c3);
  }

  /** Removing the first entry of a list as written leaves the comma of the second one
      right after the bracket: the list is no longer comma-separated and the text reads `[,`. */
  lemma RemoveFirstLeavesComma()
    ensures ListShaped(Entries(TwoEntryList()))
    ensures !ListShaped(Entries(RemoveAsWritten(TwoEntryList(), "a")))
    ensures Render(RemoveAsWritten(TwoEntryList(), "a"))[..2] == "[,"
  {
    var doc := TwoEntryList();
    EntriesOfFour(doc[0], doc[1], doc[2], doc[3]);
    assert doc == [doc[0], doc[1], doc[2], doc[3]];
    AsWrittenLeft();
  }

  /** What is left of the list once `a` is removed as written: the second entry alone,
      with its comma, right after the bracket. */
  lemma AsWrittenLeft()
    ensures Entries(RemoveAsWritten(TwoEntryList(), "a")) == [TwoEntryList()[2].entry]
    ensures Render(RemoveAsWritten(TwoEntryList(), "a"))[..2] == "[,"
  {
    var b := TwoEntryList()[2];
    var r := RemoveAsWritten(TwoEntryList(), "a");
    TwoEntryRemoved();
    EntriesOfFour(Text("["), Text(""), b, Text("]"));
    RenderOfFour(r[0], r[1], r[2], r[3]);
    assert r == [Text("["), Text(""), b, Text("]")];
    assert RenderEntry(b.entry)[0] == ',';
  }

  /** `h` is what the corrected deletion may leave of chunk `c`: text as it was, a matching
      entry deleted as written, a kept entry with at most its leading comma changed. */
  predicate RepairOf(c: Chunk, h: Chunk, name: string)
  {
    if !c.Dep? then h == c
    else if MatchesRemove(c.entry, name) then h == Text(Residue(c.entry))
    else h.Dep? && h.entry.(comma := c.entry.comma) == c.entry
  }

  /** The corrected deletion of one chunk: as written, except that a kept entry with no
      entry kept before it loses its comma. */
  function Repair(c: Chunk, name: string, keptBefore: bool): (h: Chunk)
    ensures RepairOf(c, h, name)
  {
    if c.Dep? && !MatchesRemove(c.entry, name) then
      if keptBefore then c else Dep(c.entry.(comma := false))
    else DeleteMatch(c, name)
  }

  /** The corrected deletion: as written, except that an entry left first in the list
      loses its comma. `keptBefore` says whether an entry has been kept already. */
  function RemoveFrom(doc: seq<Chunk>, name: string, keptBefore: bool): (r: seq<Chunk>)
    ensures |r| == |doc|
    ensures forall i :: 0 <= i < |doc| ==> RepairOf(doc[i], r[i], name)
  {
    if doc == [] then []
    else
      var c := doc[0];
      var rest := RemoveFrom(doc[1..], name, keptBefore || (c.Dep? && !MatchesRemove(c.entry, name)));
      var r := [Repair(c, name, keptBefore)] + rest;
      assert forall i :: 1 <= i < |doc| ==> doc[i] == doc[1..][i - 1] && r[i] == rest[i - 1];
      r
  }

  /** `remove`'s deletion, with the comma repair. */
  function RemovePackage(doc: seq<Chunk>, name: string): seq<Chunk>
  {
    RemoveFrom(doc, name, false)
  }

  /** The entries that do not match. */
  function Kept(es: seq<Entry>, name: string): (r: seq<Entry>)
    ensures forall e :: e in r ==> e in es && !MatchesRemove(e, name)
  {
    if es == [] then []
    else (if MatchesRemove(es[0], name) then [] else [es[0]]) + Kept(es[1..], name)
  }

  function FirstWithoutComma(es: seq<Entry>): seq<Entry>
  {
    if es == [] then [] else [es[0].(comma := false)] + es[1..]
  }

  lemma {:induction false} RemoveFromEntries(doc: seq<Chunk>, name: string, keptBefore: bool)
    ensures Entries(RemoveFrom(doc, name, keptBefore))
         == if keptBefore then Kept(Entries(doc), name) else FirstWithoutComma(Kept(Entries(doc), name))
    decreases |doc|
  {
    if doc != [] {
      var c := doc[0];
      assert doc == [c] + doc[1..];
      EntriesCons(c, doc[1..]);
      var es := Entries(doc);
      if c.Dep? {
        assert es == [c.entry] + Entries(doc[1..]);
        assert es[1..] == Entries(doc[1..]);
      }
      if c.Dep? && !MatchesRemove(c.entry, name) {
        var e := if keptBefore then c.entry else c.entry.(comma := false);
        var rest := RemoveFrom(doc[1..], name, true);
        RemoveFromEntries(doc[1..], name, true);
        EntriesCons(Dep(e), rest);
        var k := Kept(Entries(doc[1..]), name);
        assert Kept(es, name) == [c.entry] + k;
        assert ([c.entry] + k)[1..] == k;
      } else {
        var rest := RemoveFrom(doc[1..], name, keptBefore);
        RemoveFromEntries(doc[1..], name, keptBefore);
        EntriesCons(DeleteMatch(c, name), rest);
        if c.Dep? {
          assert es[0] == c.entry && MatchesRemove(es[0], name);
        } else {
          assert es == Entries(doc[1..]);
        }
        assert Kept(es, name) == Kept(Entries(doc[1..]), name);
      }
    }
  }

  lemma {:induction false} KeptAllComma(es: seq<Entry>, name: string)
    requires forall k :: 0 <= k < |es| ==> es[k].comma
    ensures forall k :: 0 <= k < |Kept(es, name)| ==> Kept(es, name)[k].comma
  {
    if es != [] {
      KeptAllComma(es[1..], name);
    }
  }

  /** The entries left are the ones that did not match, in order, the first of them without
      a comma; so a comma-separated list stays comma-separated. */
  lemma RemovePackageEntries(doc: seq<Chunk>, name: string)
    ensures Entries(RemovePackage(doc, name)) == FirstWithoutComma(Kept(Entries(doc), name))
    ensures ListShaped(Entries(doc)) ==> ListShaped(Entries(RemovePackage(doc, name)))
  {
    RemoveFromEntries(doc, name, false);
    var es := Entries(doc);
    if ListShaped(es) && es != [] {
      KeptAllComma(es[1..], name);
      assert es == [es[0]] + es[1..];
    }
  }

  /** No entry for the package is left. */
  /** As written, the entries left are exactly the non-matching ones, each as it was, so no
      entry for the package is left; the comma before the first one is not touched. */
  lemma {:induction false} NoneLeftAsWritten(doc: seq<Chunk>, name: string)
    ensures Entries(RemoveAsWritten(doc, name)) == Kept(Entries(doc), name)
    ensures forall e :: e in Entries(RemoveAsWritten(doc, name)) ==> !MatchesRemove(e, name)
  {
    if doc != [] {
      NoneLeftAsWritten(doc[1..], name);
      var rest := RemoveAsWritten(doc[1..], name);
      assert RemoveAsWritten(doc, name) == [DeleteMatch(doc[0], name)] + rest;
      EntriesCons(DeleteMatch(doc[0], name), rest);
      EntriesCons(doc[0], doc[1..]);
      assert doc == [doc[0]] + doc[1..];
      if doc[0].Dep? {
        var es := Entries(doc);
        assert es == [doc[0].entry] + Entries(doc[1..]);
        assert es[0] == doc[0].entry && es[1..] == Entries(doc[1..]);
        assert Kept(es, name) == (if MatchesRemove(doc[0].entry, name) then [] else [doc[0].entry])
                                 + Kept(Entries(doc[1..]), name);
      } else {
        assert DeleteMatch(doc[0], name) == doc[0];
        assert Entries(doc) == Entries(doc[1..]);
      }
    }
  }

  lemma NoneLeft(doc: seq<Chunk>, name: string)
    ensures forall e :: e in Entries(RemovePackage(doc, name)) ==> !MatchesRemove(e, name)
  {
    RemovePackageEntries(doc, name);
    var kept := Kept(Entries(doc), name);
    forall e | e in FirstWithoutComma(kept)
      ensures !MatchesRemove(e, name)
    {
      if e !in kept {
        assert e == kept[0].(comma := false);
        assert kept[0] in kept;
      }
    }
  }

  lemma {:induction false} KeptBeforeAsWritten(doc: seq<Chunk>, name: string)
    ensures RemoveFrom(doc, name, true) == RemoveAsWritten(doc, name)
    decreases |doc|
  {
    if doc != [] {
      KeptBeforeAsWritten(doc[1..], name);
    }
  }

  lemma {:induction false} FirstKeptAsWritten(doc: seq<Chunk>, name: string)
    requires Entries(doc) != [] && !Entries(doc)[0].comma && !MatchesRemove(Entries(doc)[0], name)
    ensures RemoveFrom(doc, name, false) == RemoveAsWritten(doc, name)
    decreases |doc|
  {
    if doc[0].Dep? {
      KeptBeforeAsWritten(doc[1..], name);
      assert doc[0].entry.(comma := false) == doc[0].entry;
    } else {
      FirstKeptAsWritten(doc[1..], name);
    }
  }

  /** The repair changes nothing unless the first entry of the list is the one removed. */
  lemma RepairOnlyForFirst(doc: seq<Chunk>, name: string)
    requires ListShaped(Entries(doc)) && Entries(doc) != []
    requires !MatchesRemove(Entries(doc)[0], name)
    ensures RemovePackage(doc, name) == RemoveAsWritten(doc, name)
  {
    FirstKeptAsWritten(doc, name);
  }

  /** The step of the write, fetch and update sequence that failed, if any. */
  datatype Step = Write | Fetch | Update

  datatype Failure = NoMatch | StepFailed(step: Step)

  datatype Bar = Running | Failed | Finished

  const NoMatchMessage: string := "No packages matching the name passed in where found"

  /** The number of packages reported removed: the old pin count minus the new one, only
      when both pin files could be read. */
  function RemovedCount(oldPins: Option<nat>, newPins: Option<nat>): (r: Option<int>)
    ensures r.Some? <==> oldPins.Some? && newPins.Some?
    ensures r.Some? ==> r.value + newPins.value == oldPins.value
  {
    if oldPins.Some? && newPins.Some? then Some(oldPins.value - newPins.value) else None
  }

  /** The working directory as `remove` sees it: the manifest and the loading bar. */
  class Workspace {
    var manifest: seq<Chunk>
    var bar: Bar

    constructor (manifest: seq<Chunk>)
      ensures this.manifest == manifest && bar == Running
    {
      this.manifest := manifest;
      bar := Running;
    }

    /** `run(arguments:)` as written: the manifest is edited by the source's own deletion
        (`RemoveAsWritten`). `failing` is the step of write, fetch and update that throws,
        if any; `oldPins` and `newPins` are the pin counts read before and after. */
    method Remove(name: string, failing: Option<Step>, oldPins: Option<nat>, newPins: Option<nat>)
      returns (r: Result<Option<int>, Failure>)
      requires bar == Running
      modifies this
      ensures (forall e :: e in Entries(old(manifest)) ==> !MatchesRemove(e, name)) ==>
                r == Err(NoMatch) && manifest == old(manifest) && bar == Running
      ensures (exists e :: e in Entries(old(manifest)) && MatchesRemove(e, name)) ==>
                Committed(r, failing, old(manifest), RemoveAsWritten(old(manifest), name), oldPins, newPins)
    {
      if forall e :: e in Entries(manifest) ==> !MatchesRemove(e, name) {
        return Err(NoMatch);
      }
      r := Commit(RemoveAsWritten(manifest, name), failing, oldPins, newPins);
    }

    /** The same command with the corrected deletion (`RemovePackage`), which never
        leaves a list starting with a comma. */
    method RemoveRepaired(name: string, failing: Option<Step>, oldPins: Option<nat>, newPins: Option<nat>)
      returns (r: Result<Option<int>, Failure>)
      requires bar == Running
      modifies this
      ensures (forall e :: e in Entries(old(manifest)) ==> !MatchesRemove(e, name)) ==>
                r == Err(NoMatch) && manifest == old(manifest) && bar == Running
      ensures (exists e :: e in Entries(old(manifest)) && MatchesRemove(e, name)) ==>
                Committed(r, failing, old(manifest), RemovePackage(old(manifest), name), oldPins, newPins)
      ensures manifest != old(manifest) ==>
                Entries(manifest) == FirstWithoutComma(Kept(Entries(old(manifest)), name)) &&
                (ListShaped(Entries(old(manifest))) ==> ListShaped(Entries(manifest)))
    {
      if forall e :: e in Entries(manifest) ==> !MatchesRemove(e, name) {
        return Err(NoMatch);
      }
      RemovePackageEntries(manifest, name);
      r := Commit(RemovePackage(manifest, name), failing, oldPins, newPins);
    }

    /** Writes `edited` and runs fetch and update, stopping at the step in `failing`. */
    method Commit(edited: seq<Chunk>, failing: Option<Step>, oldPins: Option<nat>, newPins: Option<nat>)
      returns (r: Result<Option<int>, Failure>)
      requires bar == Running
      modifies this
      ensures Committed(r, failing, old(manifest), edited, oldPins, newPins)
    {
      if failing == Some(Write) {
        bar := Failed;
        return Err(StepFailed(Write));
      }
      manifest := edited;
      if failing.Some? {
        bar := Failed;
        return Err(StepFailed(failing.value));
      }
      bar := Finished;
      return Ok(RemovedCount(oldPins, newPins));
    }

    /** The state after writing `edited` over `before`: a failed write leaves `before`
        and fails the bar; a failed fetch or update leaves `edited` written and fails the
        bar; otherwise `edited` is written, the bar finishes and the count is reported. */
    ghost predicate Committed(r: Result<Option<int>, Failure>, failing: Option<Step>,
                              before: seq<Chunk>, edited: seq<Chunk>, oldPins: Option<nat>, newPins: Option<nat>)
      reads this
    {
      match failing
      case Some(Write) => r == Err(StepFailed(Write)) && manifest == before && bar == Failed
      case Some(step) => r == Err(StepFailed(step)) && manifest == edited && bar == Failed
      case None => r == Ok(RemovedCount(oldPins, newPins)) && manifest == edited && bar == Finished
    }
  }
}
