/** `ether version all` (`Sources/Ether/VersionAll.swift`): one line per pin of the
    lockfile, the package name followed by the version it is pinned at. */
module VersionAll {
  import opened Wrappers

  /** The `state` object of a pin. */
  datatype PinState = PinState(version: Option<string>, branch: Option<string>, revision: string)

  datatype Pin = Pin(package: string, state: PinState)

  /** What the command prints for a run: its lines, and whether reading the lockfile failed. */
  datatype Printed = Printed(lines: seq<string>, failed: bool)

  const Heading: string := "Getting Package Data..."

  /** The version shown for a pin: a tagged version with `v` in front, else the branch as
      it is, else the revision. */
  function Display(s: PinState): (r: string)
    ensures s.version.Some? ==> r == "v" + s.version.value
    ensures s.version.None? && s.branch.Some? ==> r == s.branch.value
    ensures s.version.None? && s.branch.None? ==> r == s.revision
  {
    if s.version.Some? then "v" + s.version.value
    else if s.branch.Some? then s.branch.value
    else s.revision
  }

  /** The package name, then on the same line its version. */
  function PinLine(p: Pin): string
  {
    p.package + Display(p.state)
  }

  /** The `forEach` over the pins. */
  function Listing(pins: seq<Pin>): (lines: seq<string>)
  {
    if pins == [] then [] else [PinLine(pins[0])] + Listing(pins[1..])
  }

  /** Exactly one line per pin, in lockfile order, each the pin's name followed by its
      displayed version. */
  lemma {:induction false} ListingLines(pins: seq<Pin>)
    ensures |Listing(pins)| == |pins|
    ensures forall i :: 0 <= i < |pins| ==> Listing(pins)[i] == pins[i].package + Display(pins[i].state)
  {
    if pins != [] {
      ListingLines(pins[1..]);
      var rest := Listing(pins[1..]);
      assert Listing(pins) == [PinLine(pins[0])] + rest;
      forall i | 0 <= i < |pins|
        ensures Listing(pins)[i] == pins[i].package + Display(pins[i].state)
      {
        if i > 0 {
          assert Listing(pins)[i] == rest[i - 1];
          assert pins[1..][i - 1] == pins[i];
        }
      }
    }
  }

  /** Listing two runs of pins one after the other lists each in turn. */
  lemma {:induction false} ListingAppend(a: seq<Pin>, b: seq<Pin>)
    ensures Listing(a + b) == Listing(a) + Listing(b)
  {
    if a == [] {
      assert a + b == b;
    } else {
      assert (a + b)[1..] == a[1..] + b;
      ListingAppend(a[1..], b);
    }
  }

  /** `run(using:)`: the heading, then the listing; `None` when the lockfile cannot be read. */
  function Run(resolved: Option<seq<Pin>>): (r: Printed)
    ensures r.failed <==> resolved.None?
    ensures |r.lines| > 0 && r.lines[0] == Heading
    ensures resolved.Some? ==> r.lines[1..] == Listing(resolved.value)
    ensures resolved.None? ==> r.lines == [Heading]
  {
    match resolved
    case None => Printed([Heading], true)
    case Some(pins) => Printed([Heading] + Listing(pins), false)
  }
}
