/** The formatter of `ether test` (`Sources/Ether/Test.swift`): each line of `swift test`
    output is matched against a fixed list of patterns, in order; the first that fires
    decides what is printed, and four cells carried from line to line remember whether
    the build has started, whether a suite just completed, and the pending error and
    measurement of the current test case.

    The patterns themselves are not reproduced: a line is given as what each pattern
    finds in it. Styles and colours are left out; an output is its text fragments. */
module TestOutput {
  import opened Wrappers
  import opened Strings

  /** `Test Case '-[<class> <name>]' <status> (<time> seconds).` */
  datatype CaseResult = CaseResult(name: string, status: string, time: string)

  /** `Test Suite '<suite>' <status> at ...` */
  datatype SuiteResult = SuiteResult(suite: string, status: string)

  /** `Executed <run> tests, with <failed> failure ...` */
  datatype SuiteCounts = SuiteCounts(run: string, failed: string)

  /** What each pattern finds in one line: the build pattern (`Compile` or `Linking` at
      the start), the suite start, the finished test case, the measurement (its average),
      the test error and the unknown error (their messages), the suite completion, the
      suite totals and the fatal error (its message). */
  datatype Line = Line(
    building: bool,
    suiteStart: Option<string>,
    caseDone: Option<CaseResult>,
    measured: Option<string>,
    testError: Option<string>,
    unknownError: Option<string>,
    suiteDone: Option<SuiteResult>,
    suiteData: Option<SuiteCounts>,
    fatal: Option<string>)

  /** The four cells the formatter closes over. */
  datatype State = State(compiling: bool, suiteSuccess: bool, error: Option<string>, measure: Option<string>)

  const Initial: State := State(false, false, None, None)

  /** The branch of `text(for:)` a line takes. */
  datatype Kind = Build | SuiteStart | CaseDone | Measure | TestError | UnknownError | SuiteDone | SuiteData | Fatal | Other

  /** The position of a branch in the `if`/`else if` chain. */
  function Rank(k: Kind): nat
  {
    match k
    case Build => 0
    case SuiteStart => 1
    case CaseDone => 2
    case Measure => 3
    case TestError => 4
    case UnknownError => 5
    case SuiteDone => 6
    case SuiteData => 7
    case Fatal => 8
    case Other => 9
  }

  /** The condition of a branch; the build branch also needs the build not yet announced. */
  predicate Fires(s: State, l: Line, k: Kind)
  {
    match k
    case Build => l.building && !s.compiling
    case SuiteStart => l.suiteStart.Some?
    case CaseDone => l.caseDone.Some?
    case Measure => l.measured.Some?
    case TestError => l.testError.Some?
    case UnknownError => l.unknownError.Some?
    case SuiteDone => l.suiteDone.Some?
    case SuiteData => l.suiteData.Some?
    case Fatal => l.fatal.Some?
    case Other => true
  }

  /** The branch taken: the first, in the order of the chain, whose condition holds. */
  function KindOf(s: State, l: Line): (k: Kind)
    ensures Fires(s, l, k)
    ensures forall j :: Rank(j) < Rank(k) ==> !Fires(s, l, j)
  {
    if l.building && !s.compiling then Build
    else if l.suiteStart.Some? then SuiteStart
    else if l.caseDone.Some? then CaseDone
    else if l.measured.Some? then Measure
    else if l.testError.Some? then TestError
    else if l.unknownError.Some? then UnknownError
    else if l.suiteDone.Some? then SuiteDone
    else if l.suiteData.Some? then SuiteData
    else if l.fatal.Some? then Fatal
    else Other
  }

  /** The note a measurement leaves for the next finished test case. */
  function MeasureNote(average: string): string
  {
    ". Average measured time is " + average + " sec."
  }

  /** The note a test error or an unknown error leaves for the next finished test case. */
  function ErrorNote(message: string): string
  {
    "\n    " + message
  }

  /** The cells after a line. */
  function Next(s: State, l: Line): (t: State)
    ensures t.compiling == (s.compiling || l.building)
    ensures t.suiteSuccess == match KindOf(s, l)
                              case SuiteStart => false
                              case SuiteDone => true
                              case _ => s.suiteSuccess
    ensures KindOf(s, l) == CaseDone ==> t.error.None? && t.measure.None?
    ensures KindOf(s, l) == Measure ==>
              l.measured.Some? && t.measure == Some(MeasureNote(l.measured.value)) && t.error == s.error
    ensures KindOf(s, l) == TestError ==>
              l.testError.Some? && t.error == Some(ErrorNote(l.testError.value)) && t.measure == s.measure
    ensures KindOf(s, l) == UnknownError ==>
              l.unknownError.Some? && t.error == Some(ErrorNote(l.unknownError.value)) && t.measure == s.measure
    ensures KindOf(s, l) !in {CaseDone, Measure, TestError, UnknownError} ==> t.error == s.error && t.measure == s.measure
    ensures KindOf(s, l) == Other ==> t == s
  {
    match KindOf(s, l)
    case Build => s.(compiling := true)
    case SuiteStart => s.(suiteSuccess := false)
    case CaseDone => s.(error := None, measure := None)
    case Measure => s.(measure := Some(MeasureNote(l.measured.value)))
    case TestError => s.(error := Some(ErrorNote(l.testError.value)))
    case UnknownError => s.(error := Some(ErrorNote(l.unknownError.value)))
    case SuiteDone => s.(suiteSuccess := true)
    case SuiteData => s
    case Fatal => s
    case Other => s
  }

  function OrElse(o: Option<string>, fallback: string): string
  {
    if o.Some? then o.value else fallback
  }

  /** The suite name printed on completion: on a fresh line unless a suite has just completed. */
  function SuiteName(s: State, r: SuiteResult): string
  {
    if !s.suiteSuccess then "\n" + r.suite else r.suite
  }

  /** The fragments printed for a line, if any. */
  function Emit(s: State, l: Line): (out: Option<seq<string>>)
    ensures out.None? <==> KindOf(s, l) in {Measure, TestError, UnknownError, Other}
    ensures KindOf(s, l) == Build ==> out == Some(["Building...\n"])
    ensures KindOf(s, l) == SuiteStart ==>
              l.suiteStart.Some? && out == Some(["Running ", l.suiteStart.value, " Suite\n"])
    ensures KindOf(s, l) == CaseDone ==>
              l.caseDone.Some? && out.Some? && |out.value| == 4
              && out.value[0] == "\n  - "
              && (out.value[1] == " v " <==> l.caseDone.value.status == "passed")
              && (out.value[1] == " v " || out.value[1] == " x ")
              && out.value[2] == " " + l.caseDone.value.name
              && out.value[3] == " " + l.caseDone.value.status + " in " + l.caseDone.value.time + " seconds"
                                 + OrElse(s.measure, ".") + " " + OrElse(s.error, "") + "\n"
    ensures KindOf(s, l) == SuiteDone ==>
              l.suiteDone.Some?
              && out == Some([SuiteName(s, l.suiteDone.value), " suite " + l.suiteDone.value.status + "\n"])
    ensures KindOf(s, l) == SuiteData ==>
              l.suiteData.Some?
              && out == Some(["  - Finished with " + l.suiteData.value.failed + " out of "
                              + l.suiteData.value.run + " test cases failing\n"])
    ensures KindOf(s, l) == Fatal ==> l.fatal.Some? && out == Some(["Fatal Error: ", l.fatal.value])
  {
    match KindOf(s, l)
    case Build => Some(["Building...\n"])
    case SuiteStart => Some(["Running ", l.suiteStart.value, " Suite\n"])
    case CaseDone =>
      var c := l.caseDone.value;
      Some(["\n  - ", if c.status == "passed" then " v " else " x ", " " + c.name,
            " " + c.status + " in " + c.time + " seconds" + OrElse(s.measure, ".") + " " + OrElse(s.error, "") + "\n"])
    case Measure => None
    case TestError => None
    case UnknownError => None
    case SuiteDone =>
      var r := l.suiteDone.value;
      Some([SuiteName(s, r), " suite " + r.status + "\n"])
    case SuiteData =>
      var d := l.suiteData.value;
      Some(["  - Finished with " + d.failed + " out of " + d.run + " test cases failing\n"])
    case Fatal => Some(["Fatal Error: ", l.fatal.value])
    case Other => None
  }

  // ---------------------------------------------------------------------------
  // Runs of lines

  /** The branches a run of lines takes, from cells `s`. */
  function Kinds(s: State, lines: seq<Line>): (ks: seq<Kind>)
    ensures |ks| == |lines|
    decreases |lines|
  {
    if lines == [] then [] else [KindOf(s, lines[0])] + Kinds(Next(s, lines[0]), lines[1..])
  }

  /** The cells before each line of a run. */
  function States(s: State, lines: seq<Line>): (ss: seq<State>)
    ensures |ss| == |lines|
    decreases |lines|
  {
    if lines == [] then [] else [s] + States(Next(s, lines[0]), lines[1..])
  }

  /** The cells after a run of lines. */
  function Final(s: State, lines: seq<Line>): State
    decreases |lines|
  {
    if lines == [] then s else Final(Next(s, lines[0]), lines[1..])
  }

  /** The text a line prints: its fragments one after the other, or nothing. */
  function Shown(out: Option<seq<string>>): seq<string>
  {
    match out
    case Some(f) => [Concat(f)]
    case None => []
  }

  /** The text printed for a run of lines, one entry per line that prints. */
  function Printed(s: State, lines: seq<Line>): seq<string>
    decreases |lines|
  {
    if lines == [] then []
    else
      Shown(Emit(s, lines[0])) + Printed(Next(s, lines[0]), lines[1..])
  }

  lemma {:induction false} NoBuildOnceCompiling(s: State, lines: seq<Line>)
    requires s.compiling
    ensures Build !in Kinds(s, lines)
    decreases |lines|
  {
    if lines != [] {
      NoBuildOnceCompiling(Next(s, lines[0]), lines[1..]);
    }
  }

  /** "Building..." is announced at most once in any run. */
  lemma {:induction false} BuildAtMostOnce(s: State, lines: seq<Line>)
    ensures forall i, j :: 0 <= i < j < |lines| && Kinds(s, lines)[i] == Build ==> Kinds(s, lines)[j] != Build
    decreases |lines|
  {
    if lines != [] {
      var t := Next(s, lines[0]);
      var ks := Kinds(s, lines);
      assert ks[1..] == Kinds(t, lines[1..]);
      if ks[0] == Build {
        NoBuildOnceCompiling(t, lines[1..]);
      }
      BuildAtMostOnce(t, lines[1..]);
      forall i, j | 0 <= i < j < |lines| && ks[i] == Build
        ensures ks[j] != Build
      {
        assert ks[j] == ks[1..][j - 1];
        if i > 0 {
          assert ks[i] == ks[1..][i - 1];
        }
      }
    }
  }

  predicate IsSuiteEvent(k: Kind)
  {
    k == SuiteStart || k == SuiteDone
  }

  /** The last suite start or suite completion in a run of branches. */
  function LastSuiteEvent(ks: seq<Kind>): (r: Option<Kind>)
    ensures r.Some? ==> IsSuiteEvent(r.value)
  {
    if ks == [] then None
    else match LastSuiteEvent(ks[1..])
      case Some(k) => Some(k)
      case None => if IsSuiteEvent(ks[0]) then Some(ks[0]) else None
  }

  /** Before each line, `suiteSuccess` says whether the last suite event was a completion
      (as it started out when there was none). */
  lemma {:induction false} SuiteSuccessTracks(s: State, lines: seq<Line>, i: nat)
    requires i < |lines|
    ensures States(s, lines)[i].suiteSuccess
            == match LastSuiteEvent(Kinds(s, lines)[..i])
               case None => s.suiteSuccess
               case Some(k) => k == SuiteDone
    decreases i
  {
    if i > 0 {
      var t := Next(s, lines[0]);
      SuiteSuccessTracks(t, lines[1..], i - 1);
      var ks := Kinds(s, lines);
      assert ks[..i] == [ks[0]] + Kinds(t, lines[1..])[..i - 1];
      assert ks[..i][1..] == Kinds(t, lines[1..])[..i - 1];
      assert States(s, lines)[i] == States(t, lines[1..])[i - 1];
    }
  }

  /** From the start of a run, a completed suite's name is printed on a fresh line exactly
      when no suite completed since the last suite started. */
  lemma SuiteDoneNewline(lines: seq<Line>, i: nat, r: SuiteResult)
    requires i < |lines|
    ensures SuiteName(States(Initial, lines)[i], r) == "\n" + r.suite
            <==> LastSuiteEvent(Kinds(Initial, lines)[..i]) != Some(SuiteDone)
  {
    SuiteSuccessTracks(Initial, lines, i);
    assert |"\n" + r.suite| != |r.suite|;
  }

  lemma {:induction false} KindAt(s: State, lines: seq<Line>, i: nat)
    requires i < |lines|
    ensures Kinds(s, lines)[i] == KindOf(States(s, lines)[i], lines[i])
    decreases i
  {
    if i > 0 {
      KindAt(Next(s, lines[0]), lines[1..], i - 1);
    }
  }

  /** The cells before line `i + 1` are the cells after line `i`. */
  lemma {:induction false} StatesStep(s: State, lines: seq<Line>, i: nat)
    requires i + 1 < |lines|
    ensures States(s, lines)[i + 1] == Next(States(s, lines)[i], lines[i])
    decreases i
  {
    var t := Next(s, lines[0]);
    assert States(s, lines)[i + 1] == States(t, lines[1..])[i];
    if i > 0 {
      StatesStep(t, lines[1..], i - 1);
      assert States(s, lines)[i] == States(t, lines[1..])[i - 1];
      assert lines[i] == lines[1..][i - 1];
    }
  }

  /** The note of the latest measurement in a run of lines, `ks` being the branches they
      took, unless a test case finished after it. */
  function MeasureSince(ks: seq<Kind>, ls: seq<Line>): Option<string>
    requires |ks| == |ls|
    decreases |ks|
  {
    if ks == [] then None
    else
      var n := |ks| - 1;
      if ks[n] == CaseDone then None
      else if ks[n] == Measure && ls[n].measured.Some? then Some(MeasureNote(ls[n].measured.value))
      else MeasureSince(ks[..n], ls[..n])
  }

  /** The note of the latest test error or unknown error in a run of lines, `ks` being the
      branches they took, unless a test case finished after it. */
  function ErrorSince(ks: seq<Kind>, ls: seq<Line>): Option<string>
    requires |ks| == |ls|
    decreases |ks|
  {
    if ks == [] then None
    else
      var n := |ks| - 1;
      if ks[n] == CaseDone then None
      else if ks[n] == TestError && ls[n].testError.Some? then Some(ErrorNote(ls[n].testError.value))
      else if ks[n] == UnknownError && ls[n].unknownError.Some? then Some(ErrorNote(ls[n].unknownError.value))
      else ErrorSince(ks[..n], ls[..n])
  }

  /** From the start of a run, the pending measurement and error before each line are
      those of the latest measurement and error line since the last finished test case. */
  lemma {:induction false} PendingTracks(lines: seq<Line>, i: nat)
    requires i < |lines|
    ensures States(Initial, lines)[i].measure == MeasureSince(Kinds(Initial, lines)[..i], lines[..i])
    ensures States(Initial, lines)[i].error == ErrorSince(Kinds(Initial, lines)[..i], lines[..i])
    decreases i
  {
    if i > 0 {
      var ks := Kinds(Initial, lines);
      PendingTracks(lines, i - 1);
      StatesStep(Initial, lines, i - 1);
      KindAt(Initial, lines, i - 1);
      assert ks[..i][..i - 1] == ks[..i - 1] && lines[..i][..i - 1] == lines[..i - 1];
      assert ks[..i][i - 1] == ks[i - 1] && lines[..i][i - 1] == lines[i - 1];
    }
  }

  /** From the start of a run, a finished test case prints the latest measurement and error
      since the previous finished test case, or "." and nothing when there was none. */
  lemma CaseLineShowsPending(lines: seq<Line>, i: nat)
    requires i < |lines| && Kinds(Initial, lines)[i] == CaseDone
    ensures var out := Emit(States(Initial, lines)[i], lines[i]);
            lines[i].caseDone.Some? && out.Some? && |out.value| == 4
            && out.value[3] == " " + lines[i].caseDone.value.status + " in " + lines[i].caseDone.value.time
                               + " seconds" + OrElse(MeasureSince(Kinds(Initial, lines)[..i], lines[..i]), ".")
                               + " " + OrElse(ErrorSince(Kinds(Initial, lines)[..i], lines[..i]), "") + "\n"
  {
    PendingTracks(lines, i);
    KindAt(Initial, lines, i);
  }

  /** The text printed for a run is the text of its first part, then of the rest. */
  lemma {:induction false} PrintedAppend(s: State, a: seq<Line>, b: seq<Line>)
    ensures Printed(s, a + b) == Printed(s, a) + Printed(Final(s, a), b)
    ensures Final(s, a + b) == Final(Final(s, a), b)
    decreases |a|
  {
    if a == [] {
      assert a + b == b;
    } else {
      assert (a + b)[0] == a[0] && (a + b)[1..] == a[1..] + b;
      PrintedAppend(Next(s, a[0]), a[1..], b);
    }
  }

  lemma PrintedStep(s: State, l: Line, rest: seq<Line>)
    ensures Printed(s, [l] + rest)
            == Shown(Emit(s, l)) + Printed(Next(s, l), rest)
    ensures Final(s, [l] + rest) == Final(Next(s, l), rest)
  {
    assert ([l] + rest)[0] == l && ([l] + rest)[1..] == rest;
  }

  /** One line of a run: what it prints is added to what was printed, and the rest of the
      run continues from the cells it leaves. */
  lemma FeedStep(printed: seq<string>, s: State, l: Line, rest: seq<Line>, out: Option<seq<string>>, t: State)
    requires out == Emit(s, l) && t == Next(s, l)
    ensures printed + Printed(s, [l] + rest) == (printed + Shown(out)) + Printed(t, rest)
    ensures Final(s, [l] + rest) == Final(t, rest)
  {
    PrintedStep(s, l, rest);
  }

  /** What the patterns find in each line. */
  function ClassifyAll(texts: seq<string>, classify: string -> Line): seq<Line>
  {
    seq(|texts|, i requires 0 <= i < |texts| => classify(texts[i]))
  }

  /** The formatter returned by `output()`, with its four cells. */
  class Formatter {
    var compiling: bool
    var suiteSuccess: bool
    var error: Option<string>
    var measure: Option<string>

    function Cells(): State
      reads this
    {
      State(compiling, suiteSuccess, error, measure)
    }

    constructor ()
      ensures Cells() == Initial
    {
      compiling := false;
      suiteSuccess := false;
      error := None;
      measure := None;
    }

    /** `text(for:)`. */
    method Text(l: Line) returns (out: Option<seq<string>>)
      modifies this
      ensures out == Emit(old(Cells()), l)
      ensures Cells() == Next(old(Cells()), l)
    {
      if l.building && !compiling {
        compiling := true;
        return Some(["Building...\n"]);
      } else if l.suiteStart.Some? {
        suiteSuccess := false;
        return Some(["Running ", l.suiteStart.value, " Suite\n"]);
      } else if l.caseDone.Some? {
        var c := l.caseDone.value;
        var status := if c.status == "passed" then " v " else " x ";
        var data := " " + c.status + " in " + c.time + " seconds" + OrElse(measure, ".") + " " + OrElse(error, "") + "\n";
        error := None;
        measure := None;
        return Some(["\n  - ", status, " " + c.name, data]);
      } else if l.measured.Some? {
        measure := Some(MeasureNote(l.measured.value));
        return None;
      } else if l.testError.Some? {
        error := Some(ErrorNote(l.testError.value));
        return None;
      } else if l.unknownError.Some? {
        error := Some(ErrorNote(l.unknownError.value));
        return None;
      } else if l.suiteDone.Some? {
        var r := l.suiteDone.value;
        var name := SuiteName(Cells(), r);
        suiteSuccess := true;
        return Some([name, " suite " + r.status + "\n"]);
      } else if l.suiteData.Some? {
        var d := l.suiteData.value;
        return Some(["  - Finished with " + d.failed + " out of " + d.run + " test cases failing\n"]);
      } else if l.fatal.Some? {
        return Some(["Fatal Error: ", l.fatal.value]);
      }
      return None;
    }

    /** The `forEach` of `log`: each text through `text(for:)` in order, printing what it returns. */
    method Feed(texts: seq<string>, classify: string -> Line) returns (printed: seq<string>)
      modifies this
      ensures printed == Printed(old(Cells()), ClassifyAll(texts, classify))
      ensures Cells() == Final(old(Cells()), ClassifyAll(texts, classify))
    {
      ghost var lines := ClassifyAll(texts, classify);
      ghost var start := Cells();
      printed := [];
      for k := 0 to |texts|
        invariant printed + Printed(Cells(), lines[k..]) == Printed(start, lines)
        invariant Final(Cells(), lines[k..]) == Final(start, lines)
      {
        ghost var before := Cells();
        var l := classify(texts[k]);
        assert lines[k..] == [l] + lines[k + 1..];
        var out := Text(l);
        FeedStep(printed, before, l, lines[k + 1..], out, Cells());
        printed := printed + Shown(out);
      }
      assert lines[|texts|..] == [];
    }

    /** `log(_:on:with:)` for one chunk of output: nothing when it is not UTF-8 text; the
        chunk as it is in verbose mode; otherwise each non-empty line through the formatter,
        printing what it returns. `classify` stands for the patterns. */
    method Log(data: Option<string>, verbose: bool, classify: string -> Line) returns (printed: seq<string>)
      modifies this
      ensures data.None? ==> printed == [] && Cells() == old(Cells())
      ensures data.Some? && verbose ==> printed == [data.value] && Cells() == old(Cells())
      ensures data.Some? && !verbose ==>
                var lines := ClassifyAll(Split(data.value, '\n'), classify);
                printed == Printed(old(Cells()), lines) && Cells() == Final(old(Cells()), lines)
    {
      if data.None? {
        return [];
      }
      if verbose {
        return [data.value];
      }
      printed := Feed(Split(data.value, '\n'), classify);
    }
  }
}
