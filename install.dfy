/** The decision logic of `ether install` (`Sources/Ether/Install/Install.swift`).

    The package catalogue, the console and the external `Manifest` module are not
    part of this model: what the catalogue returns (releases, products, URL and
    version) and what the user types at each prompt (a finite sequence of answer
    lines) are parameters. When the answers run out before a prompt loop has
    finished, the model answers `None`. */
module Install {
  import opened Wrappers
  import opened Strings

  // ---------------------------------------------------------------------------
  // `--targets` and the version literal

  /** `Trim` of a comma-free piece is comma-free. */
  lemma TrimKeepsOut(p: string, c: char)
    requires c !in p
    ensures c !in Trim(p)
  {
  }

  function TrimAll(pieces: seq<string>): (r: seq<string>)
    requires forall p :: p in pieces ==> ',' !in p
    ensures |r| == |pieces|
    ensures forall k :: 0 <= k < |r| ==> r[k] == Trim(pieces[k]) && ',' !in r[k]
  {
    if pieces == [] then []
    else
      TrimKeepsOut(pieces[0], ',');
      [Trim(pieces[0])] + TrimAll(pieces[1..])
  }

  /** `--targets`: the option split on commas (empty pieces dropped), each piece trimmed
      of spaces and tabs. The names hold no comma and no blank at either end. */
  function ParseTargets(option: string): (names: seq<string>)
    ensures forall n :: n in names ==> ',' !in n && (n == [] || (!IsBlank(n[0]) && !IsBlank(n[|n| - 1])))
  {
    SplitPieces(option, ',');
    TrimAll(Split(option, ','))
  }

  lemma TrimAllGlued(pieces: seq<string>, names: seq<string>)
    requires |pieces| == |names| > 0
    requires forall n :: n in names ==> n != "" && ',' !in n && !IsBlank(n[0]) && !IsBlank(n[|n| - 1])
    requires forall p :: p in pieces ==> ',' !in p
    requires pieces[0] == names[0]
    requires forall k :: 1 <= k < |names| ==> pieces[k] == " " + names[k]
    ensures TrimAll(pieces) == names
  {
    var parsed := TrimAll(pieces);
    forall k | 0 <= k < |names|
      ensures parsed[k] == names[k]
    {
      var n := names[k];
      assert n in names;
      TrimUnchanged(n);
      assert parsed[k] == Trim(pieces[k]);
      if k == 0 {
        assert pieces[k] == n;
      } else {
        assert pieces[k] == " " + n;
      }
    }
  }

  /** Splitting `A, B, C` on commas gives `A`, ` B`, ` C`. */
  lemma SplitTargets(names: seq<string>)
    requires |names| > 0
    requires forall n :: n in names ==> n != "" && ',' !in n
    ensures var pieces := Split(JoinWith(names, ", "), ',');
            |pieces| == |names| && pieces[0] == names[0]
            && forall k :: 1 <= k < |names| ==> pieces[k] == " " + names[k]
  {
    assert [','] + " " == ", ";
    SplitJoined(names, ',', " ", "");
    assert "" + names[0] == names[0];
  }

  /** Names written as `A, B, C` are read back exactly. */
  lemma ParseTargetsRoundTrip(names: seq<string>)
    requires |names| > 0
    requires forall n :: n in names ==> n != "" && ',' !in n && !IsBlank(n[0]) && !IsBlank(n[|n| - 1])
    ensures ParseTargets(JoinWith(names, ", ")) == names
  {
    var text := JoinWith(names, ", ");
    SplitTargets(names);
    SplitPieces(text, ',');
    TrimAllGlued(Split(text, ','), names);
  }

  /** `package.version.first == "v" ? dropFirst() : version`. */
  function StripV(version: string): (r: string)
    ensures |version| > 0 && version[0] == 'v' ==> version == "v" + r
    ensures !(|version| > 0 && version[0] == 'v') ==> r == version
  {
    if |version| > 0 && version[0] == 'v' then version[1..] else version
  }

  // ---------------------------------------------------------------------------
  // `inquireFor(targets:in:)`

  /** `a` is `b` with some elements left out, order kept. */
  predicate IsSubseq(a: seq<string>, b: seq<string>)
    decreases |b|
  {
    if a == [] then true
    else if b == [] then false
    else (a[0] == b[0] && IsSubseq(a[1..], b[1..])) || IsSubseq(a, b[1..])
  }

  lemma SubseqSkip(a: seq<string>, x: string, b: seq<string>)
    requires IsSubseq(a, b)
    ensures IsSubseq(a, [x] + b)
  {
    assert ([x] + b)[1..] == b;
  }

  lemma SubseqTake(a: seq<string>, x: string, b: seq<string>)
    requires IsSubseq(a, b)
    ensures IsSubseq([x] + a, [x] + b)
  {
    assert ([x] + a)[1..] == a && ([x] + b)[1..] == b;
  }

  /** The prompt loop from target `index` on, with `accepted` so far. */
  function Inquire(targets: seq<string>, index: nat, answers: seq<string>, accepted: seq<string>): Option<seq<string>>
    requires index <= |targets|
    decreases |answers|
  {
    if index == |targets| then Some(accepted)
    else if answers == [] then None
    else if answers[0] == "y" then Inquire(targets, index + 1, answers[1..], accepted + [targets[index]])
    else if answers[0] == "n" then Inquire(targets, index + 1, answers[1..], accepted)
    else if answers[0] == "q" then Some(accepted)
    else Inquire(targets, index, answers[1..], accepted)
  }

  /** `inquireFor(targets:in:)`: one target is taken without asking. */
  function InquireFor(targets: seq<string>, answers: seq<string>): Option<seq<string>>
    requires |targets| > 0
  {
    if |targets| > 1 then Inquire(targets, 0, answers, []) else Some([targets[0]])
  }

  /** `inquireFor(targets:in:)` as the source runs it: `y` takes the target and moves on,
      `n` moves on, `q` stops, anything else asks about the same target again. */
  method AskForTargets(targets: seq<string>, answers: seq<string>) returns (accepted: Option<seq<string>>)
    requires |targets| > 0
    ensures accepted == InquireFor(targets, answers)
  {
    if |targets| <= 1 {
      return Some([targets[0]]);
    }
    var acc: seq<string> := [];
    var index := 0;
    var k := 0;
    while index < |targets|
      invariant 0 <= index <= |targets| && 0 <= k <= |answers|
      invariant Inquire(targets, index, answers[k..], acc) == InquireFor(targets, answers)
      decreases |answers| - k
    {
      if k == |answers| {
        return None;
      }
      var response := answers[k];
      assert answers[k..][0] == response && answers[k..][1..] == answers[k + 1..];
      k := k + 1;
      if response == "y" {
        acc := acc + [targets[index]];
        index := index + 1;
      } else if response == "n" {
        index := index + 1;
      } else if response == "q" {
        return Some(acc);
      }
    }
    return Some(acc);
  }

  lemma {:induction false} InquireKeepsOrder(targets: seq<string>, index: nat, answers: seq<string>, accepted: seq<string>)
    requires index <= |targets|
    requires Inquire(targets, index, answers, accepted).Some?
    ensures var r := Inquire(targets, index, answers, accepted).value;
            accepted <= r && IsSubseq(r[|accepted|..], targets[index..])
    decreases |answers|
  {
    var r := Inquire(targets, index, answers, accepted).value;
    if index == |targets| || answers[0] == "q" {
      assert r[|accepted|..] == [];
    } else if answers[0] == "y" {
      var acc' := accepted + [targets[index]];
      InquireKeepsOrder(targets, index + 1, answers[1..], acc');
      assert r[|accepted|..] == [targets[index]] + r[|acc'|..];
      assert targets[index..] == [targets[index]] + targets[index + 1..];
      SubseqTake(r[|acc'|..], targets[index], targets[index + 1..]);
    } else if answers[0] == "n" {
      InquireKeepsOrder(targets, index + 1, answers[1..], accepted);
      assert targets[index..] == [targets[index]] + targets[index + 1..];
      SubseqSkip(r[|accepted|..], targets[index], targets[index + 1..]);
    } else {
      InquireKeepsOrder(targets, index, answers[1..], accepted);
    }
  }

  /** The accepted targets are some of the manifest's targets, in manifest order. */
  lemma InquireForSubseq(targets: seq<string>, answers: seq<string>)
    requires |targets| > 0 && InquireFor(targets, answers).Some?
    ensures IsSubseq(InquireFor(targets, answers).value, targets)
  {
    if |targets| > 1 {
      InquireKeepsOrder(targets, 0, answers, []);
      assert InquireFor(targets, answers).value[0..] == InquireFor(targets, answers).value;
    } else {
      assert targets == [targets[0]] + [];
      SubseqTake([], targets[0], []);
    }
  }

  lemma {:induction false} InquireAllYes(targets: seq<string>, index: nat, answers: seq<string>, accepted: seq<string>)
    requires index <= |targets| && |answers| >= |targets| - index
    requires forall k :: 0 <= k < |targets| - index ==> answers[k] == "y"
    ensures Inquire(targets, index, answers, accepted) == Some(accepted + targets[index..])
    decreases |targets| - index
  {
    if index < |targets| {
      assert answers[0] == "y";
      assert forall k :: 0 <= k < |targets| - (index + 1) ==> answers[1..][k] == answers[k + 1];
      InquireAllYes(targets, index + 1, answers[1..], accepted + [targets[index]]);
      assert targets[index..] == [targets[index]] + targets[index + 1..];
      assert accepted + [targets[index]] + targets[index + 1..] == accepted + targets[index..];
    } else {
      assert accepted + targets[index..] == accepted;
    }
  }

  /** Answering `y` to every question selects every target. */
  lemma InquireForAllYes(targets: seq<string>, answers: seq<string>)
    requires |targets| > 0 && |answers| >= |targets|
    requires forall k :: 0 <= k < |targets| ==> answers[k] == "y"
    ensures InquireFor(targets, answers) == Some(targets)
  {
    InquireAllYes(targets, 0, answers, []);
    assert [] + targets[0..] == targets;
  }

  /** `q` as the first answer selects nothing, whatever follows. */
  lemma InquireForQuit(targets: seq<string>, answers: seq<string>)
    requires |targets| > 1 && |answers| > 0 && answers[0] == "q"
    ensures InquireFor(targets, answers) == Some([])
  {
  }

  // ---------------------------------------------------------------------------
  // `version(owner:repo:...)`

  /** `Int(String(first.first ?? "0")) ?? 0`: the value of a leading digit, else 0. */
  function LeadingMajor(v: string): (m: nat)
    ensures m <= 9
    ensures m > 0 ==> |v| > 0 && IsDigit(v[0]) && m == v[0] as int - '0' as int
    ensures |v| > 0 && IsDigit(v[0]) ==> m == v[0] as int - '0' as int
  {
    if |v| > 0 && IsDigit(v[0]) then v[0] as int - '0' as int else 0
  }

  /** A tag whose lowercased text contains `rc`, `beta` or `alpha`. */
  predicate IsPreRelease(v: string)
  {
    Contains(Lower(v), "rc") || Contains(Lower(v), "beta") || Contains(Lower(v), "alpha")
  }

  /** The first release whose leading digit differs from `major`. */
  function FirstOtherMajor(releases: seq<string>, major: nat): (r: Option<nat>)
    ensures r.Some? ==> r.value < |releases| && LeadingMajor(releases[r.value]) != major
    ensures r.Some? ==> forall j :: 0 <= j < r.value ==> LeadingMajor(releases[j]) == major
    ensures r.None? ==> forall j :: 0 <= j < |releases| ==> LeadingMajor(releases[j]) == major
  {
    if releases == [] then None
    else if LeadingMajor(releases[0]) != major then Some(0)
    else match FirstOtherMajor(releases[1..], major)
      case None => None
      case Some(i) => Some(i + 1)
  }

  datatype VersionError = NoReleases

  /** The user is asked about an earlier stable release only for a pre-release with
      a non-zero leading digit when there is more than one release. */
  predicate AsksForStable(releases: seq<string>)
  {
    |releases| > 1 && IsPreRelease(releases[0]) && LeadingMajor(releases[0]) > 0
  }

  /** Release selection of `version(owner:repo:...)`; `answer` is the lowercased answer on
      which the prompt settled, read only when the prompt is shown. */
  function SelectRelease(releases: seq<string>, answer: string): (r: Result<string, VersionError>)
    ensures r.Err? <==> releases == []
    ensures r.Ok? ==> r.value in releases
    ensures releases != [] && !(AsksForStable(releases) && answer == "y") ==> r == Ok(releases[0])
    ensures AsksForStable(releases) && answer == "y" ==>
              (exists i :: 0 < i < |releases| && r == Ok(releases[i])
                 && LeadingMajor(releases[i]) != LeadingMajor(releases[0])
                 && forall j :: 0 <= j < i ==> LeadingMajor(releases[j]) == LeadingMajor(releases[0]))
              || (r == Ok(releases[0])
                 && forall j :: 0 <= j < |releases| ==> LeadingMajor(releases[j]) == LeadingMajor(releases[0]))
  {
    if releases == [] then Err(NoReleases)
    else if AsksForStable(releases) && answer == "y" then
      match FirstOtherMajor(releases, LeadingMajor(releases[0]))
      case None => Ok(releases[0])
      case Some(i) => Ok(releases[i])
    else Ok(releases[0])
  }

  /** The answers that end the prompt loop. */
  predicate Settles(answer: string)
  {
    answer == "y" || answer == "n" || answer == ""
  }

  /** The `while true` prompt of `version(...)`: the first lowercased answer that is
      `y`, `n` or empty. */
  method AskStable(answers: seq<string>) returns (answer: Option<string>)
    ensures answer.Some? ==> Settles(answer.value)
    ensures answer.Some? ==> exists k :: 0 <= k < |answers| && Lower(answers[k]) == answer.value
                                          && forall j :: 0 <= j < k ==> !Settles(Lower(answers[j]))
    ensures answer.None? ==> forall j :: 0 <= j < |answers| ==> !Settles(Lower(answers[j]))
  {
    var k := 0;
    while k < |answers|
      invariant 0 <= k <= |answers|
      invariant forall j :: 0 <= j < k ==> !Settles(Lower(answers[j]))
    {
      var a := Lower(answers[k]);
      if Settles(a) {
        return Some(a);
      }
      k := k + 1;
    }
    return None;
  }

  // ---------------------------------------------------------------------------
  // `products(owner:repo:...)`

  const IntMax: int := 0x7FFF_FFFF_FFFF_FFFF

  predicate AllDigits(s: string)
  {
    forall k :: 0 <= k < |s| ==> IsDigit(s[k])
  }

  function DigitsValue(s: string): nat
    requires AllDigits(s)
  {
    if s == [] then 0 else DigitsValue(s[..|s| - 1]) * 10 + (s[|s| - 1] as int - '0' as int)
  }

  /** `Int(_: String)`: an optional sign and at least one digit, within 64 bits. */
  function ParseInt(s: string): (r: Option<int>)
    ensures r.Some? ==> -IntMax - 1 <= r.value <= IntMax
    ensures |s| > 0 && s[0] == '-' ==>
              (r.Some? <==> |s| > 1 && AllDigits(s[1..]) && DigitsValue(s[1..]) <= IntMax + 1)
    ensures |s| > 0 && s[0] == '-' && r.Some? ==>
              AllDigits(s[1..]) && r.value == -(DigitsValue(s[1..]) as int)
    ensures |s| > 0 && s[0] == '+' ==>
              (r.Some? <==> |s| > 1 && AllDigits(s[1..]) && DigitsValue(s[1..]) <= IntMax)
    ensures |s| > 0 && s[0] == '+' && r.Some? ==>
              AllDigits(s[1..]) && r.value == DigitsValue(s[1..])
    ensures (s == [] || (s[0] != '-' && s[0] != '+')) ==>
              (r.Some? <==> s != [] && AllDigits(s) && DigitsValue(s) <= IntMax)
    ensures (s == [] || (s[0] != '-' && s[0] != '+')) && r.Some? ==>
              AllDigits(s) && r.value == DigitsValue(s)
  {
    var signed := |s| > 0 && (s[0] == '+' || s[0] == '-');
    var body := if signed then s[1..] else s;
    if body == [] || !AllDigits(body) then None
    else
      var v: int := if signed && s[0] == '-' then -(DigitsValue(body) as int) else DigitsValue(body);
      if -IntMax - 1 <= v <= IntMax then Some(v) else None
  }

  /** The decimal numeral of `n`. */
  function Decimal(n: nat): (s: string)
    ensures s != [] && AllDigits(s)
  {
    var d := ['0' + ((n % 10) as char)];
    if n < 10 then d else Decimal(n / 10) + d
  }

  lemma {:induction false} DecimalValue(n: nat)
    ensures DigitsValue(Decimal(n)) == n
  {
    var s := Decimal(n);
    if n >= 10 {
      DecimalValue(n / 10);
      assert s[..|s| - 1] == Decimal(n / 10);
    }
  }

  /** Numerals within range are read back as the number they denote. */
  lemma ParseDecimal(n: nat)
    requires n <= IntMax
    ensures ParseInt(Decimal(n)) == Some(n)
    ensures ParseInt("-" + Decimal(n)) == Some(0 - n)
  {
    DecimalValue(n);
    assert ("-" + Decimal(n))[1..] == Decimal(n);
  }

  /** The trimmed answer lines that read as integers (`compactMap(Int.init)`). */
  function IntsOf(lines: seq<string>): (r: seq<int>)
    ensures forall v :: v in r ==> exists k :: 0 <= k < |lines| && ParseInt(Trim(lines[k])) == Some(v)
    ensures forall k :: 0 <= k < |lines| && ParseInt(Trim(lines[k])).Some? ==> ParseInt(Trim(lines[k])).value in r
  {
    if lines == [] then []
    else
      var rest := IntsOf(lines[1..]);
      assert forall k :: 1 <= k < |lines| ==> lines[k] == lines[1..][k - 1];
      match ParseInt(Trim(lines[0]))
      case None => rest
      case Some(v) => [v] + rest
  }

  function Indexes(answer: string): seq<int>
  {
    IntsOf(Split(answer, '\n'))
  }

  /** The products whose position (counted from `offset`) is among `indexes`, in product order. */
  function Picked(products: seq<string>, offset: nat, indexes: seq<int>): (r: seq<string>)
    ensures IsSubseq(r, products)
    ensures forall k :: 0 <= k < |products| && offset + k in indexes ==> products[k] in r
    ensures forall x :: x in r ==> exists k :: 0 <= k < |products| && offset + k in indexes && products[k] == x
    ensures r == [] <==> forall v :: v in indexes ==> !(offset <= v < offset + |products|)
    decreases |products|
  {
    if products == [] then []
    else
      var rest := Picked(products[1..], offset + 1, indexes);
      assert forall k :: 1 <= k < |products| ==> products[k] == products[1..][k - 1];
      if offset in indexes then
        SubseqTake(rest, products[0], products[1..]);
        assert [products[0]] + products[1..] == products;
        [products[0]] + rest
      else
        SubseqSkip(rest, products[0], products[1..]);
        assert [products[0]] + products[1..] == products;
        rest
  }

  /** Picking splits over a concatenation of product lists, the second counted on from
      where the first ends; with `PickedOne` this fixes `Picked` exactly: every product
      at a picked position, in product order, and nothing else. */
  lemma {:induction false} PickedAppend(a: seq<string>, b: seq<string>, offset: nat, indexes: seq<int>)
    ensures Picked(a + b, offset, indexes) == Picked(a, offset, indexes) + Picked(b, offset + |a|, indexes)
    decreases |a|
  {
    if a == [] {
      assert a + b == b;
    } else {
      assert (a + b)[0] == a[0] && (a + b)[1..] == a[1..] + b;
      PickedAppend(a[1..], b, offset + 1, indexes);
    }
  }

  /** A single product is picked exactly when its position is among `indexes`. */
  lemma PickedOne(p: string, offset: nat, indexes: seq<int>)
    ensures offset in indexes ==> Picked([p], offset, indexes) == [p]
    ensures offset !in indexes ==> Picked([p], offset, indexes) == []
  {
  }

  /** The first product named like the repository, ignoring case. */
  function NamedLikeRepo(products: seq<string>, repo: string): (r: Option<nat>)
    ensures r.Some? ==> r.value < |products| && Lower(products[r.value]) == Lower(repo)
    ensures r.Some? ==> forall j :: 0 <= j < r.value ==> Lower(products[j]) != Lower(repo)
    ensures r.None? ==> forall j :: 0 <= j < |products| ==> Lower(products[j]) != Lower(repo)
  {
    if products == [] then None
    else if Lower(products[0]) == Lower(repo) then Some(0)
    else match NamedLikeRepo(products[1..], repo)
      case None => None
      case Some(i) => Some(i + 1)
  }

  /** The `repeat ... while allowed == nil` loop, one answer per round. */
  function AskProducts(products: seq<string>, answers: seq<string>): Option<seq<string>>
    decreases |answers|
  {
    if answers == [] then None
    else
      var selected := Picked(products, 0, Indexes(answers[0]));
      if selected != [] then Some(selected) else AskProducts(products, answers[1..])
  }

  /** `products(owner:repo:...)` once the catalogue has answered with `products`. */
  function ProductChoice(repo: string, products: seq<string>, answers: seq<string>): Option<seq<string>>
  {
    match NamedLikeRepo(products, repo)
    case Some(i) => Some([products[i]])
    case None => if products == [] then Some([repo]) else AskProducts(products, answers)
  }

  /** `products(owner:repo:...)` as the source runs it. */
  method SelectProducts(repo: string, products: seq<string>, answers: seq<string>) returns (chosen: Option<seq<string>>)
    ensures chosen == ProductChoice(repo, products, answers)
  {
    var named := NamedLikeRepo(products, repo);
    if named.Some? {
      return Some([products[named.value]]);
    }
    if |products| < 1 {
      return Some([repo]);
    }
    var k := 0;
    while k < |answers|
      invariant 0 <= k <= |answers|
      invariant AskProducts(products, answers[k..]) == ProductChoice(repo, products, answers)
    {
      assert answers[k..][0] == answers[k] && answers[k..][1..] == answers[k + 1..];
      var selected := Picked(products, 0, Indexes(answers[k]));
      if selected != [] {
        return Some(selected);
      }
      k := k + 1;
    }
    return None;
  }

  lemma {:induction false} AskProductsPicks(products: seq<string>, answers: seq<string>)
    requires AskProducts(products, answers).Some?
    ensures AskProducts(products, answers).value != []
    ensures IsSubseq(AskProducts(products, answers).value, products)
    decreases |answers|
  {
    var selected := Picked(products, 0, Indexes(answers[0]));
    if selected == [] {
      AskProductsPicks(products, answers[1..]);
    }
  }

  /** The chosen products are never empty: a product named like the repository alone,
      the repository name when there are no products, else some products in order. */
  lemma ProductChoiceShape(repo: string, products: seq<string>, answers: seq<string>)
    requires ProductChoice(repo, products, answers).Some?
    ensures var c := ProductChoice(repo, products, answers).value;
            c != [] && (c == [repo] || IsSubseq(c, products))
  {
    var c := ProductChoice(repo, products, answers).value;
    match NamedLikeRepo(products, repo)
    case Some(i) =>
      assert products == products[..i] + [products[i]] + products[i + 1..];
      SubseqAt(products, i);
    case None =>
      if products != [] {
        AskProductsPicks(products, answers);
      }
  }

  lemma {:induction false} SubseqAt(products: seq<string>, i: nat)
    requires i < |products|
    ensures IsSubseq([products[i]], products)
    decreases i
  {
    if i == 0 {
      assert products[1..] == products[1..];
      SubseqTake([], products[0], products[1..]);
      assert [products[0]] + products[1..] == products;
    } else {
      SubseqAt(products[1..], i - 1);
      SubseqSkip([products[i]], products[0], products[1..]);
      assert [products[0]] + products[1..] == products;
    }
  }

  // ---------------------------------------------------------------------------
  // `install(using:)`

  /** `.from(version)`, the only requirement `install` writes. */
  datatype Requirement = From(version: string)

  datatype Dependency = Dependency(url: string, requirement: Requirement)

  /** What the catalogue reports for the package: its Git URL, its chosen release and
      the products to add to each approved target. */
  datatype PackageInfo = PackageInfo(url: string, version: string, products: seq<string>)

  /** A target of the external manifest module, with its product dependencies. */
  datatype Target = Target(name: string, dependencies: seq<string>)

  datatype Installed = Installed(dependency: Dependency, approved: seq<string>, count: int)

  function Names(targets: seq<Target>): seq<string>
  {
    seq(|targets|, i requires 0 <= i < |targets| => targets[i].name)
  }

  /** `Manifest.current.target(withName:)`, taken as the first target of that name. */
  function TargetNamed(targets: seq<Target>, name: string): (r: Option<nat>)
    ensures r.Some? ==> r.value < |targets| && targets[r.value].name == name
    ensures r.Some? ==> forall j :: 0 <= j < r.value ==> targets[j].name != name
    ensures r.None? ==> forall j :: 0 <= j < |targets| ==> targets[j].name != name
  {
    if targets == [] then None
    else if targets[0].name == name then Some(0)
    else match TargetNamed(targets[1..], name)
      case None => None
      case Some(i) => Some(i + 1)
  }

  /** One step of the `forEach`: a target missing from the manifest is skipped. */
  function AddProducts(targets: seq<Target>, name: string, products: seq<string>): seq<Target>
  {
    match TargetNamed(targets, name)
    case None => targets
    case Some(i) => targets[i := targets[i].(dependencies := targets[i].dependencies + products)]
  }

  /** The targets after every approved name has been handled, in order. */
  function WithProducts(targets: seq<Target>, approved: seq<string>, products: seq<string>): seq<Target>
    decreases |approved|
  {
    if approved == [] then targets
    else AddProducts(WithProducts(targets, approved[..|approved| - 1], products), approved[|approved| - 1], products)
  }

  function Occurrences(names: seq<string>, name: string): nat
  {
    if names == [] then 0
    else Occurrences(names[..|names| - 1], name) + (if names[|names| - 1] == name then 1 else 0)
  }

  /** `products` written `k` times in a row. */
  function Repeat(products: seq<string>, k: nat): seq<string>
  {
    if k == 0 then [] else Repeat(products, k - 1) + products
  }

  predicate UniqueNames(targets: seq<Target>)
  {
    forall i, j :: 0 <= i < j < |targets| ==> targets[i].name != targets[j].name
  }

  /** With unique target names, each target receives the products once per time its name
      was approved; targets not approved, or names not in the manifest, change nothing. */
  lemma {:induction false} WithProductsEffect(targets: seq<Target>, approved: seq<string>, products: seq<string>)
    requires UniqueNames(targets)
    ensures var after := WithProducts(targets, approved, products);
            |after| == |targets|
            && forall i :: 0 <= i < |targets| ==>
                 after[i].name == targets[i].name
                 && after[i].dependencies == targets[i].dependencies + Repeat(products, Occurrences(approved, targets[i].name))
    decreases |approved|
  {
    if approved != [] {
      var init := approved[..|approved| - 1];
      var last := approved[|approved| - 1];
      WithProductsEffect(targets, init, products);
      var mid := WithProducts(targets, init, products);
      assert UniqueNames(mid);
      forall i | 0 <= i < |targets|
        ensures WithProducts(targets, approved, products)[i].dependencies
                == targets[i].dependencies + Repeat(products, Occurrences(approved, targets[i].name))
      {
        assert Repeat(products, Occurrences(init, targets[i].name) + 1)
               == Repeat(products, Occurrences(init, targets[i].name)) + products;
      }
    }
  }

  function OldCount(oldPins: Option<nat>): nat
  {
    if oldPins.Some? then oldPins.value else 0
  }

  /** The targets approved for the package: the `--targets` option when given (no prompt),
      else the answers to the prompt. */
  function Approved(option: Option<string>, names: seq<string>, answers: seq<string>): Option<seq<string>>
    requires option.Some? || |names| > 0
  {
    if option.Some? then Some(ParseTargets(option.value)) else InquireFor(names, answers)
  }

  /** The project as the external manifest module presents it to `install`. */
  class Project {
    var targets: seq<Target>

    constructor (targets: seq<Target>)
      ensures this.targets == targets
    {
      this.targets := targets;
    }

    /** `install(using:)` once the package data has arrived: the dependency to save, the
        approved targets with the products appended in place, and the number reported as
        installed (new pin count minus old, the old one 0 when the lockfile was unreadable). */
    method Install(option: Option<string>, answers: seq<string>, package: PackageInfo,
                   oldPins: Option<nat>, newPinCount: nat)
      returns (result: Option<Installed>)
      requires option.Some? || |targets| > 0
      modifies this
      ensures var approved := Approved(option, Names(old(targets)), answers);
              && (approved.None? ==> result.None? && targets == old(targets))
              && (approved.Some? ==>
                    && result == Some(Installed(Dependency(package.url, From(StripV(package.version))),
                                                approved.value, newPinCount - OldCount(oldPins)))
                    && targets == WithProducts(old(targets), approved.value, package.products))
    {
      var approved: Option<seq<string>>;
      if option.Some? {
        approved := Some(ParseTargets(option.value));
      } else {
        approved := AskForTargets(Names(targets), answers);
      }
      if approved.None? {
        return None;
      }
      var names := approved.value;
      var dependency := Dependency(package.url, From(StripV(package.version)));
      for k := 0 to |names|
        invariant targets == WithProducts(old(targets), names[..k], package.products)
      {
        assert names[..k + 1][..k] == names[..k];
        var i := TargetNamed(targets, names[k]);
        if i.Some? {
          targets := targets[i.value := targets[i.value].(dependencies := targets[i.value].dependencies + package.products)];
        }
      }
      assert names[..|names|] == names;
      result := Some(Installed(dependency, names, newPinCount - OldCount(oldPins)));
    }
  }
}
