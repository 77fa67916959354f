/** Failure-carrying wrappers shared by every module of the model. */
module Wrappers {
  datatype Option<+T> = None | Some(value: T)

  datatype Result<+T, +E> = Ok(value: T) | Err(error: E)
}

/** The string operations of Swift's standard library and Foundation that the
    commands use, restricted to ASCII where Unicode tables would be needed. */
module Strings {

  /** `CharacterSet.whitespaces`: space and tab. */
  predicate IsBlank(c: char)
  {
    c == ' ' || c == '\t'
  }

  /** The regular-expression class `\s`: tab, newline, form feed, carriage return, space. */
  predicate IsRegexSpace(c: char)
  {
    c == ' ' || c == '\t' || c == '\n' || c == '\r' || c as int == 12
  }

  predicate IsDigit(c: char)
  {
    '0' <= c <= '9'
  }

  /** The regular-expression class `\w`: letters, digits and underscore. */
  predicate IsWordChar(c: char)
  {
    'a' <= c <= 'z' || 'A' <= c <= 'Z' || IsDigit(c) || c == '_'
  }

  function LowerChar(c: char): char
  {
    if 'A' <= c <= 'Z' then (c as int + 32) as char else c
  }

  /** `lowercased()`. */
  function Lower(s: string): string
  {
    seq(|s|, i requires 0 <= i < |s| => LowerChar(s[i]))
  }

  /** `contains(_:)` on strings. */
  predicate Contains(s: string, part: string)
  {
    exists i :: 0 <= i <= |s| - |part| && OccursAt(s, part, i)
  }

  predicate OccursAt(s: string, part: string, i: int)
    requires 0 <= i <= |s| - |part|
  {
    s[i..i + |part|] == part
  }

  predicate EndsWith(s: string, suffix: string)
  {
    |suffix| <= |s| && s[|s| - |suffix|..] == suffix
  }

  /** Concatenation of a sequence of strings. */
  function Concat(parts: seq<string>): string
  {
    if parts == [] then "" else parts[0] + Concat(parts[1..])
  }

  /** `s` with every occurrence of `sep` deleted. */
  function Without(s: string, sep: char): string
  {
    if s == [] then "" else (if s[0] == sep then "" else [s[0]]) + Without(s[1..], sep)
  }

  /** `parts` joined with `glue` between neighbours. */
  function JoinWith(parts: seq<string>, glue: string): string
  {
    if |parts| == 0 then ""
    else if |parts| == 1 then parts[0]
    else parts[0] + glue + JoinWith(parts[1..], glue)
  }

  /** Swift's `split(separator:)`, which drops empty pieces. */
  function Split(s: string, sep: char): seq<string>
  {
    SplitFrom(s, sep, "")
  }

  /** Splitting `s` when the piece under construction already holds `cur`. */
  function SplitFrom(s: string, sep: char, cur: string): seq<string>
    decreases |s|
  {
    if s == [] then (if cur == "" then [] else [cur])
    else if s[0] == sep then (if cur == "" then [] else [cur]) + SplitFrom(s[1..], sep, "")
    else SplitFrom(s[1..], sep, cur + [s[0]])
  }

  /** Every piece of a split is non-empty and free of the separator. */
  lemma {:induction false} SplitFromPieces(s: string, sep: char, cur: string)
    requires sep !in cur
    ensures forall p :: p in SplitFrom(s, sep, cur) ==> p != "" && sep !in p
    decreases |s|
  {
    if s == [] {
    } else if s[0] == sep {
      SplitFromPieces(s[1..], sep, "");
    } else {
      SplitFromPieces(s[1..], sep, cur + [s[0]]);
    }
  }

  /** The pieces of a split, put back together, are the input without its separators. */
  lemma {:induction false} SplitFromConcat(s: string, sep: char, cur: string)
    ensures Concat(SplitFrom(s, sep, cur)) == cur + Without(s, sep)
    decreases |s|
  {
    if s == [] {
    } else if s[0] == sep {
      SplitFromConcat(s[1..], sep, "");
      assert Without(s, sep) == Without(s[1..], sep);
      var rest := SplitFrom(s[1..], sep, "");
      if cur != "" {
        assert ([cur] + rest)[1..] == rest;
        assert Concat([cur] + rest) == cur + Concat(rest);
      } else {
        assert [] + rest == rest;
      }
    } else {
      SplitFromConcat(s[1..], sep, cur + [s[0]]);
      assert Without(s, sep) == [s[0]] + Without(s[1..], sep);
    }
  }

  lemma SplitPieces(s: string, sep: char)
    ensures forall p :: p in Split(s, sep) ==> p != "" && sep !in p
    ensures Concat(Split(s, sep)) == Without(s, sep)
  {
    SplitFromPieces(s, sep, "");
    SplitFromConcat(s, sep, "");
  }

  /** A separator-free run is absorbed into the piece under construction. */
  lemma {:induction false} SplitFromRun(w: string, rest: string, sep: char, cur: string)
    requires sep !in w
    ensures SplitFrom(w + rest, sep, cur) == SplitFrom(rest, sep, cur + w)
    decreases |w|
  {
    if w == [] {
      assert w + rest == rest && cur + w == cur;
    } else {
      assert (w + rest)[0] == w[0];
      assert (w + rest)[1..] == w[1..] + rest;
      SplitFromRun(w[1..], rest, sep, cur + [w[0]]);
      assert cur + [w[0]] + w[1..] == cur + w;
    }
  }

  /** Splitting names joined by `sep` followed by `glue` gives back the names,
      each one after the first still carrying the glue in front. */
  lemma {:induction false} SplitJoined(names: seq<string>, sep: char, glue: string, cur: string)
    requires |names| > 0
    requires forall n :: n in names ==> n != "" && sep !in n
    requires sep !in glue
    ensures SplitFrom(JoinWith(names, [sep] + glue), sep, cur)
         == [cur + names[0]] + seq(|names| - 1, i requires 0 <= i < |names| - 1 => glue + names[i + 1])
    decreases |names|
  {
    var tailGlued := seq(|names| - 1, i requires 0 <= i < |names| - 1 => glue + names[i + 1]);
    if |names| == 1 {
      SplitFromRun(names[0], "", sep, cur);
      assert names[0] + "" == names[0];
    } else {
      var rest := JoinWith(names[1..], [sep] + glue);
      assert JoinWith(names, [sep] + glue) == names[0] + ([sep] + (glue + rest));
      SplitFromRun(names[0], [sep] + (glue + rest), sep, cur);
      assert ([sep] + (glue + rest))[1..] == glue + rest;
      SplitFromRun(glue, rest, sep, "");
      assert "" + glue == glue;
      SplitJoined(names[1..], sep, glue, glue);
      assert tailGlued == [glue + names[1]] + seq(|names| - 2, i requires 0 <= i < |names| - 2 => glue + names[1..][i + 1]);
    }
  }

  /** The number of blanks at the front of `s`. */
  function LeadingBlanks(s: string): (n: nat)
    ensures n <= |s|
    ensures forall k :: 0 <= k < n ==> IsBlank(s[k])
    ensures n == |s| || !IsBlank(s[n])
    decreases |s|
  {
    if s != [] && IsBlank(s[0]) then 1 + LeadingBlanks(s[1..]) else 0
  }

  /** The number of blanks at the back of `s`. */
  function TrailingBlanks(s: string): (n: nat)
    ensures n <= |s|
    ensures forall k :: |s| - n <= k < |s| ==> IsBlank(s[k])
    ensures n == |s| || !IsBlank(s[|s| - n - 1])
    decreases |s|
  {
    if s != [] && IsBlank(s[|s| - 1]) then 1 + TrailingBlanks(s[..|s| - 1]) else 0
  }

  /** `trimmingCharacters(in: .whitespaces)`: a middle part of the input, with
      only blanks cut away and no blank left at either end. */
  function Trim(s: string): (r: string)
    ensures r == [] || (!IsBlank(r[0]) && !IsBlank(r[|r| - 1]))
    ensures exists i, j :: 0 <= i <= j <= |s| && r == s[i..j]
              && (forall k :: 0 <= k < i ==> IsBlank(s[k])) && (forall k :: j <= k < |s| ==> IsBlank(s[k]))
  {
    var i := LeadingBlanks(s);
    var t := s[i..];
    var j := i + |t| - TrailingBlanks(t);
    assert forall k :: j <= k < |s| ==> s[k] == t[k - i];
    s[i..j]
  }

  /** A string with no blank at either end trims to itself, and so does one more leading space. */
  lemma TrimUnchanged(n: string)
    requires n != "" && !IsBlank(n[0]) && !IsBlank(n[|n| - 1])
    ensures Trim(n) == n
    ensures Trim(" " + n) == n
  {
    assert LeadingBlanks(n) == 0 && TrailingBlanks(n) == 0;
    assert (" " + n)[1..] == n;
    assert LeadingBlanks(" " + n) == 1;
    assert (" " + n)[1..] == n;
  }
}
