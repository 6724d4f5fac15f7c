/** The `git describe` grammar: `v<major>.<minor>-<commits>-g<hash>`,
    optionally followed by `-dirty`, anchored to the whole string. Major,
    minor and commits are non-empty runs of decimal digits, the hash a
    non-empty run of ASCII letters and digits. */
module DescriptionParser {
  import opened Wrappers
  import opened Errors
  import Js

  datatype CharClass = Digit | Alnum

  predicate InClass(c: char, k: CharClass) {
    match k
    case Digit => '0' <= c <= '9'
    case Alnum => '0' <= c <= '9' || 'a' <= c <= 'z' || 'A' <= c <= 'Z'
  }

  predicate AllIn(s: string, k: CharClass) {
    forall i :: 0 <= i < |s| ==> InClass(s[i], k)
  }

  /** Splits `s` into its longest prefix of class `k` and the rest. */
  function Span(s: string, k: CharClass): (r: (string, string))
    ensures r.0 + r.1 == s
    ensures AllIn(r.0, k)
    ensures r.1 == [] || !InClass(r.1[0], k)
  {
    if s != [] && InClass(s[0], k) then
      var (run, rest) := Span(s[1..], k);
      ([s[0]] + run, rest)
    else
      ([], s)
  }

  /** Any split into a run of class `k` and a rest that does not continue
      the run is the one `Span` finds. */
  lemma {:induction false} SpanOfSplit(run: string, rest: string, k: CharClass)
    requires AllIn(run, k)
    requires rest == [] || !InClass(rest[0], k)
    ensures Span(run + rest, k) == (run, rest)
  {
    if run != [] {
      assert (run + rest)[1..] == run[1..] + rest;
      SpanOfSplit(run[1..], rest, k);
      assert (run + rest)[0] == run[0] && InClass(run[0], k);
      assert [run[0]] + run[1..] == run;
    } else {
      assert run + rest == rest;
    }
  }

  /** The named parts of a describe string. */
  datatype DescribeParts = DescribeParts(major: string, minor: string, commits: string, hash: string, dirty: bool)

  predicate WellFormed(p: DescribeParts) {
    && p.major != [] && AllIn(p.major, Digit)
    && p.minor != [] && AllIn(p.minor, Digit)
    && p.commits != [] && AllIn(p.commits, Digit)
    && p.hash != [] && AllIn(p.hash, Alnum)
  }

  function DirtySuffix(dirty: bool): string {
    if dirty then "-dirty" else ""
  }

  /** The describe string with the given parts: the reference definition of
      the grammar. */
  function Render(p: DescribeParts): string {
    "v" + (p.major + ("." + (p.minor + ("-" + (p.commits + ("-g" + (p.hash + DirtySuffix(p.dirty))))))))
  }

  /** Reads a describe string left to right; `None` when it does not match.
      What it returns is always a well-formed set of parts, and it only
      accepts strings that start with `v`. */
  function Parse(s: string): (r: Option<DescribeParts>)
    ensures r.Some? ==> WellFormed(r.value) && s != [] && s[0] == 'v'
  {
    if s == [] || s[0] != 'v' then None
    else
      var (major, s1) := Span(s[1..], Digit);
      if major == [] || s1 == [] || s1[0] != '.' then None
      else
        var (minor, s2) := Span(s1[1..], Digit);
        if minor == [] || s2 == [] || s2[0] != '-' then None
        else
          var (commits, s3) := Span(s2[1..], Digit);
          if commits == [] || |s3| < 2 || s3[0] != '-' || s3[1] != 'g' then None
          else
            var (hash, s4) := Span(s3[2..], Alnum);
            if hash == [] || (s4 != [] && s4 != "-dirty") then None
            else Some(DescribeParts(major, minor, commits, hash, s4 != []))
  }

  /** `descriptionRegex.test` on a string: a match always has a `v`, a
      version and a commit count, so it is at least `vM.m-c-gH` long. */
  predicate Matches(s: string)
    ensures Matches(s) ==> |s| >= 9 && s[0] == 'v'
  {
    Parse(s).Some?
  }

  /** `descriptionRegex.test` on any JavaScript value, which is first
      converted to a string; `null` and `undefined` never match. */
  predicate Test(v: Js.JsValue)
    ensures (v.Null? || v.Undefined?) ==> !Test(v)
    ensures v.Str? ==> (Test(v) <==> Matches(v.s))
  {
    Matches(Js.ToString(v))
  }

  /** Whatever the parser accepts is a well-formed describe string, and its
      parts are the ones it is made of. */
  lemma ParseSound(s: string)
    ensures Parse(s).Some? ==> WellFormed(Parse(s).value) && Render(Parse(s).value) == s
  {
    if Parse(s).Some? {
      var (major, s1) := Span(s[1..], Digit);
      var (minor, s2) := Span(s1[1..], Digit);
      var (commits, s3) := Span(s2[1..], Digit);
      var (hash, s4) := Span(s3[2..], Alnum);
      assert s3 == "-g" + (hash + s4);
      assert s2 == "-" + (commits + s3);
      assert s1 == "." + (minor + s2);
      assert s == "v" + (major + s1);
    }
  }

  /** Every well-formed describe string is accepted, with its own parts. */
  lemma ParseRender(p: DescribeParts)
    requires WellFormed(p)
    ensures Parse(Render(p)) == Some(p)
  {
    var s4 := DirtySuffix(p.dirty);
    var s3 := "-g" + (p.hash + s4);
    var s2 := "-" + (p.commits + s3);
    var s1 := "." + (p.minor + s2);
    var s := Render(p);
    assert s[1..] == p.major + s1;
    SpanOfSplit(p.major, s1, Digit);
    assert s1[1..] == p.minor + s2;
    SpanOfSplit(p.minor, s2, Digit);
    assert s2[1..] == p.commits + s3;
    SpanOfSplit(p.commits, s3, Digit);
    assert s3[2..] == p.hash + s4;
    SpanOfSplit(p.hash, s4, Alnum);
  }

  /** The recogniser accepts exactly the well-formed describe strings. */
  lemma MatchesIffRendered(s: string)
    ensures Matches(s) <==> exists p :: WellFormed(p) && Render(p) == s
  {
    ParseSound(s);
    if exists p :: WellFormed(p) && Render(p) == s {
      var p :| WellFormed(p) && Render(p) == s;
      ParseRender(p);
    }
  }

  /** A matching string never matches again once its leading `v` is
      removed: what follows the `v` starts with a digit. */
  lemma NoMatchWithoutV(s: string)
    requires Matches(s)
    ensures !Matches(s[1..])
  {
  }

  /** What `parseSemanticVersion` resolves to: the tag is `major.minor`
      and the commit count stays a string. */
  datatype Description = Description(tag: string, commits: string, hash: string)

  function ParseFailureMessage(description: string): string {
    "Failed to parse git describe output: \"" + description + "\"."
  }

  /** `parseSemanticVersion` applied to the describe output. */
  function ParseSemanticVersion(description: string): (r: Result<Description, VersionError>)
    ensures r.Err? <==> !Matches(description)
    ensures r.Err? ==> r.error == DescribeParse(ParseFailureMessage(description))
  {
    match Parse(description)
    case Some(p) => Ok(Description(p.major + "." + p.minor, p.commits, p.hash))
    case None => Err(DescribeParse(ParseFailureMessage(description)))
  }

  /** Parsing a describe string given together with its well-formed parts. */
  lemma ParseSemanticVersionOf(s: string, p: DescribeParts)
    requires WellFormed(p) && Render(p) == s
    ensures ParseSemanticVersion(s) == Ok(Description(p.major + "." + p.minor, p.commits, p.hash))
  {
    ParseSemanticVersionOfRender(p);
  }

  /** Parsing a well-formed describe string yields its embedded tag,
      commit count and hash, whether or not it is dirty. */
  lemma ParseSemanticVersionOfRender(p: DescribeParts)
    requires WellFormed(p)
    ensures ParseSemanticVersion(Render(p)) == Ok(Description(p.major + "." + p.minor, p.commits, p.hash))
  {
    ParseRender(p);
  }

  /** The describe strings the recogniser is expected to accept, one
      lemma each: a plain one, one with a zero major version, and a dirty
      one with an upper-case hash. */
  lemma AcceptsPlainDescription()
    ensures Matches("v1.1-1-g12345678")
  {
    var p := DescribeParts("1", "1", "1", "12345678", false);
    assert WellFormed(p) && Render(p) == "v1.1-1-g12345678";
    ParseRender(p);
  }

  lemma AcceptsZeroMajorDescription()
    ensures Matches("v0.1-2-g12345678")
  {
    var p := DescribeParts("0", "1", "2", "12345678", false);
    assert WellFormed(p) && Render(p) == "v0.1-2-g12345678";
    ParseRender(p);
  }

  lemma AcceptsDirtyDescription()
    ensures Matches("v0.0-500-gA9B6C3D0-dirty")
  {
    var p := DescribeParts("0", "0", "500", "A9B6C3D0", true);
    assert WellFormed(p) && Render(p) == "v0.0-500-gA9B6C3D0-dirty";
    ParseRender(p);
  }

  /** The values the recogniser is expected to reject: `null` and
      `undefined` (also `null?.substr(1)`, which is `undefined`), ... */
  lemma RejectsAbsentValues()
    ensures !Test(Js.Null) && !Test(Js.Undefined)
  {
  }

  /** ... the describe strings cut off before the commit count, ... */
  lemma RejectsVersionOnlyDescriptions()
    ensures !Matches("v0") && !Matches("v0.1") && !Matches("v0.1.2")
  {
  }

  /** ... the ones cut off before the hash, ... */
  lemma RejectsHashlessDescriptions()
    ensures !Matches("v0.1-2") && !Matches("v0.1-2-g")
  {
  }

  /** ... and the same strings with their first character removed. */
  lemma RejectsUnprefixedDescriptions()
    ensures !Matches("0") && !Matches("0.1") && !Matches("0.1.2")
    ensures !Matches("0.1-2") && !Matches("0.1-2-g")
  {
  }

  /** `parseSemanticVersion` on `v0.1-2-g12345678` gives the named parts. */
  lemma ParseSemanticVersionExample()
    ensures ParseSemanticVersion("v0.1-2-g12345678") == Ok(Description("0.1", "2", "12345678"))
  {
    var p := DescribeParts("0", "1", "2", "12345678", false);
    assert WellFormed(p) && Render(p) == "v0.1-2-g12345678";
    assert p.major + "." + p.minor == "0.1";
    ParseSemanticVersionOf("v0.1-2-g12345678", p);
  }

  /** A describe output that cannot be parsed fails with a message quoting it. */
  lemma ParseSemanticVersionFailureExample()
    ensures ParseSemanticVersion("no-match-can-be-made")
         == Err(DescribeParse("Failed to parse git describe output: \"no-match-can-be-made\"."))
  {
    assert !Matches("no-match-can-be-made");
    assert ParseFailureMessage("no-match-can-be-made")
        == "Failed to parse git describe output: \"no-match-can-be-made\".";
  }
}
