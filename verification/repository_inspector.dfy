/** Repository facts read from the output of one git command each.
    The command runner is not modelled: every fact is a function of the
    output text it would have returned. */
module RepositoryInspector {
  import opened Wrappers
  import opened Errors
  import Decimal

  /** `isDirty`: the worktree is dirty when the status command printed
      anything. */
  function IsDirty(statusOutput: string): (dirty: bool)
    ensures dirty <==> |statusOutput| > 0
  {
    statusOutput != ""
  }

  /** A status output with one changed path per line. */
  function JoinLines(paths: seq<string>): string {
    if paths == [] then ""
    else if |paths| == 1 then paths[0]
    else paths[0] + "\n" + JoinLines(paths[1..])
  }

  /** A worktree with changed paths is dirty, and one without is clean. */
  lemma DirtyIffChangedPaths(paths: seq<string>)
    requires forall i :: 0 <= i < |paths| ==> paths[i] != ""
    ensures IsDirty(JoinLines(paths)) <==> |paths| > 0
  {
  }

  /** `hasAnyVersionTags`: the output of the command that counts version
      tags, read as a number; any tag at all means true. */
  function HasAnyVersionTags(countOutput: string): (r: Result<bool, VersionError>)
    ensures r.Err? <==> Decimal.ParseInt(countOutput).None?
    ensures r.Err? ==> r.error == NotANumber(countOutput)
    ensures r.Ok? ==> (r.value <==> Decimal.ParseInt(countOutput).value > 0)
  {
    match Decimal.ParseInt(countOutput)
    case Some(count) => Ok(count > 0)
    case None => Err(NotANumber(countOutput))
  }

  /** `getTotalNumberOfCommits`: the output of the command that counts
      commits, read as a base-10 number. */
  function TotalNumberOfCommits(countOutput: string): (r: Result<nat, VersionError>)
    ensures r.Err? <==> !(countOutput != [] && Decimal.AllDigits(countOutput))
    ensures r.Err? ==> r.error == NotANumber(countOutput)
  {
    match Decimal.ParseInt(countOutput)
    case Some(count) => Ok(count)
    case None => Err(NotANumber(countOutput))
  }

  /** When git prints the count `n`, tags exist exactly when `n` is
      positive. */
  lemma HasAnyVersionTagsOfCount(n: nat)
    ensures HasAnyVersionTags(Decimal.Show(n)) == Ok(n > 0)
  {
    Decimal.ParseShow(n);
  }

  /** When git prints the count `n`, the commit count is `n`. */
  lemma TotalNumberOfCommitsOfCount(n: nat)
    ensures TotalNumberOfCommits(Decimal.Show(n)) == Ok(n)
  {
    Decimal.ParseShow(n);
  }

  /** The outputs the inspector is expected to interpret. */
  lemma FactExamples()
    ensures IsDirty("file.ext\nfile2.ext") && !IsDirty("")
    ensures HasAnyVersionTags("0") == Ok(false)
    ensures HasAnyVersionTags("9") == Ok(true)
    ensures TotalNumberOfCommits("9") == Ok(9)
  {
  }
}
