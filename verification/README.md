# Versioning: how a build version is chosen

This project models the `Versioning` component of a Unity build action. The
component picks the version string for a build. It supports four strategies:

- `None` is the opt-out and always gives `"none"`.
- `Custom` hands back the caller's own value.
- `Tag` gives the current git tag without its leading `v`.
- `Semantic` builds a version from `git describe`.

The component also interprets git command output as repository facts (dirty
worktree, whether version tags exist, commit count). It names the branch from
two references read through the `headRef` and `ref` getters.

The implementation file `src/model/versioning.js` is not part of this model.
Its behaviour comes from the assertions of `src/model/versioning.test.js`.
Modules:

- `Wrappers`, `Errors`: `Option` (a JavaScript `undefined` is `None`), `Result`,
  and the four failure kinds: invalid strategy, not implemented, describe parse
  failure, non-numeric count.
- `Js`: the JavaScript values the entry points are called with (`null`,
  `undefined`, numbers, strings), and `ToString`, which `RegExp.test` applies
  to its argument.
- `Decimal`: reading a count printed by git as a base-10 number, and the
  inverse rendering.
- `DescriptionParser`: the describe grammar
  `v<digits>.<digits>-<digits>-g<alphanumerics>[-dirty]`, anchored to the
  whole string. A reference renderer `Render` gives the grammar; the parser
  `Parse` reads strings left to right. The two are proved to be inverse:
  `Parse` accepts exactly the rendered strings and returns their parts. Also
  here: `parseSemanticVersion` with its exact failure message.
- `RepositoryInspector`: the dirty flag, tag existence and commit count, each
  as a function of one command's output.
- `VersionAssembler`: the tag-only version.
- `VersioningEngine`: the strategy registry (a map from key to resolver) and
  `determineVersion` as a pure function of the registry, the strategy, the
  custom value and the generators' results.
- `Versioning`: a class whose accessors count how often they are read. It
  covers the `branch` precedence and its read counts, and `determineVersion`
  calling exactly the chosen generator once. The methods at the end of the
  module replay the test scenarios against the class.

Modelling decisions:

- A reference counts as set when it is defined and non-empty. This reading of
  "set" is the model's own.
- A reference that does not start with `refs/heads/` gives no branch. When
  the head reference is unset and the reference is set, the reference is read
  twice: once to test it and once to cut the prefix.
- The commit count of a parsed description stays a string, as the test
  asserts `commits: '2'` (src/model/versioning.test.js:175). It is not
  converted to an integer.
- The hash is ASCII letters and digits.
- Only string keys can name a registered strategy. `null`, `undefined` and `0`
  are therefore invalid.

## Model

| member | source | states |
|---|---|---|
| `VersioningEngine.StrategiesRegistered` | src/model/versioning.test.js:10-34 | the registry has more than two entries, includes `None`, `Semantic`, `Tag` and `Custom`, and each of its keys has a resolver |
| `VersioningEngine.Lookup` | src/model/versioning.test.js:103-108 | a strategy resolves exactly when it is a string key of the registry, and then to that key's resolver |
| `VersioningEngine.DetermineVersion` | src/model/versioning.test.js:102-160 | the invalid-strategy error comes exactly when the strategy is not a registered string key; the not-implemented error exactly when the key has no resolver, and it names the key; `None` gives `"none"`, `Custom` the custom value, `Semantic` the semantic generator's result or its own failure, `Tag` the tag generator's result. A generator's failure is never one of the two dispatch errors, so the two equivalences hold without exceptions |
| `VersioningEngine.StrategiesDispatchTotal` | src/model/versioning.test.js:102-160 | with the shipped registry every request resolves, fails as an invalid strategy, or passes on the semantic generator's failure; no result is ever the not-implemented error |
| `VersioningEngine.InvalidStrategyExamples` | src/model/versioning.test.js:103-108 | `null`, `undefined`, `0` and `'somethingRandom'` fail as invalid strategies |
| `VersioningEngine.OptOutIsConstant` | src/model/versioning.test.js:110-116 | `None` resolves to `"none"` for every custom value |
| `VersioningEngine.CustomIsIdentity` | src/model/versioning.test.js:118-127 | `Custom` resolves to exactly the custom value, including `null`, `undefined` and `0` |
| `VersioningEngine.GeneratorsDelegated` | src/model/versioning.test.js:129-149 | `Semantic` resolves to the semantic generator's result or failure, `Tag` to the tag generator's result |
| `VersioningEngine.UnimplementedIsNotInvalid` | src/model/versioning.test.js:151-159 | a registry whose only key has no resolver fails for that key with NotImplemented naming it, not with the invalid-strategy error |
| `Versioning.HeadRefTakesPrecedence` | src/model/versioning.test.js:56-67 | a set head reference is the branch, and the reference is read zero times |
| `Versioning.BranchFromRef` | src/model/versioning.test.js:46-54 | with no head reference, `refs/heads/<name>` gives the branch `<name>`, and the reference is read twice |
| `Versioning.Versioning.HeadRef` | src/model/versioning.test.js:38-40 | the getter returns the head reference and counts one read |
| `Versioning.Versioning.Ref` | src/model/versioning.test.js:48-50 | the getter returns the reference and counts one read |
| `Versioning.Versioning.Branch` | src/model/versioning.test.js:36-77 | the branch is the head reference when set, else the name after `refs/heads/`, else undefined; the head reference is read once, and the reference 0 times when the head reference is set, twice when only the reference is set (whether or not it starts with `refs/heads/`), once when neither is |
| `Versioning.BranchReturnsHeadRef` | src/model/versioning.test.js:37-44 | head reference `feature-branch-1` gives that branch, read once, whatever the reference |
| `Versioning.BranchReturnsPartOfRef` | src/model/versioning.test.js:46-54 | reference `refs/heads/feature-branch-2` alone gives `feature-branch-2`, with two reads of the reference |
| `Versioning.BranchPrefersHeadRef` | src/model/versioning.test.js:56-67 | with both set, the head reference wins; head reference read once, reference never |
| `Versioning.BranchUndefinedWhenUnset` | src/model/versioning.test.js:69-77 | with neither set the branch is undefined and each accessor is read once |
| `Versioning.BranchUndefined` | src/model/versioning.test.js:69-77 | with no head reference, an unset reference gives no branch after one read, and a set reference outside `refs/heads/` gives none after two |
| `Versioning.Versioning.GetTag` | src/model/versioning.test.js:218-224 | the tag is the command's output unchanged |
| `Versioning.Versioning.GetVersionDescription` | src/model/versioning.test.js:189-195 | the description is the command's output unchanged |
| `Versioning.Versioning.GenerateTagVersion` | src/model/versioning.test.js:162-167 | the version is the tag output without its leading `v`; counts one call |
| `Versioning.Versioning.GenerateSemanticVersion` | src/model/versioning.test.js:129-138 | resolves to the given semantic version; counts one call |
| `Versioning.Versioning.ParseSemanticVersion` | src/model/versioning.test.js:169-186 | parses the describe command's output |
| `Versioning.Versioning.DetermineVersion` | src/model/versioning.test.js:102-160 | the result is the registry dispatch; the semantic generator is called once exactly when the strategy resolves to `Semantic`, the tag generator once exactly when it resolves to `Tag`, otherwise neither |
| `Versioning.SemanticRefersToGenerator` | src/model/versioning.test.js:129-138 | `Semantic` resolves to the generator's `1.3.37`, with one generator call |
| `Versioning.TagRefersToGenerator` | src/model/versioning.test.js:140-149 | `Tag` resolves to `0.1` (tag output `v0.1`), with one generator call |
| `Versioning.UnimplementedStrategyThrows` | src/model/versioning.test.js:151-159 | the registry `{Test}` without a resolver makes `Test` fail with NotImplemented |
| `Versioning.GenerateTagVersionRemovesV` | src/model/versioning.test.js:162-167 | tag `v1.3.37` gives version `1.3.37` |
| `DescriptionParser.Parse` | src/model/versioning.test.js:80-100 | what it accepts is a well-formed set of parts behind a leading `v`; with `ParseSound` and `ParseRender`, it accepts exactly `Render`'s output for well-formed parts and returns those parts |
| `DescriptionParser.Matches` | src/model/versioning.test.js:80-100 | a match starts with `v` and is at least nine characters long (`vM.m-c-gH`); by `MatchesIffRendered`, the strings that match are exactly the renderings of well-formed parts, anchored to the whole string |
| `DescriptionParser.Test` | src/model/versioning.test.js:92-99 | `null` and `undefined` never match; a string matches as itself; any other value is first converted with `Js.ToString` |
| `DescriptionParser.Span` | src/model/versioning.test.js:85-99 | splits a string into its longest run of a character class and the rest, which does not continue the run |
| `DescriptionParser.ParseRender` | src/model/versioning.test.js:85-90 | every well-formed describe string, with or without `-dirty`, is accepted and yields exactly the parts it was made from |
| `DescriptionParser.ParseSound` | src/model/versioning.test.js:92-99 | whatever is accepted is well-formed and is the rendering of the parts returned, so partial or unanchored matches are impossible |
| `DescriptionParser.MatchesIffRendered` | src/model/versioning.test.js:80-100 | the recogniser accepts a string exactly when it has the form `v<d+>.<d+>-<d+>-g<alnum+>[-dirty]` |
| `DescriptionParser.NoMatchWithoutV` | src/model/versioning.test.js:96-97 | no accepted string is still accepted with its first character removed |
| `DescriptionParser.AcceptsPlainDescription` | src/model/versioning.test.js:85-90 | `v1.1-1-g12345678` is accepted |
| `DescriptionParser.AcceptsZeroMajorDescription` | src/model/versioning.test.js:85-90 | `v0.1-2-g12345678` is accepted |
| `DescriptionParser.AcceptsDirtyDescription` | src/model/versioning.test.js:85-90 | `v0.0-500-gA9B6C3D0-dirty` is accepted |
| `DescriptionParser.RejectsAbsentValues` | src/model/versioning.test.js:92-99 | `null` and `undefined` are rejected (`null?.substr(1)` is `undefined` too) |
| `DescriptionParser.RejectsVersionOnlyDescriptions` | src/model/versioning.test.js:92-99 | `v0`, `v0.1` and `v0.1.2` are rejected |
| `DescriptionParser.RejectsHashlessDescriptions` | src/model/versioning.test.js:92-99 | `v0.1-2` and `v0.1-2-g` are rejected |
| `DescriptionParser.RejectsUnprefixedDescriptions` | src/model/versioning.test.js:92-99 | each of those strings with its first character removed is rejected |
| `DescriptionParser.ParseSemanticVersion` | src/model/versioning.test.js:169-186 | fails exactly when the description does not match, with the message `Failed to parse git describe output: "<input>".` |
| `DescriptionParser.ParseSemanticVersionOfRender` | src/model/versioning.test.js:170-178 | a well-formed description yields tag `<major>.<minor>`, the commit digits as a string, and the hash |
| `DescriptionParser.ParseSemanticVersionOf` | src/model/versioning.test.js:170-178 | the same, for a description given together with its parts |
| `DescriptionParser.ParseSemanticVersionExample` | src/model/versioning.test.js:170-178 | `v0.1-2-g12345678` yields tag `0.1`, commits `'2'`, hash `12345678` |
| `DescriptionParser.ParseSemanticVersionFailureExample` | src/model/versioning.test.js:180-186 | `no-match-can-be-made` fails with `Failed to parse git describe output: "no-match-can-be-made".` |
| `Js.ToString` | src/model/versioning.test.js:92-97 | a string converts to itself, `null` to `"null"`, `undefined` to `"undefined"`, and a number to its decimal numeral (with a `-` when negative) |
| `VersionAssembler.TagVersion` | src/model/versioning.test.js:162-167 | a tag starting with `v` is `v` followed by the version; any other tag is the version unchanged |
| `VersionAssembler.TagVersionOfPrefixed` | src/model/versioning.test.js:162-167 | prefixing any version with `v` and resolving gives the version back, so only one `v` is removed |
| `VersionAssembler.TagVersionExamples` | src/model/versioning.test.js:162-167 | `v1.3.37` and `1.3.37` both give `1.3.37`; `vv1` gives `v1` |
| `RepositoryInspector.IsDirty` | src/model/versioning.test.js:204-216 | dirty exactly when the status output is non-empty |
| `RepositoryInspector.DirtyIffChangedPaths` | src/model/versioning.test.js:204-216 | status output listing non-empty paths, one per line, is dirty exactly when it lists at least one path |
| `RepositoryInspector.HasAnyVersionTags` | src/model/versioning.test.js:226-238 | fails exactly when the count output is not a decimal number; otherwise true exactly when the count is above zero |
| `RepositoryInspector.HasAnyVersionTagsOfCount` | src/model/versioning.test.js:226-238 | a printed count `n` means tags exist exactly when `n > 0` |
| `RepositoryInspector.TotalNumberOfCommits` | src/model/versioning.test.js:240-245 | fails exactly when the output is not a non-empty run of decimal digits |
| `RepositoryInspector.TotalNumberOfCommitsOfCount` | src/model/versioning.test.js:240-245 | a printed count `n` gives the commit count `n` |
| `RepositoryInspector.FactExamples` | src/model/versioning.test.js:204-245 | `'file.ext\nfile2.ext'` is dirty and `''` clean; `'0'` means no tags and `'9'` some; `'9'` gives 9 commits |
| `Decimal.ParseInt` | src/model/versioning.test.js:240-245 | a value is read exactly when the output is a non-empty run of digits |
| `Decimal.Show` | src/model/versioning.test.js:240-245 | the rendering is a non-empty run of digits with no leading zero |
| `Decimal.ParseShow` | src/model/versioning.test.js:240-245 | reading back a rendered number gives the number |

## Left out

- `src/model/versioning.js` is not part of this model. Its behaviour is taken from the assertions in `src/model/versioning.test.js`.
- `System.run` is not modelled: no process is started. Each command's output is a string input; which git command produces it is not part of this model. Command failures (`CommandExecutionError`) are therefore not modelled either.
- `fetchAll` (src/model/versioning.test.js:197-202) is left out. It only awaits a remote sync and discards the output.
- Versioning.Versioning.GenerateSemanticVersion: returns a given result. How a semantic version is assembled from tag, commits, hash and dirty state is not part of this model; the test replaces the generator with a mock.
- The text of the invalid-strategy error is not modelled. It is checked only against a snapshot that is not part of this model, so only the error kind is kept.
- The text of the NotImplemented message is not modelled. The error carries the strategy key instead.
- Decimal.ParseInt: reads only a whole, non-empty run of decimal digits. How `src/model/versioning.js` converts a count output is not part of this model: failing with `NotANumber` on any other output is the model's own rule, and so is the same rule in RepositoryInspector.HasAnyVersionTags and RepositoryInspector.TotalNumberOfCommits.
- JavaScript's property-key conversion is not modelled. `0` and the string `"0"` name the same property there; here a non-string strategy is never registered.
- Promises, Jest spies and mocks, and the replacement of the `strategies` getter are not modelled. The registry is an explicit map parameter; spies are read counters on the `Versioning` class.
- `src/model/project.js` is not part of this model. It only joins paths from CI inputs.
- The `NotImplementedException` class (src/model/error/not-implemented-exception.test.js) is kept only as the `NotImplemented` error kind.
