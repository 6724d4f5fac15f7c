/** The `Versioning` object as its callers observe it: accessors for the
    CI environment whose reads are counted, the git command outputs it
    consumes, and `determineVersion` calling each generator at most once. */
module Versioning {
  import opened Wrappers
  import opened Errors
  import Js
  import DescriptionParser
  import VersionAssembler
  import VersioningEngine

  /** The prefix of a branch reference such as `refs/heads/main`. */
  const BranchRefPrefix: string := "refs/heads/"

  /** A reference counts as set when it is defined and not empty (the
      model's reading of "set": JavaScript truthiness of a string). */
  predicate IsSet(v: Option<string>) {
    v.Some? && v.value != ""
  }

  /** The branch name: the head reference when set, otherwise the name after
      `refs/heads/` in the reference, otherwise undefined. */
  function BranchName(headRef: Option<string>, ref: Option<string>): Option<string> {
    if IsSet(headRef) then headRef
    else if IsSet(ref) && BranchRefPrefix <= ref.value then Some(ref.value[|BranchRefPrefix|..])
    else None
  }

  /** How often the branch lookup reads the reference: never when the head
      reference is set, once to find it unset, twice to test and cut it. */
  function RefReads(headRef: Option<string>, ref: Option<string>): nat {
    if IsSet(headRef) then 0 else if IsSet(ref) then 2 else 1
  }

  /** A set head reference wins, and the reference is not read at all. */
  lemma HeadRefTakesPrecedence(headRef: Option<string>, ref: Option<string>)
    requires IsSet(headRef)
    ensures BranchName(headRef, ref) == headRef && RefReads(headRef, ref) == 0
  {
  }

  /** Without a head reference, a branch reference gives the branch's name. */
  lemma BranchFromRef(headRef: Option<string>, name: string)
    requires !IsSet(headRef)
    ensures BranchName(headRef, Some(BranchRefPrefix + name)) == Some(name)
    ensures RefReads(headRef, Some(BranchRefPrefix + name)) == 2
  {
  }

  /** With the head reference unset, an unset reference gives no branch
      after one read, and a set reference outside `refs/heads/` gives none
      after two. */
  lemma BranchUndefined(headRef: Option<string>, ref: Option<string>)
    requires !IsSet(headRef)
    requires !IsSet(ref) || !(BranchRefPrefix <= ref.value)
    ensures BranchName(headRef, ref) == None
    ensures RefReads(headRef, ref) == (if IsSet(ref) then 2 else 1)
  {
  }

  /** The outputs of the commands behind `getTag` and `getVersionDescription`. */
  datatype GitOutputs = GitOutputs(tag: string, description: string)

  class Versioning {
    /** What the `headRef` and `ref` getters return. */
    const headRefValue: Option<string>
    const refValue: Option<string>
    /** What the command runner prints for `getTag` and `getVersionDescription`. */
    const git: GitOutputs
    /** What `generateSemanticVersion` resolves to; its assembly is not modelled. */
    const semanticVersion: Result<string, GeneratorError>

    var headRefReads: nat
    var refReads: nat
    var semanticCalls: nat
    var tagCalls: nat

    constructor (headRef: Option<string>, ref: Option<string>, git: GitOutputs,
                 semanticVersion: Result<string, GeneratorError>)
      ensures headRefValue == headRef && refValue == ref
      ensures this.git == git && this.semanticVersion == semanticVersion
      ensures headRefReads == 0 && refReads == 0 && semanticCalls == 0 && tagCalls == 0
    {
      headRefValue, refValue := headRef, ref;
      this.git, this.semanticVersion := git, semanticVersion;
      headRefReads, refReads, semanticCalls, tagCalls := 0, 0, 0, 0;
    }

    /** The `headRef` getter. */
    method HeadRef() returns (headRef: Option<string>)
      modifies this`headRefReads
      ensures headRef == headRefValue
      ensures headRefReads == old(headRefReads) + 1
    {
      headRef := headRefValue;
      headRefReads := headRefReads + 1;
    }

    /** The `ref` getter. */
    method Ref() returns (ref: Option<string>)
      modifies this`refReads
      ensures ref == refValue
      ensures refReads == old(refReads) + 1
    {
      ref := refValue;
      refReads := refReads + 1;
    }

    /** The `branch` getter: the head reference is read once, and the
      reference only when the head reference is not set. */
    method Branch() returns (branch: Option<string>)
      modifies this`headRefReads, this`refReads
      ensures branch == BranchName(headRefValue, refValue)
      ensures headRefReads == old(headRefReads) + 1
      ensures refReads == old(refReads) + RefReads(headRefValue, refValue)
    {
      var headRef := HeadRef();
      if IsSet(headRef) {
        return headRef;
      }
      var ref := Ref();
      if !IsSet(ref) {
        return None;
      }
      ref := Ref();
      if BranchRefPrefix <= ref.value {
        branch := Some(ref.value[|BranchRefPrefix|..]);
      } else {
        branch := None;
      }
    }

    /** `getTag`: the command's output, unchanged. */
    method GetTag() returns (tag: string)
      ensures tag == git.tag
    {
      tag := git.tag;
    }

    /** `getVersionDescription`: the command's output, unchanged. */
    method GetVersionDescription() returns (description: string)
      ensures description == git.description
    {
      description := git.description;
    }

    /** `generateTagVersion`: the current tag without its leading `v`. */
    method GenerateTagVersion() returns (version: string)
      modifies this`tagCalls
      ensures version == VersionAssembler.TagVersion(git.tag)
      ensures tagCalls == old(tagCalls) + 1
    {
      var tag := GetTag();
      version := VersionAssembler.TagVersion(tag);
      tagCalls := tagCalls + 1;
    }

    /** `generateSemanticVersion`, whose result is given. */
    method GenerateSemanticVersion() returns (version: Result<string, GeneratorError>)
      modifies this`semanticCalls
      ensures version == semanticVersion
      ensures semanticCalls == old(semanticCalls) + 1
    {
      version := semanticVersion;
      semanticCalls := semanticCalls + 1;
    }

    /** `parseSemanticVersion`: the describe output, parsed. */
    method ParseSemanticVersion() returns (r: Result<DescriptionParser.Description, VersionError>)
      ensures r == DescriptionParser.ParseSemanticVersion(git.description)
    {
      var description := GetVersionDescription();
      r := DescriptionParser.ParseSemanticVersion(description);
    }

    /** `determineVersion`: dispatches on the registry and calls the
      generator of the chosen strategy exactly once, and no other. */
    method DetermineVersion(registry: VersioningEngine.Registry, strategy: Js.JsValue, custom: Js.JsValue)
      returns (r: Result<Js.JsValue, VersionError>)
      modifies this`semanticCalls, this`tagCalls
      ensures r == VersioningEngine.DetermineVersion(
        registry, strategy, custom, semanticVersion, VersionAssembler.TagVersion(git.tag))
      ensures semanticCalls == old(semanticCalls)
        + (if VersioningEngine.Lookup(registry, strategy) == Some(VersioningEngine.Semantic) then 1 else 0)
      ensures tagCalls == old(tagCalls)
        + (if VersioningEngine.Lookup(registry, strategy) == Some(VersioningEngine.Tag) then 1 else 0)
    {
      match VersioningEngine.Lookup(registry, strategy)
      case None =>
        r := Err(InvalidStrategy);
      case Some(resolver) =>
        match resolver
        case OptOut =>
          r := Ok(Js.Str("none"));
        case Custom =>
          r := Ok(custom);
        case Semantic =>
          var version := GenerateSemanticVersion();
          r := if version.Ok? then Ok(Js.Str(version.value)) else Err(version.error);
        case Tag =>
          var version := GenerateTagVersion();
          r := Ok(Js.Str(version));
        case Unimplemented =>
          r := Err(NotImplemented(strategy.s));
    }
  }

  /** A set head reference is the branch; it is read once. */
  method BranchReturnsHeadRef(ref: Option<string>) returns (branch: Option<string>, headRefReads: nat)
    ensures branch == Some("feature-branch-1") && headRefReads == 1
  {
    var v := new Versioning(Some("feature-branch-1"), ref, GitOutputs("", ""), Ok(""));
    branch := v.Branch();
    headRefReads := v.headRefReads;
  }

  /** Without a head reference the branch comes from the reference, which
      is read twice. */
  method BranchReturnsPartOfRef() returns (branch: Option<string>, refReads: nat)
    ensures branch == Some("feature-branch-2") && refReads == 2
  {
    var v := new Versioning(None, Some("refs/heads/feature-branch-2"), GitOutputs("", ""), Ok(""));
    branch := v.Branch();
    refReads := v.refReads;
    BranchFromRef(None, "feature-branch-2");
    assert BranchRefPrefix + "feature-branch-2" == "refs/heads/feature-branch-2";
  }

  /** With both set the head reference wins and the reference is never read. */
  method BranchPrefersHeadRef() returns (branch: Option<string>, headRefReads: nat, refReads: nat)
    ensures branch == Some("feature-branch-1") && headRefReads == 1 && refReads == 0
  {
    var v := new Versioning(Some("feature-branch-1"), Some("refs/heads/feature-2"), GitOutputs("", ""), Ok(""));
    branch := v.Branch();
    headRefReads, refReads := v.headRefReads, v.refReads;
  }

  /** With neither set the branch is undefined and each is read once. */
  method BranchUndefinedWhenUnset() returns (branch: Option<string>, headRefReads: nat, refReads: nat)
    ensures branch == None && headRefReads == 1 && refReads == 1
  {
    var v := new Versioning(None, None, GitOutputs("", ""), Ok(""));
    branch := v.Branch();
    headRefReads, refReads := v.headRefReads, v.refReads;
  }

  /** `Semantic` resolves to what `generateSemanticVersion` resolves to,
      which is called once. */
  method SemanticRefersToGenerator() returns (r: Result<Js.JsValue, VersionError>, calls: nat)
    ensures r == Ok(Js.Str("1.3.37")) && calls == 1
  {
    var v := new Versioning(None, None, GitOutputs("", ""), Ok("1.3.37"));
    r := v.DetermineVersion(VersioningEngine.Strategies, Js.Str("Semantic"), Js.Undefined);
    calls := v.semanticCalls;
  }

  /** `Tag` resolves to what `generateTagVersion` resolves to, which is
      called once. */
  method TagRefersToGenerator() returns (r: Result<Js.JsValue, VersionError>, calls: nat)
    ensures r == Ok(Js.Str("0.1")) && calls == 1
  {
    var v := new Versioning(None, None, GitOutputs("v0.1", ""), Ok(""));
    r := v.DetermineVersion(VersioningEngine.Strategies, Js.Str("Tag"), Js.Undefined);
    calls := v.tagCalls;
    VersionAssembler.TagVersionOfPrefixed("0.1");
  }

  /** A registered key without a resolver is not implemented. */
  method UnimplementedStrategyThrows() returns (r: Result<Js.JsValue, VersionError>)
    ensures r == Err(NotImplemented("Test"))
  {
    var v := new Versioning(None, None, GitOutputs("", ""), Ok(""));
    r := v.DetermineVersion(map["Test" := VersioningEngine.Unimplemented], Js.Str("Test"), Js.Undefined);
  }

  /** `generateTagVersion` on the tag `v1.3.37` gives `1.3.37`. */
  method GenerateTagVersionRemovesV() returns (version: string)
    ensures version == "1.3.37"
  {
    var v := new Versioning(None, None, GitOutputs("v1.3.37", ""), Ok(""));
    version := v.GenerateTagVersion();
    VersionAssembler.TagVersionOfPrefixed("1.3.37");
  }
}
