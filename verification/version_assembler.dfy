/** The tag-only version: the current tag without its leading `v`. */
module VersionAssembler {

  /** `generateTagVersion` applied to the output of `getTag`: one leading
      `v` is removed; a tag without one is returned unchanged. */
  function TagVersion(tag: string): (version: string)
    ensures |tag| > 0 && tag[0] == 'v' ==> tag == "v" + version
    ensures !(|tag| > 0 && tag[0] == 'v') ==> version == tag
  {
    if |tag| > 0 && tag[0] == 'v' then tag[1..] else tag
  }

  /** Prefixing a version with `v` and resolving the tag gives the version
      back, even when the version itself starts with `v`. */
  lemma TagVersionOfPrefixed(version: string)
    ensures TagVersion("v" + version) == version
  {
  }

  /** `v1.3.37` resolves to `1.3.37`; only a single `v` is removed. */
  lemma TagVersionExamples()
    ensures TagVersion("v1.3.37") == "1.3.37"
    ensures TagVersion("1.3.37") == "1.3.37"
    ensures TagVersion("vv1") == "v1"
  {
  }
}
