/** The strategy registry and `determineVersion`'s dispatch over it, as a
    function of the registry, the requested strategy, the custom version
    and what the two generators would produce. */
module VersioningEngine {
  import opened Wrappers
  import opened Errors
  import Js

  /** What a registered strategy resolves with. `Unimplemented` is a key
      that is registered but handled by no resolver. */
  datatype Resolver = OptOut | Semantic | Tag | Custom | Unimplemented

  type Registry = map<string, Resolver>

  /** `Versioning.strategies`. */
  const Strategies: Registry :=
    map["None" := OptOut, "Semantic" := Semantic, "Tag" := Tag, "Custom" := Custom]

  /** The resolver of a strategy key; only string keys can be registered. */
  function Lookup(registry: Registry, strategy: Js.JsValue): (r: Option<Resolver>)
    ensures r.Some? <==> strategy.Str? && strategy.s in registry
    ensures r.Some? ==> r.value == registry[strategy.s]
  {
    if strategy.Str? && strategy.s in registry then Some(registry[strategy.s]) else None
  }

  /** `determineVersion(strategy, customVersion)`, given what
      `generateSemanticVersion` and `generateTagVersion` resolve to. */
  function DetermineVersion(
    registry: Registry, strategy: Js.JsValue, custom: Js.JsValue,
    semanticVersion: Result<string, GeneratorError>, tagVersion: string
  ): (r: Result<Js.JsValue, VersionError>)
    ensures r == Err(InvalidStrategy) <==> !(strategy.Str? && strategy.s in registry)
    ensures (r.Err? && r.error.NotImplemented?) <==> Lookup(registry, strategy) == Some(Unimplemented)
    ensures Lookup(registry, strategy) == Some(Unimplemented) ==> r == Err(NotImplemented(strategy.s))
    ensures Lookup(registry, strategy) == Some(OptOut) ==> r == Ok(Js.Str("none"))
    ensures Lookup(registry, strategy) == Some(Custom) ==> r == Ok(custom)
    ensures Lookup(registry, strategy) == Some(Semantic) && semanticVersion.Ok? ==>
      r == Ok(Js.Str(semanticVersion.value))
    ensures Lookup(registry, strategy) == Some(Semantic) && semanticVersion.Err? ==>
      r == Err(semanticVersion.error)
    ensures Lookup(registry, strategy) == Some(Tag) ==> r == Ok(Js.Str(tagVersion))
  {
    match Lookup(registry, strategy)
    case None => Err(InvalidStrategy)
    case Some(OptOut) => Ok(Js.Str("none"))
    case Some(Custom) => Ok(custom)
    case Some(Semantic) =>
      (match semanticVersion
       case Ok(v) => Ok(Js.Str(v))
       case Err(e) => Err(e))
    case Some(Tag) => Ok(Js.Str(tagVersion))
    case Some(Unimplemented) => Err(NotImplemented(strategy.s))
  }

  /** The registry offers more than two strategies, among them the four
      named ones, and every one of them has a resolver. */
  lemma StrategiesRegistered()
    ensures |Strategies| > 2
    ensures "None" in Strategies && "Semantic" in Strategies
    ensures "Tag" in Strategies && "Custom" in Strategies
    ensures forall key :: key in Strategies ==> Strategies[key] != Unimplemented
  {
  }

  /** With the shipped registry every request either resolves, is an
      invalid strategy, or passes on the semantic generator's failure;
      none is ever reported as not implemented. */
  lemma StrategiesDispatchTotal(
    strategy: Js.JsValue, custom: Js.JsValue,
    semanticVersion: Result<string, GeneratorError>, tagVersion: string)
    ensures var r := DetermineVersion(Strategies, strategy, custom, semanticVersion, tagVersion);
      r.Ok? || r == Err(InvalidStrategy) || (semanticVersion.Err? && r == Err(semanticVersion.error))
    ensures var r := DetermineVersion(Strategies, strategy, custom, semanticVersion, tagVersion);
      !(r.Err? && r.error.NotImplemented?)
  {
  }

  /** `None` resolves to "none" whatever the custom version. */
  lemma OptOutIsConstant(
    custom: Js.JsValue, semanticVersion: Result<string, GeneratorError>, tagVersion: string)
    ensures DetermineVersion(Strategies, Js.Str("None"), custom, semanticVersion, tagVersion)
         == Ok(Js.Str("none"))
  {
  }

  /** `Custom` resolves to exactly the custom version, whatever it is. */
  lemma CustomIsIdentity(
    custom: Js.JsValue, semanticVersion: Result<string, GeneratorError>, tagVersion: string)
    ensures DetermineVersion(Strategies, Js.Str("Custom"), custom, semanticVersion, tagVersion)
         == Ok(custom)
  {
  }

  /** `Semantic` and `Tag` resolve to what their generators resolve to. */
  lemma GeneratorsDelegated(
    custom: Js.JsValue, semanticVersion: Result<string, GeneratorError>, tagVersion: string)
    ensures semanticVersion.Ok? ==>
      DetermineVersion(Strategies, Js.Str("Semantic"), custom, semanticVersion, tagVersion)
        == Ok(Js.Str(semanticVersion.value))
    ensures semanticVersion.Err? ==>
      DetermineVersion(Strategies, Js.Str("Semantic"), custom, semanticVersion, tagVersion)
        == Err(semanticVersion.error)
    ensures DetermineVersion(Strategies, Js.Str("Tag"), custom, semanticVersion, tagVersion)
         == Ok(Js.Str(tagVersion))
  {
  }

  /** `null`, `undefined`, `0` and an unknown name are invalid strategies. */
  lemma InvalidStrategyExamples(
    custom: Js.JsValue, semanticVersion: Result<string, GeneratorError>, tagVersion: string)
    ensures DetermineVersion(Strategies, Js.Null, custom, semanticVersion, tagVersion) == Err(InvalidStrategy)
    ensures DetermineVersion(Strategies, Js.Undefined, custom, semanticVersion, tagVersion) == Err(InvalidStrategy)
    ensures DetermineVersion(Strategies, Js.Num(0), custom, semanticVersion, tagVersion) == Err(InvalidStrategy)
    ensures DetermineVersion(Strategies, Js.Str("somethingRandom"), custom, semanticVersion, tagVersion)
         == Err(InvalidStrategy)
  {
  }

  /** A registry holding a key without a resolver reports that key as not
      implemented, which is not the invalid-strategy error. */
  lemma UnimplementedIsNotInvalid(
    name: string, custom: Js.JsValue, semanticVersion: Result<string, GeneratorError>, tagVersion: string)
    ensures DetermineVersion(map[name := Unimplemented], Js.Str(name), custom, semanticVersion, tagVersion)
         == Err(NotImplemented(name))
  {
  }
}
