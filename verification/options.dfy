/**
 * The option handling of `getPaths` and `areConnected`: the required source and
 * destination, and the defaults written back for every missing or ill-typed
 * optional field.
 */
module Options {
  import opened Wrappers
  import opened JsValues

  /** `opt.format`: 'array' keeps each path as a list, 'string' joins it with commas. */
  datatype Format = ArrayFormat | StringFormat

  /** The resolved options of one search. */
  datatype Config = Config(
    source: string,
    destination: string,
    max: int,          // opt.max: the search stops once this many paths are found
    recursion: int,    // opt.depth.recursion: the path-length limit
    queueWidth: int,   // opt.depth.queue: worker concurrency, unused by the sequential search
    revisit: bool,     // a node may occur twice in one path
    reverse: bool,     // a path may step straight back to the node before
    format: Format)

  const DefaultMax := 100
  const DefaultRecursion := 5
  const DefaultQueueWidth := 500

  /** A number when the field holds one (`_.isNumber`), the default otherwise. */
  function NumberOr(v: JsValue, default: int): int {
    if v.Num? then v.n else default
  }

  /** A boolean when the field holds one (`_.isBoolean`), `false` otherwise. */
  function BooleanOr(v: JsValue): bool {
    if v.Bool? then v.b else false
  }

  /**
   * The validation and defaulting at the start of `getPaths`: `opt` must be an
   * object with string `source` and `destination`; every other field falls back
   * to its default when missing or of the wrong type, and `depth` to `{}`.
   */
  function ResolveOptions(opt: JsValue): (r: Result<Config, JsError>)
    ensures !IsObject(opt) ==> r == Failure(TypeError("opt must be an object"))
    ensures IsObject(opt) && !Get(opt, "source").Str? ==> r == Failure(TypeError("opt.source must be a string"))
    ensures IsObject(opt) && Get(opt, "source").Str? && !Get(opt, "destination").Str? ==>
      r == Failure(TypeError("opt.destination must be a string"))
    ensures r.Success? <==> IsObject(opt) && Get(opt, "source").Str? && Get(opt, "destination").Str?
    ensures r.Success? ==>
      && r.value.source == Get(opt, "source").s
      && r.value.destination == Get(opt, "destination").s
    ensures r.Success? ==>
      && (Get(opt, "max").Num? ==> r.value.max == Get(opt, "max").n)
      && (!Get(opt, "max").Num? ==> r.value.max == DefaultMax)
      && (Get(opt, "reverse").Bool? ==> r.value.reverse == Get(opt, "reverse").b)
      && (!Get(opt, "reverse").Bool? ==> !r.value.reverse)
      && (Get(opt, "revisit").Bool? ==> r.value.revisit == Get(opt, "revisit").b)
      && (!Get(opt, "revisit").Bool? ==> !r.value.revisit)
      && (r.value.format == StringFormat <==> Get(opt, "format") == Str("string"))
    ensures r.Success? && !IsObject(Get(opt, "depth")) ==>
      r.value.recursion == DefaultRecursion && r.value.queueWidth == DefaultQueueWidth
    ensures r.Success? && IsObject(Get(opt, "depth")) ==>
      && (Get(Get(opt, "depth"), "recursion").Num? ==> r.value.recursion == Get(Get(opt, "depth"), "recursion").n)
      && (!Get(Get(opt, "depth"), "recursion").Num? ==> r.value.recursion == DefaultRecursion)
  {
    if !IsObject(opt) then Failure(TypeError("opt must be an object"))
    else if !Get(opt, "source").Str? then Failure(TypeError("opt.source must be a string"))
    else if !Get(opt, "destination").Str? then Failure(TypeError("opt.destination must be a string"))
    else
      var format := Get(opt, "format");
      var depth := if IsObject(Get(opt, "depth")) then Get(opt, "depth") else Obj(map[]);
      Success(Config(
        source := Get(opt, "source").s,
        destination := Get(opt, "destination").s,
        max := NumberOr(Get(opt, "max"), DefaultMax),
        recursion := NumberOr(Get(depth, "recursion"), DefaultRecursion),
        queueWidth := NumberOr(Get(depth, "queue"), DefaultQueueWidth),
        revisit := BooleanOr(Get(opt, "revisit")),
        reverse := BooleanOr(Get(opt, "reverse")),
        format := if format == Str("string") then StringFormat else ArrayFormat))
  }

  /** The option object that spells out a configuration field by field. */
  function EncodeConfig(c: Config): JsValue {
    Obj(map[
      "source" := Str(c.source),
      "destination" := Str(c.destination),
      "max" := Num(c.max),
      "reverse" := Bool(c.reverse),
      "revisit" := Bool(c.revisit),
      "format" := Str(if c.format == StringFormat then "string" else "array"),
      "depth" := Obj(map["queue" := Num(c.queueWidth), "recursion" := Num(c.recursion)])])
  }

  /** Every configuration is reachable: resolving its spelled-out options gives it back. */
  lemma ResolveEncoded(c: Config)
    ensures ResolveOptions(EncodeConfig(c)) == Success(c)
  {
  }

  /** With only `source` and `destination` given, every documented default applies. */
  lemma ResolveDefaults(source: string, destination: string)
    ensures ResolveOptions(Obj(map["source" := Str(source), "destination" := Str(destination)]))
         == Success(Config(source, destination, DefaultMax, DefaultRecursion, DefaultQueueWidth,
                           false, false, ArrayFormat))
  {
  }

  /**
   * The option rewrite at the start of `areConnected`: a non-object becomes `{}`,
   * then `max` is forced to 1 and `reverse` and `revisit` to `false`.  Properties
   * set on an array are not modelled; such options have no string `source` and are
   * rejected either way.
   */
  function ForceConnectivity(opt: JsValue): (r: JsValue)
    ensures IsObject(r)
    ensures opt.Arr? ==> r == opt
    ensures !opt.Arr? ==> Get(r, "max") == Num(1) && Get(r, "reverse") == Bool(false) && Get(r, "revisit") == Bool(false)
    ensures !opt.Arr? ==> forall k :: k != "max" && k != "reverse" && k != "revisit" ==> Get(r, k) == Get(opt, k)
  {
    var o := if IsObject(opt) then opt else Obj(map[]);
    if o.Obj? then Obj(o.fields["max" := Num(1)]["reverse" := Bool(false)]["revisit" := Bool(false)])
    else o
  }

  /**
   * The forced options resolve exactly when the caller's do, to the same
   * configuration except for the three forced fields.
   */
  lemma ForceConnectivityResolves(opt: JsValue)
    ensures ResolveOptions(ForceConnectivity(opt)).Success? <==> ResolveOptions(opt).Success?
    ensures ResolveOptions(opt).Success? ==>
      ResolveOptions(ForceConnectivity(opt)).value
        == ResolveOptions(opt).value.(max := 1, reverse := false, revisit := false)
  {
  }
}
