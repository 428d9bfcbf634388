/**
 * Configuration: the immutable settings of one target (file, dotted
 * parameter key, ordered strategy names), built and validated from one entry
 * of the Composer setting.  The existence test `is_file` is a parameter: the
 * set of paths that name existing regular files.
 */
module Configuration {
  import opened Outcomes
  import opened PhpValues

  datatype Configuration = Configuration(file: string, parameterKey: string, strategies: seq<PhpValue>)

  /** `['git', 'incremental']`, used when no strategies are configured. */
  const DefaultStrategies: PhpValue := Array([(IntKey(0), String("git")), (IntKey(1), String("incremental"))])

  /** The constructor's typed parameters under strict types: `string $file`,
      `string $parameterKey`, `array $strategies`. */
  function Construct(file: PhpValue, parameterKey: PhpValue, strategies: PhpValue): (r: Result<Configuration>)
    ensures r.Ok? <==> file.String? && parameterKey.String? && strategies.Array?
    ensures r.Ok? ==> r.value == Configuration(file.s, parameterKey.s, Values(strategies.entries))
    ensures r.Err? ==> r.error == (if file.String? && parameterKey.String? then NotAnArray else NotAString)
  {
    if !file.String? || !parameterKey.String? then Err(NotAString)
    else if !strategies.Array? then Err(NotAnArray)
    else Ok(Configuration(file.s, parameterKey.s, Values(strategies.entries)))
  }

  /** Configuration::fromArray: the guards in their order, then the default
      strategies, then the constructor. */
  function FromArray(config: seq<(Key, PhpValue)>, existing: set<string>): (r: Result<Configuration>)
    ensures var file := Get(config, StringKey("file"));
            Empty(file) ==> r == Err(ConfigMissingFile)
    ensures var file := Get(config, StringKey("file"));
            !Empty(file) && !file.String? ==> r == Err(NotAString)
    ensures var file := Get(config, StringKey("file"));
            !Empty(file) && file.String? && file.s !in existing ==> r == Err(ConfigFileNotFound(file.s))
    ensures var file := Get(config, StringKey("file"));
            !Empty(file) && file.String? && file.s in existing && Empty(Get(config, StringKey("parameter-key")))
            ==> r == Err(ConfigMissingParameterKey)
    ensures r.Ok? <==>
              var file := Get(config, StringKey("file"));
              var key := Get(config, StringKey("parameter-key"));
              var strategies := Get(config, StringKey("strategies"));
              !Empty(file) && file.String? && file.s in existing &&
              !Empty(key) && key.String? && (Empty(strategies) || strategies.Array?)
    ensures r.Ok? ==>
              var strategies := Get(config, StringKey("strategies"));
              r.value.file == Get(config, StringKey("file")).s &&
              r.value.parameterKey == Get(config, StringKey("parameter-key")).s &&
              r.value.strategies == (if Empty(strategies) then [String("git"), String("incremental")]
                                     else Values(strategies.entries))
    // what a validated configuration guarantees
    ensures r.Ok? ==> r.value.file in existing && r.value.file !in {"", "0"}
    ensures r.Ok? ==> r.value.parameterKey !in {"", "0"} && r.value.strategies != []
  {
    var file := Get(config, StringKey("file"));
    if Empty(file) then Err(ConfigMissingFile)
    // is_file() takes a string under strict types
    else if !file.String? then Err(NotAString)
    else if file.s !in existing then Err(ConfigFileNotFound(file.s))
    else
      var key := Get(config, StringKey("parameter-key"));
      if Empty(key) then Err(ConfigMissingParameterKey)
      else
        var strategies := Get(config, StringKey("strategies"));
        assert Values(DefaultStrategies.entries) == [String("git"), String("incremental")];
        Construct(file, key, if Empty(strategies) then DefaultStrategies else strategies)
  }

  /** Worked cases: "0" counts as a missing file, and a missing file is
      reported before anything else is looked at. */
  lemma FromArrayMissingFile(existing: set<string>)
    ensures FromArray([(StringKey("file"), String("0"))], existing) == Err(ConfigMissingFile)
    ensures FromArray([], existing) == Err(ConfigMissingFile)
  {
    assert Get([(StringKey("file"), String("0"))], StringKey("file")) == String("0");
  }

  /** Worked case: an existing file without a parameter key. */
  lemma FromArrayMissingKey(existing: set<string>)
    requires "version.yml" in existing
    ensures FromArray([(StringKey("file"), String("version.yml"))], existing) == Err(ConfigMissingParameterKey)
  {
    var entries := [(StringKey("file"), String("version.yml"))];
    assert Get(entries, StringKey("parameter-key")) == Null;
  }

  /** An existing file and a key, with no strategies, take the default order. */
  lemma FromArrayDefaultStrategies(file: string, key: string, existing: set<string>)
    requires file in existing && file !in {"", "0"} && key !in {"", "0"}
    ensures FromArray([(StringKey("file"), String(file)), (StringKey("parameter-key"), String(key))], existing)
            == Ok(Configuration(file, key, [String("git"), String("incremental")]))
  {
    var entries := [(StringKey("file"), String(file)), (StringKey("parameter-key"), String(key))];
    assert Get(entries, StringKey("parameter-key")) == String(key);
    assert Get(entries, StringKey("strategies")) == Null;
  }

  /** Worked case: strategy names are not checked here. */
  lemma FromArrayKeepsUnknownNames(existing: set<string>)
    requires "version.yml" in existing
    ensures FromArray([(StringKey("file"), String("version.yml")), (StringKey("parameter-key"), String("version")),
                       (StringKey("strategies"), Array([(IntKey(0), String("svn"))]))], existing)
            == Ok(Configuration("version.yml", "version", [String("svn")]))
  {
    var named := [(IntKey(0), String("svn"))];
    var entries := [(StringKey("file"), String("version.yml")), (StringKey("parameter-key"), String("version")),
                    (StringKey("strategies"), Array(named))];
    assert Get(entries, StringKey("strategies")) == Array(named);
    assert Values(named) == [String("svn")];
  }
}
