/**
 * ScriptHandler::updateVersion, the Composer hook: read the
 * `juliendufresne-version` entry of the package's `extra` setting, accept
 * either one configuration object or a list of them, and process each
 * configuration in order with one processor.  The first exception ends the
 * run; files rewritten before it stay rewritten.
 *
 * The files on disk are threaded through as a map (path to parsed content);
 * `is_file` is membership in that map, and the git strategy's answer is the
 * parameter `gitTag`, the same for every configuration of one run.
 */
module ScriptHandler {
  import opened Outcomes
  import opened PhpValues
  import opened Configuration
  import opened Processor
  import DottedPath

  /** The key of the package's `extra` setting that holds the configurations. */
  const SettingKey: Key := StringKey("juliendufresne-version")

  /** The state a run leaves behind: the files, and the exception that ended
      it early, if any. */
  datatype Run = Run(files: map<string, Content>, failure: Option<Error>)

  /** `array_keys($configs) === range(0, count($configs) - 1)`: the keys are
      0, 1, 2, ... in order.  `range(0, -1)` is `[0, -1]`, so the empty array
      is not a list. */
  predicate IsList(entries: seq<(Key, PhpValue)>)
  {
    entries != [] && forall i :: 0 <= i < |entries| ==> entries[i].0 == IntKey(i)
  }

  /** The setting as the list of configurations the loop visits: a list is
      taken as it is, any other array is one configuration object. */
  function Normalise(setting: PhpValue): (r: Result<seq<PhpValue>>)
    ensures r.Err? <==> !setting.Array?
    ensures r.Err? ==> r.error == InvalidSetting
    ensures r.Ok? && IsList(setting.entries) ==> r.value == Values(setting.entries)
    ensures r.Ok? && !IsList(setting.entries) ==> r.value == [setting]
    ensures r.Ok? ==> r.value != []
  {
    if !setting.Array? then Err(InvalidSetting)
    else if IsList(setting.entries) then Ok(Values(setting.entries))
    else Ok([setting])
  }

  /** One pass of the loop body: the entry must be an array, its
      configuration must validate against the files that exist, and processing
      it must succeed; the files afterwards, or the exception. */
  function Step(entry: PhpValue, files: map<string, Content>, gitTag: string): (r: Result<map<string, Content>>)
    ensures !entry.Array? ==> r == Err(InvalidConfigEntry)
    // a successful step rewrites at most the configured file, which existed
    ensures r.Ok? ==> var path := Get(entry.entries, StringKey("file"));
                      && path.String? && path.s in files
                      && r.value.Keys == files.Keys
                      && forall p :: p in files && p != path.s ==> r.value[p] == files[p]
  {
    if !entry.Array? then Err(InvalidConfigEntry)
    else
      var config :- FromArray(entry.entries, files.Keys);
      var effect :- ProcessOutcome(config, files, gitTag);
      Ok(Apply(files, config.file, effect))
  }

  /** The loop over the configurations, as a function of the entries. */
  function RunConfigs(configs: seq<PhpValue>, files: map<string, Content>, gitTag: string): Run
  {
    if configs == [] then Run(files, None)
    else match Step(configs[0], files, gitTag)
      case Err(e) => Run(files, Some(e))
      case Ok(next) => RunConfigs(configs[1..], next, gitTag)
  }

  /** The whole hook for the package's `extra` setting. */
  function Handle(extra: seq<(Key, PhpValue)>, files: map<string, Content>, gitTag: string): Run
  {
    match Normalise(Get(extra, SettingKey))
      case Err(e) => Run(files, Some(e))
      case Ok(configs) => RunConfigs(configs, files, gitTag)
  }

  /** ScriptHandler::updateVersion. */
  method UpdateVersion(extra: seq<(Key, PhpValue)>, files: map<string, Content>, gitTag: string) returns (r: Run)
    ensures r == Handle(extra, files, gitTag)
  {
    var normalised := Normalise(Get(extra, SettingKey));
    if normalised.Err? {
      return Run(files, Some(normalised.error));
    }
    var configs := normalised.value;
    var current := files;
    var i := 0;
    while i < |configs|
      invariant 0 <= i <= |configs|
      invariant RunConfigs(configs, files, gitTag) == RunConfigs(configs[i..], current, gitTag)
    {
      var entry := configs[i];
      if !entry.Array? {
        return Run(current, Some(InvalidConfigEntry));
      }
      var config := FromArray(entry.entries, current.Keys);
      if config.Err? {
        return Run(current, Some(config.error));
      }
      var effect := ProcessFile(config.value, current, gitTag);
      if effect.Err? {
        return Run(current, Some(effect.error));
      }
      assert configs[i..][1..] == configs[i + 1..];
      current := Apply(current, config.value.file, effect.value);
      i := i + 1;
    }
    return Run(current, None);
  }

  // ---------------------------------------------------------------------------
  // Properties.

  /** Running two lists one after the other is running their concatenation:
      the second starts from the files the first left, and not at all when the
      first failed. */
  lemma {:induction false} RunConcat(a: seq<PhpValue>, b: seq<PhpValue>, files: map<string, Content>, gitTag: string)
    ensures var first := RunConfigs(a, files, gitTag);
            RunConfigs(a + b, files, gitTag)
            == if first.failure.Some? then first else RunConfigs(b, first.files, gitTag)
  {
    if a == [] {
      assert a + b == b;
    } else {
      assert (a + b)[0] == a[0];
      assert (a + b)[1..] == a[1..] + b;
      match Step(a[0], files, gitTag)
        case Err(_) =>
        case Ok(next) => RunConcat(a[1..], b, next, gitTag);
    }
  }

  /** The run never creates or deletes a file: only existing ones are
      rewritten. */
  lemma {:induction false} RunKeepsFileSet(configs: seq<PhpValue>, files: map<string, Content>, gitTag: string)
    ensures RunConfigs(configs, files, gitTag).files.Keys == files.Keys
  {
    if configs != [] && Step(configs[0], files, gitTag).Ok? {
      RunKeepsFileSet(configs[1..], Step(configs[0], files, gitTag).value, gitTag);
    }
  }

  /** The `file` entry a configuration names, when it names one. */
  predicate Names(entry: PhpValue, path: string)
  {
    entry.Array? && Get(entry.entries, StringKey("file")) == String(path)
  }

  /** A file that no configuration names keeps its content. */
  lemma {:induction false} RunTouchesOnlyConfiguredFiles(configs: seq<PhpValue>, files: map<string, Content>,
                                                         gitTag: string, path: string)
    requires path in files
    requires forall i :: 0 <= i < |configs| ==> !Names(configs[i], path)
    ensures path in RunConfigs(configs, files, gitTag).files
    ensures RunConfigs(configs, files, gitTag).files[path] == files[path]
  {
    if configs != [] && Step(configs[0], files, gitTag).Ok? {
      assert !Names(configs[0], path);
      var next := Step(configs[0], files, gitTag).value;
      forall i | 0 <= i < |configs[1..]| ensures !Names(configs[1..][i], path) {
        assert configs[1..][i] == configs[i + 1];
      }
      RunTouchesOnlyConfiguredFiles(configs[1..], next, gitTag, path);
    }
  }

  /** The run fails exactly when some entry fails, and then with that entry's
      exception after the entries before it have been applied. */
  lemma {:induction false} RunFailsAtFirstFailingStep(configs: seq<PhpValue>, files: map<string, Content>, gitTag: string)
    requires RunConfigs(configs, files, gitTag).failure.Some?
    ensures exists k :: 0 <= k < |configs| &&
              var before := RunConfigs(configs[..k], files, gitTag);
              && before.failure.None?
              && Step(configs[k], before.files, gitTag).Err?
              && RunConfigs(configs, files, gitTag)
                 == Run(before.files, Some(Step(configs[k], before.files, gitTag).error))
  {
    match Step(configs[0], files, gitTag)
      case Err(e) =>
        assert configs[..0] == [];
      case Ok(next) =>
        assert RunConfigs(configs, files, gitTag) == RunConfigs(configs[1..], next, gitTag);
        RunFailsAtFirstFailingStep(configs[1..], next, gitTag);
        var k :| 0 <= k < |configs[1..]| &&
                 var before := RunConfigs(configs[1..][..k], next, gitTag);
                 && before.failure.None?
                 && Step(configs[1..][k], before.files, gitTag).Err?
                 && RunConfigs(configs[1..], next, gitTag)
                    == Run(before.files, Some(Step(configs[1..][k], before.files, gitTag).error));
        var prefix := configs[..k + 1];
        assert prefix[0] == configs[0];
        assert prefix[1..] == configs[1..][..k];
        assert configs[1..][k] == configs[k + 1];
        assert RunConfigs(prefix, files, gitTag) == RunConfigs(configs[1..][..k], next, gitTag);
  }

  /** A configuration object is handled like a list holding only it. */
  lemma ObjectIsListOfOne(files: map<string, Content>, gitTag: string,
                          entries: seq<(Key, PhpValue)>)
    requires !IsList(entries)
    ensures Handle([(SettingKey, Array(entries))], files, gitTag)
            == Handle([(SettingKey, Array([(IntKey(0), Array(entries))]))], files, gitTag)
  {
    var listed := [(IntKey(0), Array(entries))];
    assert IsList(listed);
    assert Values(listed) == [Array(entries)];
  }

  /** A missing or non-array setting is rejected before anything is read, and
      an empty array is one configuration without a file. */
  lemma SettingErrors(files: map<string, Content>, gitTag: string)
    ensures Handle([], files, gitTag) == Run(files, Some(InvalidSetting))
    ensures Handle([(SettingKey, String("version.yml"))], files, gitTag) == Run(files, Some(InvalidSetting))
    ensures Handle([(SettingKey, Array([]))], files, gitTag) == Run(files, Some(ConfigMissingFile))
    ensures Handle([(SettingKey, Array([(IntKey(0), String("version.yml"))]))], files, gitTag)
            == Run(files, Some(InvalidConfigEntry))
  {
    assert !IsList([]);
    var listed := [(IntKey(0), String("version.yml"))];
    assert IsList(listed);
    assert Values(listed) == [String("version.yml")];
  }

  /** Two values under the keys 0 and 1 form a list of those two values. */
  lemma ListOfTwo(first: PhpValue, second: PhpValue)
    ensures IsList([(IntKey(0), first), (IntKey(1), second)])
    ensures Normalise(Array([(IntKey(0), first), (IntKey(1), second)])) == Ok([first, second])
  {
    var listed := [(IntKey(0), first), (IntKey(1), second)];
    assert Values(listed) == [first, second];
  }

  /** Worked case of one step: a.yml holds version "1", HEAD is tagged "v2",
      and the configuration names a.yml and the key "version"; the step
      rewrites a.yml and leaves the other file alone. */
  lemma ExampleStepRewrites(files: map<string, Content>, first: PhpValue)
    requires files == map["a.yml" := Yaml(DottedPath.Map(map["version" := DottedPath.Str("1")])), "b.yml" := Malformed]
    requires first == Array([(StringKey("file"), String("a.yml")), (StringKey("parameter-key"), String("version"))])
    ensures Step(first, files, "v2") == Ok(files["a.yml" := Yaml(DottedPath.Map(map["version" := DottedPath.Str("v2")]))])
  {
    var config := Configuration("a.yml", "version", [String("git"), String("incremental")]);
    FromArrayDefaultStrategies("a.yml", "version", files.Keys);
    var m := map["version" := DottedPath.Str("1")];
    assert DottedPath.FindVersion(DottedPath.Map(m), "version") == Ok("1");
    assert m["version" := DottedPath.Str("v2")] == map["version" := DottedPath.Str("v2")];
    GitFirstDecides(config, files, "v2");
  }

  /** Worked case of one step: an entry naming an existing file but no
      parameter key fails before anything is read. */
  lemma ExampleStepWithoutKey(files: map<string, Content>, entry: PhpValue, gitTag: string)
    requires entry == Array([(StringKey("file"), String("b.yml"))]) && "b.yml" in files
    ensures Step(entry, files, gitTag) == Err(ConfigMissingParameterKey)
  {
    assert Get(entry.entries, StringKey("parameter-key")) == Null;
  }

  /** Worked case: two configurations in a list; the first rewrites a.yml
      with HEAD's tag, the second lacks its parameter key, so the run ends
      there with a.yml already rewritten. */
  lemma ExampleStopsAfterWrite(files: map<string, Content>, first: PhpValue, second: PhpValue)
    requires files == map["a.yml" := Yaml(DottedPath.Map(map["version" := DottedPath.Str("1")])), "b.yml" := Malformed]
    requires first == Array([(StringKey("file"), String("a.yml")), (StringKey("parameter-key"), String("version"))])
    requires second == Array([(StringKey("file"), String("b.yml"))])
    ensures Handle([(SettingKey, Array([(IntKey(0), first), (IntKey(1), second)]))], files, "v2")
            == Run(files["a.yml" := Yaml(DottedPath.Map(map["version" := DottedPath.Str("v2")]))], Some(ConfigMissingParameterKey))
  {
    ListOfTwo(first, second);
    ExampleStepRewrites(files, first);
    var after := files["a.yml" := Yaml(DottedPath.Map(map["version" := DottedPath.Str("v2")]))];
    ExampleStepWithoutKey(after, second, "v2");
    assert RunConfigs([second], after, "v2") == Run(after, Some(ConfigMissingParameterKey));
    assert [first, second][1..] == [second];
    assert RunConfigs([first, second], files, "v2") == RunConfigs([second], after, "v2");
  }
}
