/**
 * Processor::processFile: read the current version of one configured file,
 * ask the configured strategies in order for a new one, keep the first
 * non-empty answer, and rewrite the file only when the version changed.
 *
 * The file system is a parameter (`files`, path to parsed content) and the
 * rewrite is returned as an effect rather than performed.  The git strategy
 * is an oracle: `gitTag` is what it answers ("" when it declines).
 */
module Processor {
  import opened Outcomes
  import opened PhpValues
  import opened DottedPath
  import Incremental = IncrementalStrategy
  import opened Configuration

  /** What parsing a file yields: a YAML document, or a parse failure. */
  datatype Content = Yaml(doc: Value) | Malformed

  datatype Strategy = Git | Incremental

  /** Processor::$strategyMap. */
  const StrategyMap: map<string, Strategy> := map["git" := Git, "incremental" := Incremental]

  /** `new static::$strategyMap[$strategy]`: None when the name is not registered. */
  function Instantiate(name: PhpValue): (r: Option<Strategy>)
    ensures r.Some? <==> name == String("git") || name == String("incremental")
    ensures r == Some(Git) <==> name == String("git")
  {
    if name.String? && name.s in StrategyMap then Some(StrategyMap[name.s]) else None
  }

  /** One strategy's `process($currentVersion)`. */
  function Propose(strategy: Strategy, currentVersion: string, gitTag: string): string
  {
    match strategy
      case Git => gitTag
      case Incremental => Incremental.Process(currentVersion)
  }

  /** A configured name that is registered and whose strategy declines. */
  predicate Declines(name: PhpValue, currentVersion: string, gitTag: string)
  {
    Instantiate(name).Some? && Propose(Instantiate(name).value, currentVersion, gitTag) == ""
  }

  /** The outcome of the strategy loop: the winning name and its answer. */
  datatype Pick = Picked(strategy: string, version: string) | NonePicked

  /** The strategy loop of processFile, as a function of the names. */
  function FirstProposal(names: seq<PhpValue>, currentVersion: string, gitTag: string): (r: Result<Pick>)
    ensures r.Ok? && r.value.Picked? ==> r.value.version != "" && r.value.strategy in StrategyMap
    ensures r.Err? ==> r.error == UnknownStrategy
  {
    if names == [] then Ok(NonePicked)
    else match Instantiate(names[0])
      case None => Err(UnknownStrategy)
      case Some(strategy) =>
        var version := Propose(strategy, currentVersion, gitTag);
        if version != "" then Ok(Picked(names[0].s, version))
        else FirstProposal(names[1..], currentVersion, gitTag)
  }

  /** The file write processFile ends with, if any. */
  datatype Effect =
    | Unchanged
    | Rewritten(strategy: string, previous: string, version: string, doc: Value)

  /** The outcome of processFile for a configuration and the files on disk. */
  function ProcessOutcome(config: Configuration, files: map<string, Content>, gitTag: string): Result<Effect>
  {
    if config.file !in files || files[config.file].Malformed? then Err(FileError(config.file))
    else
      var dump := files[config.file].doc;
      var currentVersion :- FindVersion(dump, config.parameterKey);
      var pick :- FirstProposal(config.strategies, currentVersion, gitTag);
      if pick.NonePicked? then Err(StrategyError)
      else if pick.version == currentVersion then Ok(Unchanged)
      else
        var updated :- UpdateVersion(dump, config.parameterKey, pick.version);
        Ok(Rewritten(pick.strategy, currentVersion, pick.version, updated))
  }

  /** The files after an effect: `dumpFile` overwrites the target. */
  function Apply(files: map<string, Content>, path: string, effect: Effect): map<string, Content>
  {
    match effect
      case Unchanged => files
      case Rewritten(_, _, _, doc) => files[path := Yaml(doc)]
  }

  /** Processor::processFile. */
  method ProcessFile(config: Configuration, files: map<string, Content>, gitTag: string) returns (r: Result<Effect>)
    ensures r == ProcessOutcome(config, files, gitTag)
  {
    if config.file !in files || files[config.file].Malformed? {
      return Err(FileError(config.file));
    }
    var dump := files[config.file].doc;
    var found := FindVersion(dump, config.parameterKey);
    if found.Err? {
      return Err(found.error);
    }
    var currentVersion := found.value;
    var newVersion := "";
    var strategyUsed := "";
    var i := 0;
    while i < |config.strategies|
      invariant 0 <= i <= |config.strategies|
      invariant newVersion == ""
      invariant FirstProposal(config.strategies, currentVersion, gitTag)
                == FirstProposal(config.strategies[i..], currentVersion, gitTag)
    {
      var strategy := Instantiate(config.strategies[i]);
      if strategy.None? {
        return Err(UnknownStrategy);
      }
      newVersion := Propose(strategy.value, currentVersion, gitTag);
      if newVersion != "" {
        strategyUsed := config.strategies[i].s;
        break;
      }
      assert config.strategies[i..][1..] == config.strategies[i + 1..];
      i := i + 1;
    }
    if newVersion == "" {
      return Err(StrategyError);
    }
    assert FirstProposal(config.strategies, currentVersion, gitTag) == Ok(Picked(strategyUsed, newVersion));
    if currentVersion == newVersion {
      return Ok(Unchanged);
    }
    FindThenUpdate(dump, config.parameterKey, newVersion);
    var updated := UpdateVersion(dump, config.parameterKey, newVersion).value;
    return Ok(Rewritten(strategyUsed, currentVersion, newVersion, updated));
  }

  // ---------------------------------------------------------------------------
  // Properties.

  /** First match wins: when every name before position i is registered and
      declines, the name at i decides the outcome (its answer, or the failure
      to instantiate it); nothing after i is consulted.  With i == |names|
      every strategy declined. */
  lemma {:induction false} FirstProposalAt(names: seq<PhpValue>, currentVersion: string, gitTag: string, i: nat)
    requires i <= |names|
    requires forall j :: 0 <= j < i ==> Declines(names[j], currentVersion, gitTag)
    ensures i == |names| ==> FirstProposal(names, currentVersion, gitTag) == Ok(NonePicked)
    ensures i < |names| && Instantiate(names[i]).None? ==>
              FirstProposal(names, currentVersion, gitTag) == Err(UnknownStrategy)
    ensures i < |names| && Instantiate(names[i]).Some? && !Declines(names[i], currentVersion, gitTag) ==>
              FirstProposal(names, currentVersion, gitTag)
              == Ok(Picked(names[i].s, Propose(Instantiate(names[i]).value, currentVersion, gitTag)))
  {
    if i > 0 {
      assert Declines(names[0], currentVersion, gitTag);
      forall j | 0 <= j < i - 1 ensures Declines(names[1..][j], currentVersion, gitTag) {
        assert names[1..][j] == names[j + 1];
      }
      FirstProposalAt(names[1..], currentVersion, gitTag, i - 1);
      if i < |names| {
        assert names[1..][i - 1] == names[i];
      }
    }
  }

  /** Conversely, a picked answer comes from the first registered name that
      does not decline. */
  lemma {:induction false} PickedIsFirst(names: seq<PhpValue>, currentVersion: string, gitTag: string)
    requires FirstProposal(names, currentVersion, gitTag).Ok?
    requires FirstProposal(names, currentVersion, gitTag).value.Picked?
    ensures exists i :: 0 <= i < |names| && PickedAt(names, currentVersion, gitTag, i) &&
              FirstProposal(names, currentVersion, gitTag).value
              == Picked(names[i].s, Propose(Instantiate(names[i]).value, currentVersion, gitTag))
  {
    if Declines(names[0], currentVersion, gitTag) {
      PickedIsFirst(names[1..], currentVersion, gitTag);
      var i :| 0 <= i < |names[1..]| && PickedAt(names[1..], currentVersion, gitTag, i) &&
               FirstProposal(names[1..], currentVersion, gitTag).value
               == Picked(names[1..][i].s, Propose(Instantiate(names[1..][i]).value, currentVersion, gitTag));
      assert names[1..][i] == names[i + 1];
      forall j | 0 <= j < i + 1 ensures Declines(names[j], currentVersion, gitTag) {
        if j > 0 { assert names[j] == names[1..][j - 1]; }
      }
      assert PickedAt(names, currentVersion, gitTag, i + 1);
    } else {
      assert PickedAt(names, currentVersion, gitTag, 0);
    }
  }

  /** Position i holds the first registered name that does not decline. */
  predicate PickedAt(names: seq<PhpValue>, currentVersion: string, gitTag: string, i: nat)
  {
    && i < |names|
    && Instantiate(names[i]).Some?
    && !Declines(names[i], currentVersion, gitTag)
    && forall j :: 0 <= j < i ==> Declines(names[j], currentVersion, gitTag)
  }

  /** processFile succeeds exactly when the file and its version can be read
      and some strategy answers: once one has answered, the write cannot fail. */
  lemma ProcessSucceeds(config: Configuration, files: map<string, Content>, gitTag: string)
    ensures ProcessOutcome(config, files, gitTag).Ok? <==>
              config.file in files && files[config.file].Yaml? &&
              var dump := files[config.file].doc;
              FindVersion(dump, config.parameterKey).Ok? &&
              var pick := FirstProposal(config.strategies, FindVersion(dump, config.parameterKey).value, gitTag);
              pick.Ok? && pick.value.Picked?
  {
    if config.file in files && files[config.file].Yaml? {
      var dump := files[config.file].doc;
      if FindVersion(dump, config.parameterKey).Ok? {
        var pick := FirstProposal(config.strategies, FindVersion(dump, config.parameterKey).value, gitTag);
        if pick.Ok? && pick.value.Picked? {
          FindThenUpdate(dump, config.parameterKey, pick.value.version);
        }
      }
    }
  }

  /** StrategyException is raised exactly when the version was read and every
      configured strategy declined (an empty list included). */
  lemma ProcessExhausted(config: Configuration, files: map<string, Content>, gitTag: string)
    ensures ProcessOutcome(config, files, gitTag) == Err(StrategyError) <==>
              config.file in files && files[config.file].Yaml? &&
              var dump := files[config.file].doc;
              FindVersion(dump, config.parameterKey).Ok? &&
              FirstProposal(config.strategies, FindVersion(dump, config.parameterKey).value, gitTag) == Ok(NonePicked)
  {
    if config.file in files && files[config.file].Yaml? {
      var dump := files[config.file].doc;
      FindVersionErrors(dump, config.parameterKey);
      if FindVersion(dump, config.parameterKey).Ok? {
        var pick := FirstProposal(config.strategies, FindVersion(dump, config.parameterKey).value, gitTag);
        if pick.Ok? && pick.value.Picked? {
          FindThenUpdate(dump, config.parameterKey, pick.value.version);
        }
      }
    }
  }

  /** A rewrite stores the winning answer, which differs from the current
      version, at the configured key of the document read: reading the key
      back gives the answer, and the winner came first in the configured order. */
  lemma ProcessRewrite(config: Configuration, files: map<string, Content>, gitTag: string)
    requires ProcessOutcome(config, files, gitTag).Ok?
    requires ProcessOutcome(config, files, gitTag).value.Rewritten?
    ensures var e := ProcessOutcome(config, files, gitTag).value;
            var dump := files[config.file].doc;
            && FindVersion(dump, config.parameterKey) == Ok(e.previous)
            && FirstProposal(config.strategies, e.previous, gitTag) == Ok(Picked(e.strategy, e.version))
            && e.version != e.previous && e.version != ""
            && UpdateVersion(dump, config.parameterKey, e.version) == Ok(e.doc)
            && FindVersion(e.doc, config.parameterKey) == Ok(e.version)
  {
    var e := ProcessOutcome(config, files, gitTag).value;
    RoundTrip(files[config.file].doc, config.parameterKey, e.version);
  }

  /** No write happens when the winning answer equals the current version. */
  lemma ProcessNoChange(config: Configuration, files: map<string, Content>, gitTag: string)
    requires ProcessOutcome(config, files, gitTag) == Ok(Unchanged)
    ensures var current := FindVersion(files[config.file].doc, config.parameterKey);
            current.Ok? &&
            exists name :: FirstProposal(config.strategies, current.value, gitTag) == Ok(Picked(name, current.value))
  {
    var current := FindVersion(files[config.file].doc, config.parameterKey).value;
    var pick := FirstProposal(config.strategies, current, gitTag).value;
    assert FirstProposal(config.strategies, current, gitTag) == Ok(Picked(pick.strategy, current));
  }

  /** A second run changes nothing when git is the first strategy and HEAD
      carries a tag: the first run stores the tag, the second finds it. */
  lemma GitRunIsIdempotent(config: Configuration, files: map<string, Content>, gitTag: string)
    requires config.strategies != [] && config.strategies[0] == String("git") && gitTag != ""
    requires ProcessOutcome(config, files, gitTag).Ok?
    ensures ProcessOutcome(config, Apply(files, config.file, ProcessOutcome(config, files, gitTag).value), gitTag)
            == Ok(Unchanged)
  {
    var e := ProcessOutcome(config, files, gitTag).value;
    var dump := files[config.file].doc;
    var current := FindVersion(dump, config.parameterKey).value;
    FirstProposalAt(config.strategies, current, gitTag, 0);
    if e.Rewritten? {
      ProcessRewrite(config, files, gitTag);
      FirstProposalAt(config.strategies, gitTag, gitTag, 0);
    }
  }

  /** The incremental strategy always proposes something new, so a run won by
      it always rewrites the file: repeated runs keep counting up. */
  lemma IncrementalAlwaysRewrites(config: Configuration, files: map<string, Content>, gitTag: string)
    requires ProcessOutcome(config, files, gitTag).Ok?
    requires var dump := files[config.file].doc;
             var current := FindVersion(dump, config.parameterKey).value;
             FirstProposal(config.strategies, current, gitTag).value.strategy == "incremental"
    ensures ProcessOutcome(config, files, gitTag).value.Rewritten?
  {
    var dump := files[config.file].doc;
    var current := FindVersion(dump, config.parameterKey).value;
    PickedIsFirst(config.strategies, current, gitTag);
    var i :| 0 <= i < |config.strategies| && PickedAt(config.strategies, current, gitTag, i) &&
             FirstProposal(config.strategies, current, gitTag).value
             == Picked(config.strategies[i].s, Propose(Instantiate(config.strategies[i]).value, current, gitTag));
    assert Instantiate(config.strategies[i]) == Some(Incremental);
    Incremental.ProposalShape(current);
  }

  /** With git listed first and HEAD tagged, the tag decides: a different
      stored version is replaced by the tag, an equal one is left alone, and
      the rest of the list is never consulted. */
  lemma GitFirstDecides(config: Configuration, files: map<string, Content>, gitTag: string)
    requires config.strategies != [] && config.strategies[0] == String("git") && gitTag != ""
    requires config.file in files && files[config.file].Yaml?
    requires FindVersion(files[config.file].doc, config.parameterKey).Ok?
    ensures var dump := files[config.file].doc;
            var current := FindVersion(dump, config.parameterKey).value;
            && UpdateVersion(dump, config.parameterKey, gitTag).Ok?
            && ProcessOutcome(config, files, gitTag)
               == if current == gitTag then Ok(Unchanged)
               else Ok(Rewritten("git", current, gitTag, UpdateVersion(dump, config.parameterKey, gitTag).value))
  {
    var dump := files[config.file].doc;
    var current := FindVersion(dump, config.parameterKey).value;
    FirstProposalAt(config.strategies, current, gitTag, 0);
    FindThenUpdate(dump, config.parameterKey, gitTag);
  }

  /** Worked case: HEAD's tag is already the stored version, so nothing is
      written. */
  lemma ExampleSameTag()
    ensures var files := map["version.yml" := Yaml(Map(map["version" := Str("v3")]))];
            ProcessOutcome(Configuration("version.yml", "version", [String("git"), String("incremental")]), files, "v3")
            == Ok(Unchanged)
  {
    assert FindVersion(Map(map["version" := Str("v3")]), "version") == Ok("v3");
    assert FirstProposal([String("git"), String("incremental")], "v3", "v3") == Ok(Picked("git", "v3"));
  }

  /** Worked case: an unregistered name fails only when the loop reaches it. */
  lemma ExampleUnknownStrategy()
    ensures var files := map["version.yml" := Yaml(Map(map["version" := Str("3")]))];
            ProcessOutcome(Configuration("version.yml", "version", [String("svn")]), files, "v3")
            == Err(UnknownStrategy)
  {
    assert FindVersion(Map(map["version" := Str("3")]), "version") == Ok("3");
  }

  /** Worked case: a name after the winner is never instantiated, so an
      unregistered one there does no harm. */
  lemma ExampleUnknownAfterWinner()
    ensures var files := map["version.yml" := Yaml(Map(map["version" := Str("3")]))];
            ProcessOutcome(Configuration("version.yml", "version", [String("git"), String("svn")]), files, "v3")
            == Ok(Rewritten("git", "3", "v3", Map(map["version" := Str("v3")])))
  {
    var m := map["version" := Str("3")];
    assert FindVersion(Map(m), "version") == Ok("3");
    assert FirstProposal([String("git"), String("svn")], "3", "v3") == Ok(Picked("git", "v3"));
    assert m["version" := Str("v3")] == map["version" := Str("v3")];
  }
}
