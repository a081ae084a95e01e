/**
 * `fs.read.json.magic` (`read` in `lib/magic.js`): choose a reader from
 * the path, run it, and hand back only its `json`; and `read_p`, the same
 * with the path and fallback given as arguments.
 */
module Magic {
  import opened Js
  import Read

  /** The readers `read` chooses between. */
  datatype Reader = CsvReader | StdinReader | JsonReader | YamlReader

  /** `s.endsWith(suffix)`. */
  predicate EndsWith(s: string, suffix: string)
  {
    |suffix| <= |s| && s[|s| - |suffix|..] == suffix
  }

  /** The if/else chain over the path: `.csv` first, then `"-"`, `.json`, `.yaml`, else JSON. */
  function SelectReader(path: string): Reader
  {
    if EndsWith(path, ".csv") then CsvReader
    else if path == "-" then StdinReader
    else if EndsWith(path, ".json") then JsonReader
    else if EndsWith(path, ".yaml") then YamlReader
    else JsonReader
  }

  /**
   * The CSV and stdin readers (`_read_csv`, `_read_stdin`) are streams
   * over external parsers; they are passed in as the record they would
   * deliver or the error they reject with.
   */
  datatype Streams = Streams(csv: Dict -> Result<Dict, Value>, stdin: Dict -> Result<Dict, Value>)

  function RunReader(env: Read.Env, streams: Streams, reader: Reader, self: Dict): Result<Dict, Value>
  {
    match reader
    case CsvReader => streams.csv(self)
    case StdinReader => streams.stdin(self)
    case JsonReader => Read.ReadJson(env, self)
    case YamlReader => Read.ReadYaml(env, self)
  }

  /** `.end(done, self, "json")`: the caller's record with only `json` taken from the result. */
  function CopyJson(self: Dict, outcome: Result<Dict, Value>): Result<Dict, Value>
  {
    match outcome
    case Ok(out) => Ok(self["json" := Get(out, "json")])
    case Err(e) => Err(e)
  }

  /** `read`: validate the path, dispatch, copy `json` back. */
  function MagicRead(env: Read.Env, streams: Streams, self: Dict): Result<Dict, Value>
  {
    if !Read.HasPath(self) then Err(env.invalid)
    else CopyJson(self, RunReader(env, streams, SelectReader(Get(self, "path").s), self))
  }

  /** The record `read_p` hands to `read`: `_path || self.path`, and `_otherwise` unless undefined. */
  function ParamContext(pathArg: Value, otherwiseArg: Value, self: Dict): Dict
  {
    self["path" := if Truthy(pathArg) then pathArg else Get(self, "path")]
        ["otherwise" := if otherwiseArg.Undefined? then Get(self, "otherwise") else otherwiseArg]
  }

  /** `read_p(_path, _otherwise)`, as written. */
  function ReadP(env: Read.Env, streams: Streams, pathArg: Value, otherwiseArg: Value, self: Dict): Result<Dict, Value>
  {
    CopyJson(self, MagicRead(env, streams, ParamContext(pathArg, otherwiseArg, self)))
  }

  // ---------------------------------------------------------------------
  // Dispatch

  /** A `.csv` suffix selects the CSV reader, whatever else holds. */
  lemma SelectCsv(path: string)
    ensures SelectReader(path) == CsvReader <==> EndsWith(path, ".csv")
  {
  }

  /** The four suffix tests exclude each other, `"-"` included. */
  lemma {:induction false} SuffixesExclusive(path: string)
    ensures !(EndsWith(path, ".csv") && EndsWith(path, ".json"))
    ensures !(EndsWith(path, ".csv") && EndsWith(path, ".yaml"))
    ensures !(EndsWith(path, ".json") && EndsWith(path, ".yaml"))
    ensures path == "-" ==> !EndsWith(path, ".csv") && !EndsWith(path, ".json") && !EndsWith(path, ".yaml")
  {
    if EndsWith(path, ".csv") {
      assert path[|path| - 1] == ".csv"[3] == 'v';
    }
    if EndsWith(path, ".json") {
      assert path[|path| - 1] == ".json"[4] == 'n';
    }
    if EndsWith(path, ".yaml") {
      assert path[|path| - 1] == ".yaml"[4] == 'l';
    }
  }

  /** Exactly `"-"` selects the stdin reader. */
  lemma SelectStdin(path: string)
    ensures SelectReader(path) == StdinReader <==> path == "-"
  {
    SuffixesExclusive(path);
  }

  /** A `.yaml` suffix, and nothing else, selects `read.yaml`. */
  lemma SelectYaml(path: string)
    ensures SelectReader(path) == YamlReader <==> EndsWith(path, ".yaml")
  {
    SuffixesExclusive(path);
  }

  /** `read.json` is chosen for `.json` and for every path no other test claims. */
  lemma SelectJson(path: string)
    ensures SelectReader(path) == JsonReader <==>
      !EndsWith(path, ".csv") && path != "-" && !EndsWith(path, ".yaml")
    ensures EndsWith(path, ".json") ==> SelectReader(path) == JsonReader
  {
    SuffixesExclusive(path);
  }

  // ---------------------------------------------------------------------
  // What comes back

  /** `read` rejects a non-string path, and otherwise reports exactly the chosen reader's error. */
  lemma MagicReadErrors(env: Read.Env, streams: Streams, self: Dict, e: Value)
    ensures MagicRead(env, streams, self) == Err(e) <==>
      (!Read.HasPath(self) && e == env.invalid) ||
      (Read.HasPath(self) && RunReader(env, streams, SelectReader(Get(self, "path").s), self) == Err(e))
  {
  }

  /** Only `json` is propagated: every other field is the caller's own. */
  lemma MagicReadCopiesOnlyJson(env: Read.Env, streams: Streams, self: Dict)
    requires MagicRead(env, streams, self).Ok?
    ensures Read.HasPath(self)
    ensures var out := RunReader(env, streams, SelectReader(Get(self, "path").s), self);
      out.Ok? && MagicRead(env, streams, self).value == self["json" := Get(out.value, "json")]
    ensures forall k :: k != "json" ==> Get(MagicRead(env, streams, self).value, k) == Get(self, k)
  {
  }

  /** The record `read_p` builds: the explicit path wins when truthy, the explicit fallback unless undefined. */
  lemma ParamContextFields(pathArg: Value, otherwiseArg: Value, self: Dict)
    ensures Get(ParamContext(pathArg, otherwiseArg, self), "path") ==
      (if Truthy(pathArg) then pathArg else Get(self, "path"))
    ensures Get(ParamContext(pathArg, otherwiseArg, self), "otherwise") ==
      (if otherwiseArg.Undefined? then Get(self, "otherwise") else otherwiseArg)
    ensures forall k :: k != "path" && k != "otherwise" ==>
      Get(ParamContext(pathArg, otherwiseArg, self), k) == Get(self, k)
  {
  }

  /** `read_p` also gives back only `json`, the one `read` produced on its own record. */
  lemma ReadPCopiesOnlyJson(env: Read.Env, streams: Streams, pathArg: Value, otherwiseArg: Value, self: Dict)
    requires ReadP(env, streams, pathArg, otherwiseArg, self).Ok?
    ensures var inner := MagicRead(env, streams, ParamContext(pathArg, otherwiseArg, self));
      inner.Ok? && ReadP(env, streams, pathArg, otherwiseArg, self).value == self["json" := Get(inner.value, "json")]
  {
  }

  // ---------------------------------------------------------------------
  // Finding: `read_p`'s fallback argument goes to a field nobody reads

  /**
   * For a path that selects `read.json` or `read.yaml`, the `_otherwise`
   * argument of `read_p` makes no difference: it is stored as `otherwise`,
   * and those readers consult `fs$otherwise_json`.
   */
  lemma ReadPIgnoresOtherwise(env: Read.Env, streams: Streams, pathArg: Value, o1: Value, o2: Value, self: Dict)
    requires Read.HasPath(ParamContext(pathArg, o1, self))
    requires SelectReader(Get(ParamContext(pathArg, o1, self), "path").s) in {JsonReader, YamlReader}
    ensures ReadP(env, streams, pathArg, o1, self) == ReadP(env, streams, pathArg, o2, self)
  {
    var c1 := ParamContext(pathArg, o1, self);
    var c2 := ParamContext(pathArg, o2, self);
    assert Get(c1, "path") == Get(c2, "path");
    assert Get(c1, Read.OtherwiseJson) == Get(c2, Read.OtherwiseJson);
    if SelectReader(Get(c1, "path").s) == JsonReader {
      ReadJsonOnlyNeeds(env, c1, c2);
    } else {
      ReadYamlOnlyNeeds(env, c1, c2);
    }
  }

  /** `read.json` depends on `path` and `fs$otherwise_json` alone, as far as `json` goes. */
  lemma ReadJsonOnlyNeeds(env: Read.Env, c1: Dict, c2: Dict)
    requires Get(c1, "path") == Get(c2, "path") && Get(c1, Read.OtherwiseJson) == Get(c2, Read.OtherwiseJson)
    ensures Read.ReadJson(env, c1).Ok? <==> Read.ReadJson(env, c2).Ok?
    ensures Read.ReadJson(env, c1).Err? ==> Read.ReadJson(env, c1) == Read.ReadJson(env, c2)
    ensures Read.ReadJson(env, c1).Ok? ==>
      Get(Read.ReadJson(env, c1).value, "json") == Get(Read.ReadJson(env, c2).value, "json")
  {
  }

  /** The same for `read.yaml`. */
  lemma ReadYamlOnlyNeeds(env: Read.Env, c1: Dict, c2: Dict)
    requires Get(c1, "path") == Get(c2, "path") && Get(c1, Read.OtherwiseJson) == Get(c2, Read.OtherwiseJson)
    ensures Read.ReadYaml(env, c1).Ok? <==> Read.ReadYaml(env, c2).Ok?
    ensures Read.ReadYaml(env, c1).Err? ==> Read.ReadYaml(env, c1) == Read.ReadYaml(env, c2)
    ensures Read.ReadYaml(env, c1).Ok? ==>
      Get(Read.ReadYaml(env, c1).value, "json") == Get(Read.ReadYaml(env, c2).value, "json")
  {
  }

  /** A file system where every read fails with ENOENT. */
  function NothingThere(): Read.Env
  {
    Read.Env((p, e) => Err(Error("Error", "ENOENT", "no such file or directory")),
             m => Null, b => b, j => Ok(j), y => Ok(y), y => Ok(y), Error("Invalid", "", "path"))
  }

  /**
   * `read_p("data/does-not-exist", 123)` on an empty record, with the file
   * missing: as written it rejects with the ENOENT error instead of
   * delivering `json == 123`.
   */
  lemma ReadPFallbackLost(streams: Streams)
    ensures ReadP(NothingThere(), streams, Str("data/does-not-exist"), Num(123), map[]) ==
      Err(Error("Error", "ENOENT", "no such file or directory"))
  {
    var c := ParamContext(Str("data/does-not-exist"), Num(123), map[]);
    assert Get(c, "path") == Str("data/does-not-exist");
    assert SelectReader("data/does-not-exist") == JsonReader;
    assert Get(c, Read.OtherwiseJson) == Undefined;
  }

  /** The record `read_p` evidently means to build: the fallback goes where the readers look. */
  function IntendedParamContext(pathArg: Value, otherwiseArg: Value, self: Dict): Dict
  {
    self["path" := if Truthy(pathArg) then pathArg else Get(self, "path")]
        [Read.OtherwiseJson := if otherwiseArg.Undefined? then Get(self, Read.OtherwiseJson) else otherwiseArg]
  }

  /** `read_p` with the fallback argument stored as `fs$otherwise_json`. */
  function IntendedReadP(env: Read.Env, streams: Streams, pathArg: Value, otherwiseArg: Value, self: Dict): Result<Dict, Value>
  {
    CopyJson(self, MagicRead(env, streams, IntendedParamContext(pathArg, otherwiseArg, self)))
  }

  /**
   * With the fallback where the readers look, a missing `.json` or
   * extension-less file gives `json == _otherwise`, as the parameterized
   * fallback test expects.
   */
  lemma IntendedReadPFallsBack(env: Read.Env, streams: Streams, path: string, otherwiseArg: Value, self: Dict)
    requires path != "" && Read.Defined(otherwiseArg)
    requires SelectReader(path) == JsonReader
    requires env.readFile(Str(path), Read.Utf8).Err? && Read.IsEnoent(env.readFile(Str(path), Read.Utf8).error)
    ensures IntendedReadP(env, streams, Str(path), otherwiseArg, self) == Ok(self["json" := otherwiseArg])
  {
    var c := IntendedParamContext(Str(path), otherwiseArg, self);
    assert Get(c, "path") == Str(path);
    assert Get(c, Read.OtherwiseJson) == otherwiseArg;
  }
}
