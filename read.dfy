/**
 * The readers of `lib/read.js` as decision tables: given what
 * `fs.readFile` and the parser report, which value ends up in the record,
 * which error is swallowed by a fallback ("otherwise") field, which one is
 * replaced and which one is passed on. Each reader is a function from the
 * `self` record before the call to the record `done(null, self)` delivers,
 * or to the error `done(error)` rejects with.
 */
module Read {
  import opened Js

  /**
   * What the readers call and the model leaves uninterpreted.
   * `readFile(path, encoding)` is `fs.readFile`: the document, or the error
   * its callback receives (`encoding` is `Undefined` where none is passed).
   * `mimeType` is `mime.getType`, `basename` is `path.basename`,
   * `jsonParse`, `yamlLoad` and `yamlLoadAll` are `JSON.parse`,
   * `yaml.safeLoad` and `yaml.safeLoadAll`, an `Err` being what they throw.
   * `invalid` is the error `_.promise.validate` raises when `path` is not
   * a string.
   */
  datatype Env = Env(
    readFile: (Value, Value) -> Result<Value, Value>,
    mimeType: string -> Value,
    basename: string -> string,
    jsonParse: Value -> Result<Value, Value>,
    yamlLoad: Value -> Result<Value, Value>,
    yamlLoadAll: Value -> Result<Value, Value>,
    invalid: Value)

  const Utf8: Value := Str("utf-8")

  /** `new errors.Invalid("expected an Array")`. */
  const ExpectedArray: Value := Error("Invalid", "", "expected an Array")

  const OtherwiseDocument := "fs$otherwise_document"
  const OtherwiseJson := "fs$otherwise_json"
  const OtherwiseJsons := "fs$otherwise_jsons"

  /** `!_.is.Undefined(v)`. */
  predicate Defined(v: Value)
  {
    !v.Undefined?
  }

  predicate IsEnoent(e: Value)
  {
    e.Error? && e.code == "ENOENT"
  }

  /** `error && error.code === "ENOENT" && !_.is.Undefined(fallback)`. */
  predicate FallsBack(read: Result<Value, Value>, fallback: Value)
  {
    read.Err? && IsEnoent(read.error) && Defined(fallback)
  }

  /** `_.promise.validate` against `requires: { path: _.is.String }`. */
  predicate HasPath(self: Dict)
  {
    Get(self, "path").Str?
  }

  // ---------------------------------------------------------------------
  // read, read.buffer, read.utf8

  /** The four fields a successful document read writes. */
  function WithDocument(env: Env, self: Dict, path: string, document: Value): Dict
  {
    self["document" := document]["document_media_type" := env.mimeType(path)]
        ["document_encoding" := Null]["document_name" := Str(env.basename(path))]
  }

  /** The document read shared by the three readers, with the encoding each passes. */
  function ReadDocument(env: Env, self: Dict, encoding: Value): Result<Dict, Value>
  {
    if !HasPath(self) then Err(env.invalid)
    else
      var path := Get(self, "path").s;
      var read := env.readFile(Str(path), encoding);
      var fallback := Get(self, OtherwiseDocument);
      if FallsBack(read, fallback) then Ok(WithDocument(env, self, path, fallback))
      else if read.Err? then Err(read.error)
      else Ok(WithDocument(env, self, path, read.value))
  }

  /** `read`: the encoding is the record's own `document_encoding`. */
  function ReadText(env: Env, self: Dict): Result<Dict, Value>
  {
    ReadDocument(env, self, Get(self, "document_encoding"))
  }

  /** `read.buffer`: no encoding, so the document is a Buffer. */
  function ReadBuffer(env: Env, self: Dict): Result<Dict, Value>
  {
    ReadDocument(env, self, Undefined)
  }

  /** `read.utf8`. */
  function ReadUtf8(env: Env, self: Dict): Result<Dict, Value>
  {
    ReadDocument(env, self, Utf8)
  }

  // ---------------------------------------------------------------------
  // read.json, read.yaml, read.yamls

  /**
   * The value `read.json`, `read.yaml` and `read.yamls` store: the
   * fallback on ENOENT, else the read error, else the parsed value, and
   * the fallback again (or the parse error without one) when parsing throws.
   */
  function Parsed(read: Result<Value, Value>, parse: Value -> Result<Value, Value>, fallback: Value): Result<Value, Value>
  {
    if FallsBack(read, fallback) then Ok(fallback)
    else if read.Err? then Err(read.error)
    else
      match parse(read.value)
      case Ok(v) => Ok(v)
      case Err(x) => if Defined(fallback) then Ok(fallback) else Err(x)
  }

  /** `self.json = v`. */
  function StoreJson(self: Dict, outcome: Result<Value, Value>): Result<Dict, Value>
  {
    match outcome
    case Ok(v) => Ok(self["json" := v])
    case Err(e) => Err(e)
  }

  /** `self.jsons = v; self.json = self.jsons`. */
  function StoreJsons(self: Dict, outcome: Result<Value, Value>): Result<Dict, Value>
  {
    match outcome
    case Ok(v) => Ok(self["jsons" := v]["json" := v])
    case Err(e) => Err(e)
  }

  /** `read.json` reads UTF-8 and, unlike the others, does not validate `path`. */
  function ReadJson(env: Env, self: Dict): Result<Dict, Value>
  {
    StoreJson(self, Parsed(env.readFile(Get(self, "path"), Utf8), env.jsonParse, Get(self, OtherwiseJson)))
  }

  /** `read.yaml`: a Buffer through `yaml.safeLoad`. */
  function ReadYaml(env: Env, self: Dict): Result<Dict, Value>
  {
    if !HasPath(self) then Err(env.invalid)
    else StoreJson(self, Parsed(env.readFile(Get(self, "path"), Undefined), env.yamlLoad, Get(self, OtherwiseJson)))
  }

  /** `read.yamls`: a Buffer through `yaml.safeLoadAll`, stored in `jsons` and `json`. */
  function ReadYamls(env: Env, self: Dict): Result<Dict, Value>
  {
    if !HasPath(self) then Err(env.invalid)
    else StoreJsons(self, Parsed(env.readFile(Get(self, "path"), Undefined), env.yamlLoadAll, Get(self, OtherwiseJsons)))
  }

  // ---------------------------------------------------------------------
  // read.jsons

  /**
   * The document `JSON.parse` receives in `read.jsons`: there is no check
   * of the read error, so after a failed read it is `undefined`.
   */
  function DocumentOf(read: Result<Value, Value>): Value
  {
    if read.Ok? then read.value else Undefined
  }

  /** The value `read.jsons` stores. */
  function ParsedArray(read: Result<Value, Value>, parse: Value -> Result<Value, Value>, fallback: Value): Result<Value, Value>
  {
    if FallsBack(read, fallback) then Ok(fallback)
    else
      match parse(DocumentOf(read))
      case Err(x) => if Defined(fallback) then Ok(fallback) else Err(x)
      case Ok(v) =>
        if v.Array? then Ok(v)
        else if !Defined(fallback) then Err(ExpectedArray)
        else Ok(fallback)
  }

  function ReadJsons(env: Env, self: Dict): Result<Dict, Value>
  {
    if !HasPath(self) then Err(env.invalid)
    else StoreJsons(self, ParsedArray(env.readFile(Get(self, "path"), Utf8), env.jsonParse, Get(self, OtherwiseJsons)))
  }

  // ---------------------------------------------------------------------
  // Properties of the document readers

  /** ENOENT with `fs$otherwise_document` defined succeeds with the fallback as document. */
  lemma DocumentFallsBack(env: Env, self: Dict, encoding: Value)
    requires HasPath(self) && Defined(Get(self, OtherwiseDocument))
    requires env.readFile(Get(self, "path"), encoding).Err?
    requires IsEnoent(env.readFile(Get(self, "path"), encoding).error)
    ensures ReadDocument(env, self, encoding).Ok?
    ensures ReadDocument(env, self, encoding).value["document"] == Get(self, OtherwiseDocument)
  {
  }

  /**
   * A document read fails exactly when `path` is not a string, or the read
   * fails without falling back; the error is then the read's own.
   */
  lemma DocumentErrors(env: Env, self: Dict, encoding: Value, e: Value)
    ensures ReadDocument(env, self, encoding) == Err(e) <==>
      (!HasPath(self) && e == env.invalid) ||
      (HasPath(self) && env.readFile(Get(self, "path"), encoding) == Err(e) &&
       !FallsBack(Err(e), Get(self, OtherwiseDocument)))
  {
  }

  /**
   * After any success, fallback included: the document is the one read or
   * the fallback, `document_encoding` is null, `document_name` the basename
   * and `document_media_type` the MIME type of `path`; no other field changes.
   */
  lemma DocumentFields(env: Env, self: Dict, encoding: Value)
    requires ReadDocument(env, self, encoding).Ok?
    ensures HasPath(self)
    ensures var d := ReadDocument(env, self, encoding).value;
      var path := Get(self, "path").s;
      var read := env.readFile(Str(path), encoding);
      (d["document"] == Get(self, OtherwiseDocument) || read == Ok(d["document"])) &&
      d["document_media_type"] == env.mimeType(path) &&
      d["document_encoding"] == Null &&
      d["document_name"] == Str(env.basename(path)) &&
      (forall k :: k !in {"document", "document_media_type", "document_encoding", "document_name"} ==>
         Get(d, k) == Get(self, k))
  {
  }

  /** The three document readers differ only in the encoding handed to `fs.readFile`. */
  lemma DocumentReadersAgree(env: Env, self: Dict)
    requires forall p: Value, e1: Value, e2: Value :: env.readFile(p, e1) == env.readFile(p, e2)
    ensures ReadText(env, self) == ReadBuffer(env, self) == ReadUtf8(env, self)
  {
    if HasPath(self) {
      var p := Str(Get(self, "path").s);
      assert env.readFile(p, Get(self, "document_encoding")) == env.readFile(p, Undefined) == env.readFile(p, Utf8);
    }
  }

  // ---------------------------------------------------------------------
  // Properties of the parsing readers

  /**
   * The fallback table of `read.json`, `read.yaml` and `read.yamls`: the
   * reader succeeds exactly on ENOENT with a fallback, or on a read whose
   * parse succeeds or has a fallback to fall back to; the value stored is
   * then the parsed value or the fallback, always the parsed value when
   * parsing succeeds, and the fallback only on ENOENT or a parse failure.
   */
  lemma ParsedTable(read: Result<Value, Value>, parse: Value -> Result<Value, Value>, fallback: Value)
    ensures Parsed(read, parse, fallback).Ok? <==>
      FallsBack(read, fallback) || (read.Ok? && (parse(read.value).Ok? || Defined(fallback)))
    ensures Parsed(read, parse, fallback).Ok? ==>
      Parsed(read, parse, fallback).value == fallback ||
      (read.Ok? && parse(read.value) == Parsed(read, parse, fallback))
    ensures Parsed(read, parse, fallback).Ok? && !Defined(fallback) ==>
      read.Ok? && parse(read.value) == Parsed(read, parse, fallback)
    ensures read.Ok? && parse(read.value).Ok? ==> Parsed(read, parse, fallback) == parse(read.value)
  {
  }

  /** A failed parsing reader reports either the read error or the parse error, never anything else. */
  lemma ParsedErrorIsReported(read: Result<Value, Value>, parse: Value -> Result<Value, Value>, fallback: Value)
    requires Parsed(read, parse, fallback).Err?
    ensures read.Err? ==> Parsed(read, parse, fallback).error == read.error
    ensures read.Ok? ==> parse(read.value) == Parsed(read, parse, fallback) && !Defined(fallback)
  {
  }

  /** `read.json` only ever writes `json`: the document fields are never set. */
  lemma ReadJsonWritesOnlyJson(env: Env, self: Dict)
    requires ReadJson(env, self).Ok?
    ensures forall k :: k != "json" ==> Get(ReadJson(env, self).value, k) == Get(self, k)
    ensures ReadJson(env, self).value["json"] ==
      Parsed(env.readFile(Get(self, "path"), Utf8), env.jsonParse, Get(self, OtherwiseJson)).value
  {
  }

  /**
   * `read.yaml` follows the rules of `read.json`: for a string path it is
   * `read.json` with `safeLoad` for `JSON.parse` and a Buffer read.
   */
  lemma ReadYamlIsReadJson(env: Env, self: Dict)
    requires HasPath(self)
    ensures ReadYaml(env, self) ==
      ReadJson(env.(jsonParse := env.yamlLoad, readFile := (p, e) => env.readFile(p, Undefined)), self)
  {
  }

  /** `read.jsons` and `read.yamls` store the same value in `json` and `jsons` on every success. */
  lemma JsonsAgree(env: Env, self: Dict)
    ensures ReadJsons(env, self).Ok? ==>
      ReadJsons(env, self).value["json"] == ReadJsons(env, self).value["jsons"]
    ensures ReadYamls(env, self).Ok? ==>
      ReadYamls(env, self).value["json"] == ReadYamls(env, self).value["jsons"]
    ensures forall k :: k != "json" && k != "jsons" ==>
      (ReadJsons(env, self).Ok? ==> Get(ReadJsons(env, self).value, k) == Get(self, k)) &&
      (ReadYamls(env, self).Ok? ==> Get(ReadYamls(env, self).value, k) == Get(self, k))
  {
  }

  /** `read.jsons` stores an array, or else the fallback. */
  lemma ParsedArrayIsArray(read: Result<Value, Value>, parse: Value -> Result<Value, Value>, fallback: Value)
    requires ParsedArray(read, parse, fallback).Ok?
    ensures ParsedArray(read, parse, fallback).value.Array? ||
            (Defined(fallback) && ParsedArray(read, parse, fallback).value == fallback)
  {
  }

  /**
   * The fallback of `read.jsons` is used only where the source uses it: on
   * ENOENT it is stored whatever parsing would give, and a parsed array is
   * stored as it is even when a fallback is defined.
   */
  lemma ParsedArrayTable(read: Result<Value, Value>, parse: Value -> Result<Value, Value>, fallback: Value, v: Value)
    ensures FallsBack(read, fallback) ==> ParsedArray(read, parse, fallback) == Ok(fallback)
    ensures !FallsBack(read, fallback) && parse(DocumentOf(read)) == Ok(v) && v.Array? ==>
      ParsedArray(read, parse, fallback) == Ok(v)
  {
  }

  /** A parsed value that is not an array is `Invalid("expected an Array")` without a fallback. */
  lemma NotAnArray(read: Result<Value, Value>, parse: Value -> Result<Value, Value>, fallback: Value)
    requires !FallsBack(read, fallback)
    requires parse(DocumentOf(read)).Ok? && !parse(DocumentOf(read)).value.Array?
    ensures ParsedArray(read, parse, fallback) == (if Defined(fallback) then Ok(fallback) else Err(ExpectedArray))
  {
  }

  /**
   * `read.jsons` has no branch for a read error: since `JSON.parse(undefined)`
   * throws, a failed read gives the fallback when one is defined and the
   * parse error otherwise, so the read error itself is never reported.
   */
  lemma ReadErrorBecomesParseError(read: Result<Value, Value>, parse: Value -> Result<Value, Value>, fallback: Value)
    requires read.Err? && parse(Undefined).Err?
    ensures ParsedArray(read, parse, fallback) ==
      (if Defined(fallback) then Ok(fallback) else Err(parse(Undefined).error))
  {
  }

  /** Every error `read.jsons` reports comes from parsing, or is `ExpectedArray`. */
  lemma ParsedArrayErrors(read: Result<Value, Value>, parse: Value -> Result<Value, Value>, fallback: Value)
    requires ParsedArray(read, parse, fallback).Err?
    ensures !Defined(fallback)
    ensures parse(DocumentOf(read)) == ParsedArray(read, parse, fallback) ||
            (parse(DocumentOf(read)).Ok? && ParsedArray(read, parse, fallback) == Err(ExpectedArray))
  {
  }
}
