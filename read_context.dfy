/**
 * The readers of `lib/read.js` as they run: each one updates the shared
 * `self` record in place and ends with `done(null, self)` or
 * `done(error)`. The record is a `Context` object whose `fields` the
 * methods reassign; each method is proved to deliver what the matching
 * function of module `Read` describes, and leaves the record alone on
 * every error path.
 */
module ReadContext {
  import opened Js
  import Spec = Read

  /**
   * The method's callback and its new record agree with the reader's
   * function: `None` stands for `done(null, self)`, `Some(e)` for `done(e)`.
   */
  predicate Settles(before: Dict, after: Dict, error: Option<Value>, outcome: Result<Dict, Value>)
  {
    match outcome
    case Ok(d) => error == None && after == d
    case Err(e) => error == Some(e) && after == before
  }

  class Context {
    /** The properties of the `self` object. */
    var fields: Dict

    constructor (fields0: Dict)
      ensures fields == fields0
    {
      fields := fields0;
    }

    /** The body shared by `read`, `read.buffer` and `read.utf8`. */
    method ReadWithEncoding(env: Spec.Env, encoding: Value) returns (error: Option<Value>)
      modifies this
      ensures Settles(old(fields), fields, error, Spec.ReadDocument(env, old(fields), encoding))
    {
      if !Get(fields, "path").Str? {
        return Some(env.invalid);
      }
      var path := Get(fields, "path").s;
      var read := env.readFile(Str(path), encoding);
      var document := Spec.DocumentOf(read);
      if read.Err? && Spec.IsEnoent(read.error) && Spec.Defined(Get(fields, Spec.OtherwiseDocument)) {
        document := Get(fields, Spec.OtherwiseDocument);
        read := Ok(document);
      }
      if read.Err? {
        return Some(read.error);
      }
      fields := fields["document" := document];
      fields := fields["document_media_type" := env.mimeType(path)];
      fields := fields["document_encoding" := Null];
      fields := fields["document_name" := Str(env.basename(path))];
      return None;
    }

    /** `read`. */
    method Read(env: Spec.Env) returns (error: Option<Value>)
      modifies this
      ensures Settles(old(fields), fields, error, Spec.ReadText(env, old(fields)))
    {
      error := ReadWithEncoding(env, Get(fields, "document_encoding"));
    }

    /** `read.buffer`. */
    method ReadBuffer(env: Spec.Env) returns (error: Option<Value>)
      modifies this
      ensures Settles(old(fields), fields, error, Spec.ReadBuffer(env, old(fields)))
    {
      error := ReadWithEncoding(env, Undefined);
    }

    /** `read.utf8`. */
    method ReadUtf8(env: Spec.Env) returns (error: Option<Value>)
      modifies this
      ensures Settles(old(fields), fields, error, Spec.ReadUtf8(env, old(fields)))
    {
      error := ReadWithEncoding(env, Spec.Utf8);
    }

    /** `read.json`. */
    method ReadJson(env: Spec.Env) returns (error: Option<Value>)
      modifies this
      ensures Settles(old(fields), fields, error, Spec.ReadJson(env, old(fields)))
    {
      var read := env.readFile(Get(fields, "path"), Spec.Utf8);
      var fallback := Get(fields, Spec.OtherwiseJson);
      if read.Err? && Spec.IsEnoent(read.error) && Spec.Defined(fallback) {
        fields := fields["json" := fallback];
        return None;
      }
      if read.Err? {
        return Some(read.error);
      }
      var parsed := env.jsonParse(read.value);
      if parsed.Ok? {
        fields := fields["json" := parsed.value];
      } else {
        if !Spec.Defined(fallback) {
          return Some(parsed.error);
        }
        fields := fields["json" := fallback];
      }
      return None;
    }

    /** `read.jsons`. */
    method ReadJsons(env: Spec.Env) returns (error: Option<Value>)
      modifies this
      ensures Settles(old(fields), fields, error, Spec.ReadJsons(env, old(fields)))
    {
      if !Get(fields, "path").Str? {
        return Some(env.invalid);
      }
      var read := env.readFile(Get(fields, "path"), Spec.Utf8);
      var fallback := Get(fields, Spec.OtherwiseJsons);
      if read.Err? && Spec.IsEnoent(read.error) && Spec.Defined(fallback) {
        fields := fields["jsons" := fallback];
        fields := fields["json" := Get(fields, "jsons")];
        return None;
      }
      var parsed := env.jsonParse(Spec.DocumentOf(read));
      if parsed.Err? {
        if !Spec.Defined(fallback) {
          return Some(parsed.error);
        }
        fields := fields["jsons" := fallback];
        fields := fields["json" := Get(fields, "jsons")];
        return None;
      }
      var jsons := parsed.value;
      if jsons.Array? {
        fields := fields["jsons" := jsons];
        fields := fields["json" := Get(fields, "jsons")];
      } else if !Spec.Defined(fallback) {
        return Some(Spec.ExpectedArray);
      } else {
        fields := fields["jsons" := fallback];
        fields := fields["json" := Get(fields, "jsons")];
      }
      return None;
    }

    /** `read.yaml`. */
    method ReadYaml(env: Spec.Env) returns (error: Option<Value>)
      modifies this
      ensures Settles(old(fields), fields, error, Spec.ReadYaml(env, old(fields)))
    {
      if !Get(fields, "path").Str? {
        return Some(env.invalid);
      }
      var read := env.readFile(Get(fields, "path"), Undefined);
      var fallback := Get(fields, Spec.OtherwiseJson);
      if read.Err? && Spec.IsEnoent(read.error) && Spec.Defined(fallback) {
        fields := fields["json" := fallback];
        return None;
      }
      if read.Err? {
        return Some(read.error);
      }
      var loaded := env.yamlLoad(read.value);
      if loaded.Ok? {
        fields := fields["json" := loaded.value];
        return None;
      }
      if !Spec.Defined(fallback) {
        return Some(loaded.error);
      }
      fields := fields["json" := fallback];
      return None;
    }

    /** `read.yamls`. */
    method ReadYamls(env: Spec.Env) returns (error: Option<Value>)
      modifies this
      ensures Settles(old(fields), fields, error, Spec.ReadYamls(env, old(fields)))
    {
      if !Get(fields, "path").Str? {
        return Some(env.invalid);
      }
      var read := env.readFile(Get(fields, "path"), Undefined);
      var fallback := Get(fields, Spec.OtherwiseJsons);
      if read.Err? && Spec.IsEnoent(read.error) && Spec.Defined(fallback) {
        fields := fields["jsons" := fallback];
        fields := fields["json" := Get(fields, "jsons")];
        return None;
      }
      if read.Err? {
        return Some(read.error);
      }
      var loaded := env.yamlLoadAll(read.value);
      if loaded.Ok? {
        fields := fields["jsons" := loaded.value];
        fields := fields["json" := Get(fields, "jsons")];
        return None;
      }
      if !Spec.Defined(fallback) {
        return Some(loaded.error);
      }
      fields := fields["jsons" := fallback];
      fields := fields["json" := Get(fields, "jsons")];
      return None;
    }
  }
}
