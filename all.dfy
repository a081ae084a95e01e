/**
 * `all(f)` of `lib/all.js`: run the operation `f` once for each entry
 * of `self.paths`, one after the other, and collect one record per path
 * in `results`, a failure of `f` becoming a record of its own rather than
 * a failure of the batch. The operation is a function from the record it
 * is given to the record it fulfils with or the error it rejects with.
 */
module All {
  import opened Js

  type Operation = Dict -> Result<Dict, Value>

  /**
   * The `TypeError` that `self.paths.map(...)` throws on something that is
   * not an array: reading a property of `undefined` or `null` fails first,
   * while any other value has no `map` method to call.
   */
  function PathsNotArray(paths: Value): Value
  {
    if paths.Undefined? then Error("TypeError", "", "Cannot read properties of undefined (reading 'map')")
    else if paths.Null? then Error("TypeError", "", "Cannot read properties of null (reading 'map')")
    else Error("TypeError", "", "self.paths.map is not a function")
  }

  /**
   * One operation of the series: `f` on the record with `path` set, then
   * `{path, json, document, document_media_type}` from its result, or
   * `{path, error}` when it rejects.
   */
  function Record(f: Operation, self: Dict, path: Value): Value
  {
    match f(self["path" := path])
    case Ok(sd) =>
      Object(map["path" := path, "json" := Get(sd, "json"), "document" := Get(sd, "document"),
                 "document_media_type" := Get(sd, "document_media_type")])
    case Err(e) => Object(map["path" := path, "error" := e])
  }

  /** The results of `_.promise.ops.series` over the operations, in order. */
  function Records(f: Operation, self: Dict, paths: seq<Value>): (r: seq<Value>)
    ensures |r| == |paths|
    ensures forall i :: 0 <= i < |paths| ==> r[i] == Record(f, self, paths[i])
  {
    if paths == [] then [] else [Record(f, self, paths[0])] + Records(f, self, paths[1..])
  }

  /**
   * `_doit`: the caller's record is cloned, and the clone, with `results`
   * added, is what the call fulfils with.
   */
  function All(f: Operation, self: Dict): Result<Dict, Value>
  {
    var paths := Get(self, "paths");
    if !paths.Array? then Err(PathsNotArray(paths))
    else Ok(self["results" := Array(Records(f, self, paths.items))])
  }

  // ---------------------------------------------------------------------
  // Properties

  /**
   * The batch rejects only when `paths` is not an array; otherwise there
   * is exactly one record per path, in input order, each naming its path,
   * and no other field of the caller's record changes.
   */
  lemma OneRecordPerPath(f: Operation, self: Dict)
    ensures All(f, self).Ok? <==> Get(self, "paths").Array?
    ensures All(f, self).Err? ==> All(f, self).error == PathsNotArray(Get(self, "paths"))
    ensures All(f, self).Ok? ==>
      var paths := Get(self, "paths").items;
      var results := All(f, self).value["results"];
      results.Array? && |results.items| == |paths| &&
      (forall i :: 0 <= i < |paths| ==> results.items[i].Object? && results.items[i].fields["path"] == paths[i]) &&
      forall k :: k != "results" ==> Get(All(f, self).value, k) == Get(self, k)
  {
  }

  /** A successful operation contributes its `json`, `document` and `document_media_type`, and no `error`. */
  lemma SuccessRecord(f: Operation, self: Dict, path: Value)
    requires f(self["path" := path]).Ok?
    ensures var r := Record(f, self, path); var sd := f(self["path" := path]).value;
      r.Object? && r.fields.Keys == {"path", "json", "document", "document_media_type"} &&
      r.fields["json"] == Get(sd, "json") && r.fields["document"] == Get(sd, "document") &&
      r.fields["document_media_type"] == Get(sd, "document_media_type")
  {
  }

  /** A failing operation contributes `{path, error}` with its own error. */
  lemma FailureRecord(f: Operation, self: Dict, path: Value)
    requires f(self["path" := path]).Err?
    ensures Record(f, self, path) ==
      Object(map["path" := path, "error" := f(self["path" := path]).error])
  {
  }

  /**
   * Failures are isolated: a record depends only on what `f` does with
   * that path, so changing `f` on other paths leaves it as it was.
   */
  lemma FailuresIsolated(f: Operation, g: Operation, self: Dict, i: nat)
    requires Get(self, "paths").Array? && i < |Get(self, "paths").items|
    requires f(self["path" := Get(self, "paths").items[i]]) == g(self["path" := Get(self, "paths").items[i]])
    ensures All(f, self).value["results"].items[i] == All(g, self).value["results"].items[i]
  {
  }

  /**
   * Each invocation of `f` sees the caller's record with `path` set to that
   * entry: two operations that agree on those records give the same batch.
   */
  lemma OnlyPathVaries(f: Operation, g: Operation, self: Dict)
    requires Get(self, "paths").Array?
    requires forall p :: p in Get(self, "paths").items ==> f(self["path" := p]) == g(self["path" := p])
    ensures All(f, self) == All(g, self)
  {
    var paths := Get(self, "paths").items;
    assert Records(f, self, paths) == Records(g, self, paths) by {
      forall i | 0 <= i < |paths|
        ensures Records(f, self, paths)[i] == Records(g, self, paths)[i]
      {
        assert paths[i] in paths;
      }
    }
  }
}
