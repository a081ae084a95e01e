/**
 * `map(f)` and `map_json(f)` of `lib/map.js`: transforms of
 * `self.outputs`, element by element, that keep its length. The one
 * assignment to `self.outputs` is modelled by returning the new record;
 * a throwing `f` is an `Err` result of `f`.
 */
module Map {
  import opened Js

  /** The `AssertionError` that `assert.ok(false, message)` throws. */
  function AssertionFailed(message: string): Value
  {
    Error("AssertionError", "ERR_ASSERTION", message)
  }

  function OutputsMessage(caller: string): string
  {
    caller + ": expected self.outputs to be Array of Dictionary"
  }

  function FunctionMessage(caller: string): string
  {
    caller + ": expected self.f to be a Function"
  }

  /** The two guards both entry points start with, worded with the method name. */
  function Guard(caller: string, self: Dict): Option<Value>
  {
    if !IsArrayOfDictionary(Get(self, "outputs")) then
      Some(AssertionFailed(OutputsMessage(caller)))
    else if !Get(self, "f").Function? then
      Some(AssertionFailed(FunctionMessage(caller)))
    else None
  }

  /**
   * `items.map(f)`: every element through `f`, in order; the first throw
   * ends the map and rejects with that error.
   */
  function MapAll(f: Value -> Result<Value, Value>, items: seq<Value>): (r: Result<seq<Value>, Value>)
    ensures r.Ok? <==> forall i :: 0 <= i < |items| ==> f(items[i]).Ok?
    ensures r.Ok? ==> |r.value| == |items| && forall i :: 0 <= i < |items| ==> r.value[i] == f(items[i]).value
    ensures r.Err? ==> exists i :: 0 <= i < |items| && f(items[i]) == Err(r.error) &&
                                   forall j :: 0 <= j < i ==> f(items[j]).Ok?
  {
    if items == [] then Ok([])
    else
      match f(items[0])
      case Err(e) => Err(e)
      case Ok(v) =>
        match MapAll(f, items[1..])
        case Err(e) =>
          ghost var i :| 0 <= i < |items[1..]| && f(items[1..][i]) == Err(e) &&
                         forall j :: 0 <= j < i ==> f(items[1..][j]).Ok?;
          assert f(items[i + 1]) == Err(e);
          Err(e)
        case Ok(vs) => Ok([v] + vs)
  }

  /** `map(f)`, with its guard on `self.f` as written. */
  function MapOutputs(f: Value -> Result<Value, Value>, self: Dict): Result<Dict, Value>
  {
    match Guard("map", self)
    case Some(e) => Err(e)
    case None =>
      match MapAll(f, Get(self, "outputs").items)
      case Ok(vs) => Ok(self["outputs" := Array(vs)])
      case Err(e) => Err(e)
  }

  /**
   * The callback of `map_json` on one output: no `document`, the output
   * itself; otherwise a shallow clone with `json = f(clone)`, or
   * `undefined` when `f` throws (the clone with `error` set is not returned).
   */
  function MapJsonOne(f: Value -> Result<Value, Value>, output: Value): Value
  {
    if !output.Object? || !Truthy(Get(output.fields, "document")) then output
    else
      var clone := Object(output.fields);
      match f(clone)
      case Ok(j) => Object(clone.fields["json" := j])
      case Err(_) => Undefined
  }

  function MapJsonAll(f: Value -> Result<Value, Value>, items: seq<Value>): (r: seq<Value>)
    ensures |r| == |items|
    ensures forall i :: 0 <= i < |items| ==> r[i] == MapJsonOne(f, items[i])
  {
    if items == [] then [] else [MapJsonOne(f, items[0])] + MapJsonAll(f, items[1..])
  }

  /** `map_json(f)`, with its guard on `self.f` as written. */
  function MapJson(f: Value -> Result<Value, Value>, self: Dict): Result<Dict, Value>
  {
    match Guard("map.json", self)
    case Some(e) => Err(e)
    case None => Ok(self["outputs" := Array(MapJsonAll(f, Get(self, "outputs").items))])
  }

  // ---------------------------------------------------------------------
  // Properties

  /**
   * `map` succeeds exactly when the guards pass and `f` returns on every
   * output; then element i is `f(outputs[i])` and nothing but `outputs` changes.
   */
  lemma MapOutputsResult(f: Value -> Result<Value, Value>, self: Dict)
    ensures MapOutputs(f, self).Ok? <==>
      Guard("map", self).None? &&
      forall i :: 0 <= i < |Get(self, "outputs").items| ==> f(Get(self, "outputs").items[i]).Ok?
    ensures MapOutputs(f, self).Ok? ==>
      var items := Get(self, "outputs").items;
      var out := MapOutputs(f, self).value["outputs"];
      out.Array? && |out.items| == |items| &&
      (forall i :: 0 <= i < |items| ==> out.items[i] == f(items[i]).value) &&
      forall k :: k != "outputs" ==> Get(MapOutputs(f, self).value, k) == Get(self, k)
  {
  }

  /** A failing guard rejects with its assertion, whatever `f` is. */
  lemma GuardRejects(f: Value -> Result<Value, Value>, self: Dict)
    requires Guard("map", self).Some?
    ensures MapOutputs(f, self) == Err(Guard("map", self).value)
    ensures MapJson(f, self) == Err(Guard("map.json", self).value)
  {
  }

  /** An output without a (truthy) document comes back as it was, and `f` plays no part. */
  lemma NoDocumentUnchanged(f: Value -> Result<Value, Value>, g: Value -> Result<Value, Value>, output: Value)
    requires output.Object? && !Truthy(Get(output.fields, "document"))
    ensures MapJsonOne(f, output) == output == MapJsonOne(g, output)
  {
  }

  /**
   * An output with a document becomes a copy that differs only in `json`,
   * which is `f`'s result; the original record is left as it was.
   */
  lemma DocumentGetsJson(f: Value -> Result<Value, Value>, output: Value)
    requires output.Object? && Truthy(Get(output.fields, "document")) && f(output).Ok?
    ensures MapJsonOne(f, output).Object?
    ensures MapJsonOne(f, output).fields["json"] == f(output).value
    ensures forall k :: k != "json" ==> Get(MapJsonOne(f, output).fields, k) == Get(output.fields, k)
  {
  }

  /** When `f` throws, the callback returns nothing, so that position becomes `undefined`. */
  lemma ThrowLeavesUndefined(f: Value -> Result<Value, Value>, output: Value)
    requires output.Object? && Truthy(Get(output.fields, "document")) && f(output).Err?
    ensures MapJsonOne(f, output) == Undefined
  {
  }

  /** `map_json` never rejects once the guards pass, and keeps the length of `outputs`. */
  lemma MapJsonKeepsLength(f: Value -> Result<Value, Value>, self: Dict)
    ensures MapJson(f, self).Ok? <==> Guard("map.json", self).None?
    ensures MapJson(f, self).Ok? ==>
      var out := MapJson(f, self).value["outputs"];
      out.Array? && |out.items| == |Get(self, "outputs").items| &&
      forall k :: k != "outputs" ==> Get(MapJson(f, self).value, k) == Get(self, k)
  {
  }

  // ---------------------------------------------------------------------
  // Finding: the guard tests `self.f`, not the argument `f`

  /**
   * A record with proper `outputs` and no `f` field, such as
   * `{outputs: [{}]}`, is rejected by the guard on `self.f` whatever the
   * argument is: `fs.map(output => output)` rejects, and so would
   * `map_json(f)` called inside the module, the usage its comment shows.
   */
  lemma GuardOnSelfF(f: Value -> Result<Value, Value>, self: Dict)
    requires IsArrayOfDictionary(Get(self, "outputs")) && "f" !in self
    ensures MapOutputs(f, self) == Err(AssertionFailed(FunctionMessage("map")))
    ensures MapJson(f, self) == Err(AssertionFailed(FunctionMessage("map.json")))
  {
  }

  /**
   * The guard as evidently intended: the argument `f`, which the model
   * always has as a function, is what gets checked, so only `outputs` is.
   */
  function IntendedGuard(caller: string, self: Dict): Option<Value>
  {
    if !IsArrayOfDictionary(Get(self, "outputs")) then
      Some(AssertionFailed(OutputsMessage(caller)))
    else None
  }

  function IntendedMapOutputs(f: Value -> Result<Value, Value>, self: Dict): Result<Dict, Value>
  {
    match IntendedGuard("map", self)
    case Some(e) => Err(e)
    case None =>
      match MapAll(f, Get(self, "outputs").items)
      case Ok(vs) => Ok(self["outputs" := Array(vs)])
      case Err(e) => Err(e)
  }

  /**
   * With the intended guard, `map(f)` succeeds on any record whose `outputs`
   * are dictionaries and on which `f` returns, whether or not `self.f` is set.
   */
  lemma IntendedMapOutputsAccepts(f: Value -> Result<Value, Value>, self: Dict)
    ensures IntendedMapOutputs(f, self).Ok? <==>
      IsArrayOfDictionary(Get(self, "outputs")) &&
      forall i :: 0 <= i < |Get(self, "outputs").items| ==> f(Get(self, "outputs").items[i]).Ok?
    ensures Get(self, "f").Function? ==> IntendedMapOutputs(f, self) == MapOutputs(f, self)
    ensures IntendedMapOutputs(f, self).Ok? ==>
      var items := Get(self, "outputs").items;
      var out := IntendedMapOutputs(f, self).value["outputs"];
      out.Array? && |out.items| == |items| &&
      forall i :: 0 <= i < |items| ==> out.items[i] == f(items[i]).value
  {
  }

  function IntendedMapJson(f: Value -> Result<Value, Value>, self: Dict): Result<Dict, Value>
  {
    match IntendedGuard("map.json", self)
    case Some(e) => Err(e)
    case None => Ok(self["outputs" := Array(MapJsonAll(f, Get(self, "outputs").items))])
  }

  /** With the intended guard, `map_json` works on any record whose `outputs` are dictionaries. */
  lemma IntendedMapJsonAccepts(f: Value -> Result<Value, Value>, self: Dict)
    ensures IntendedMapJson(f, self).Ok? <==> IsArrayOfDictionary(Get(self, "outputs"))
    ensures Get(self, "f").Function? ==> IntendedMapJson(f, self) == MapJson(f, self)
    ensures IntendedMapJson(f, self).Ok? ==>
      var items := Get(self, "outputs").items;
      var out := IntendedMapJson(f, self).value["outputs"];
      out.Array? && |out.items| == |items| &&
      forall i :: 0 <= i < |items| ==> out.items[i] == MapJsonOne(f, items[i])
  {
  }
}
