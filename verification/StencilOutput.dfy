/** The environment `wrap` in stencil.js sets up around a compiled template: the
    optional `data` and `end` callbacks, and the `print`, `print.safe` and `print.end`
    functions the generated code calls. Output accumulates in `result`; every non-empty
    piece is also streamed to `data` when there is one. */
module StencilOutput {
  import opened Values
  import opened JsString
  import Html

  /** The completion callback: the caller's, or the default that rethrows any error. */
  datatype EndCallback = EndFn(handle: nat) | Rethrow

  /** The argument shuffling of `template(vars, data, end)`: with a single callback it is
      the completion callback and nothing is streamed; with none, errors are rethrown.
      Callbacks are opaque handles, a missing one is `None`. */
  function Arrange(data: Option<nat>, end: Option<nat>): (r: (Option<nat>, EndCallback))
    ensures r.0.Some? <==> data.Some? && end.Some?
    ensures r.0.Some? ==> r.0 == data
    ensures end.Some? ==> r.1 == EndFn(end.value)
    ensures end.None? && data.Some? ==> r.1 == EndFn(data.value)
    ensures end.None? && data.None? ==> r.1 == Rethrow
  {
    var (data1, end1) := if end.None? then (None, data) else (data, end);
    (data1, if end1.None? then Rethrow else EndFn(end1.value))
  }

  /** The output of one run of a compiled template. */
  class Output {
    /** `result`: everything printed so far. */
    var result: string
    /** The pieces passed to `data`, in order. */
    var streamed: seq<string>
    /** The calls of the completion callback: the error and the result passed. */
    var reports: seq<(Value, string)>
    const data: Option<nat>
    const end: EndCallback

    /** Streaming loses nothing: with a `data` callback the streamed pieces are exactly
        `result`, and each of them is non-empty; without one nothing is streamed. */
    ghost predicate Valid()
      reads this
    {
      (data.None? ==> streamed == []) &&
      (data.Some? ==> Join(streamed) == result) &&
      forall k :: 0 <= k < |streamed| ==> streamed[k] != []
    }

    constructor (data0: Option<nat>, end0: Option<nat>)
      ensures (data, end) == Arrange(data0, end0)
      ensures result == [] && streamed == [] && reports == []
      ensures Valid()
    {
      var (d, e) := Arrange(data0, end0);
      data, end := d, e;
      result, streamed, reports := [], [], [];
    }

    /** Appends `text` to `result` and streams it when it is not empty. */
    method Emit(text: string)
      requires Valid()
      modifies this
      ensures Valid()
      ensures result == old(result) + text
      ensures streamed == old(streamed) + (if data.Some? && text != [] then [text] else [])
      ensures reports == old(reports)
    {
      result := result + text;
      if data.Some? && text != [] {
        JoinAppend(streamed, [text]);
        assert Join([text]) == text + Join([]);
        streamed := streamed + [text];
      }
    }

    /** `print(...)`: the arguments joined with nothing between them. */
    method Print(args: seq<string>)
      requires Valid()
      modifies this
      ensures Valid()
      ensures result == old(result) + Join(args)
      ensures streamed == old(streamed) + (if data.Some? && Join(args) != [] then [Join(args)] else [])
      ensures reports == old(reports)
    {
      var text := Join(args);
      Emit(text);
    }

    /** `print.safe(...)`: the joined arguments, HTML-escaped. */
    method PrintSafe(args: seq<string>)
      requires Valid()
      modifies this
      ensures Valid()
      ensures result == old(result) + Html.SafeText(Join(args))
      ensures streamed == old(streamed) +
        (if data.Some? && Html.SafeText(Join(args)) != [] then [Html.SafeText(Join(args))] else [])
      ensures reports == old(reports)
    {
      var text := Html.SafeText(Join(args));
      Emit(text);
    }

    /** `print.end(err)`: the completion callback receives the error and `result`. */
    method End(err: Value)
      modifies this
      ensures reports == old(reports) + [(err, result)]
      ensures result == old(result) && streamed == old(streamed)
    {
      reports := reports + [(err, result)];
    }
  }
}
