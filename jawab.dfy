/**
 * The `/jawab` handler: decode the request, pivot the CSV, translate the
 * question, ask the table-question-answering model and build the reply.
 * Every step the handler relies on but cannot see (the CSV reader, the two
 * endpoints and the floating-point SUM) is a field of `Externals`; the
 * handler returns its reply together with the steps it ran, in order.
 */
module Jawab {
  import opened Outcomes
  import opened CsvPivot
  import opened Translation

  /** The decoded request body `{"csv": ..., "ask": ...}`. */
  datatype JawabRequest = JawabRequest(csv: string, ask: string)

  /** The payload sent to the answering model; a `None` table is Go's nil map. */
  datatype Inputs = Inputs(table: Option<Table>, query: string)

  /** The answering model's decoded reply. */
  datatype Response = Response(answer: string, coordinates: seq<seq<int>>, cells: seq<string>, aggregator: string)

  /**
   * What the caller gets: `{"success": false}` alone; `success: true` with
   * the answer text and the model's coordinates, cells and aggregator; or,
   * when the handler panics, no JSON at all (the server drops the connection).
   */
  datatype Reply =
    | Failed
    | Answered(answer: string, coordinates: seq<seq<int>>, cells: seq<string>, aggregator: string)
    | Crashed

  /** A step the handler ran, with the argument it was given. */
  datatype Call = ReadCsv(data: string) | FetchTranslation(text: string) | QueryModel(payload: Inputs)

  /** What the handler relies on but cannot see. */
  datatype Externals = Externals(
    readAll: string -> ReadOutcome,                                    // the CSV reader
    fetchTranslation: string -> Result<seq<TranslationItem>, Error>,  // translation request and decoding
    queryModel: Inputs -> Result<Response, Error>,                    // answering request and decoding
    formatSum: seq<string> -> string)                                 // parse, add and print the SUM cells

  datatype Handled = Handled(reply: Reply, calls: seq<Call>)

  const ResponsePrefix: string := "AI Model Response: \n"

  /** The cells separated by single spaces. */
  function Join(cells: seq<string>): string {
    if |cells| == 0 then ""
    else if |cells| == 1 then cells[0]
    else cells[0] + " " + Join(cells[1..])
  }

  /** How Go prints a `[]string` with `%+v`: the elements, space separated, in brackets. */
  function RenderCells(cells: seq<string>): (text: string)
    ensures |text| >= 2 && text[0] == '[' && text[|text| - 1] == ']'
  {
    "[" + Join(cells) + "]"
  }

  /** The pieces of `s` between spaces; the inverse of `Join` on space-free cells. */
  function SplitSpaces(s: string): (pieces: seq<string>)
    ensures |pieces| >= 1
  {
    if |s| == 0 then [""]
    else if s[0] == ' ' then [""] + SplitSpaces(s[1..])
    else
      var rest := SplitSpaces(s[1..]);
      [[s[0]] + rest[0]] + rest[1..]
  }

  lemma {:induction false} SplitSpaceFree(c: string, tail: string)
    requires ' ' !in c
    ensures SplitSpaces(c + tail)[0] == c + SplitSpaces(tail)[0]
    ensures SplitSpaces(c + tail)[1..] == SplitSpaces(tail)[1..]
  {
    if |c| > 0 {
      assert (c + tail)[1..] == c[1..] + tail;
      SplitSpaceFree(c[1..], tail);
    } else {
      assert c + tail == tail;
    }
  }

  lemma {:induction false} JoinRoundTrip(cells: seq<string>)
    requires |cells| > 0
    requires forall i :: 0 <= i < |cells| ==> ' ' !in cells[i]
    ensures SplitSpaces(Join(cells)) == cells
  {
    if |cells| == 1 {
      SplitSpaceFree(cells[0], "");
      assert cells[0] + "" == cells[0];
    } else {
      var rest := Join(cells[1..]);
      JoinRoundTrip(cells[1..]);
      assert Join(cells) == cells[0] + (" " + rest);
      SplitSpaceFree(cells[0], " " + rest);
      assert (" " + rest)[1..] == rest;
      assert SplitSpaces(" " + rest) == [""] + SplitSpaces(rest);
      var pieces := SplitSpaces(Join(cells));
      assert pieces[0] == cells[0] + "";
      assert pieces[1..] == cells[1..];
      assert pieces == [pieces[0]] + pieces[1..];
      assert cells[0] + "" == cells[0];
      assert cells == [cells[0]] + cells[1..];
    }
  }

  /**
   * The rendering loses nothing when no cell holds a space: splitting the
   * text between the brackets gives the cells back.
   */
  lemma {:induction false} RenderCellsRoundTrip(cells: seq<string>)
    requires |cells| > 0
    requires forall i :: 0 <= i < |cells| ==> ' ' !in cells[i]
    ensures var text := RenderCells(cells);
            SplitSpaces(text[1..|text| - 1]) == cells
  {
    var text := RenderCells(cells);
    assert text[1..|text| - 1] == Join(cells);
    JoinRoundTrip(cells);
  }

  /**
   * The answer text: the SUM of the cells when the aggregator says so,
   * otherwise the fixed prefix followed by the rendered cells.
   */
  function AnswerText(resp: Response, formatSum: seq<string> -> string): (text: string)
    ensures resp.aggregator == "SUM" ==> text == formatSum(resp.cells)
    ensures resp.aggregator != "SUM" ==>
              |text| > |ResponsePrefix| && text[..|ResponsePrefix|] == ResponsePrefix &&
              text[|ResponsePrefix|..] == RenderCells(resp.cells)
  {
    if resp.aggregator == "SUM" then formatSum(resp.cells)
    else ResponsePrefix + RenderCells(resp.cells)
  }

  /** The step `c` reported a failure. */
  predicate Fails(ext: Externals, c: Call) {
    match c
    case ReadCsv(data) => Pivoted(ext.readAll(data)).Failure?
    case FetchTranslation(text) => TranslateText(ext.fetchTranslation(text)).Failure?
    case QueryModel(payload) => ext.queryModel(payload).Failure?
  }

  /**
   * The handler. `decoded` is the outcome of decoding the body into the
   * request pointer: a body whose JSON value is `null` decodes without error
   * into a nil pointer (`None`), and reading its `CSV` field then panics. Otherwise
   * the first failing step ends the request with `Failed` and no later step
   * runs; if all succeed, the reply carries the answer text and the model's
   * coordinates, cells and aggregator unchanged.
   */
  function HandleJawab(decoded: Result<Option<JawabRequest>, Error>, ext: Externals): (out: Handled)
    ensures |out.calls| <= 3
    ensures out.reply.Crashed? <==> decoded == Success(None)
    ensures out.calls == [] <==> decoded.Failure? || decoded == Success(None)
    ensures forall i :: 0 <= i < |out.calls| - 1 ==> !Fails(ext, out.calls[i])
    ensures out.reply.Failed? <==>
              decoded.Failure? || (out.calls != [] && Fails(ext, out.calls[|out.calls| - 1]))
    ensures out.calls != [] ==> out.calls[0] == ReadCsv(decoded.value.value.csv)
    ensures |out.calls| >= 2 ==> out.calls[1] == FetchTranslation(decoded.value.value.ask)
    ensures |out.calls| == 3 ==>
              Pivoted(ext.readAll(decoded.value.value.csv)).Success? &&
              TranslateText(ext.fetchTranslation(decoded.value.value.ask)).Success? &&
              out.calls[2] == QueryModel(Inputs(Pivoted(ext.readAll(decoded.value.value.csv)).value,
                                                TranslateText(ext.fetchTranslation(decoded.value.value.ask)).value))
    ensures out.reply.Answered? ==>
              |out.calls| == 3 &&
              var resp := ext.queryModel(out.calls[2].payload).value;
              out.reply == Answered(AnswerText(resp, ext.formatSum), resp.coordinates, resp.cells, resp.aggregator)
  {
    match decoded
    case Failure(_) => Handled(Failed, [])
    case Success(None) => Handled(Crashed, [])
    case Success(Some(req)) =>
      var table := Pivoted(ext.readAll(req.csv));
      if table.Failure? then Handled(Failed, [ReadCsv(req.csv)])
      else
        var query := TranslateText(ext.fetchTranslation(req.ask));
        if query.Failure? then Handled(Failed, [ReadCsv(req.csv), FetchTranslation(req.ask)])
        else
          var payload := Inputs(table.value, query.value);
          var calls := [ReadCsv(req.csv), FetchTranslation(req.ask), QueryModel(payload)];
          match ext.queryModel(payload)
          case Failure(_) => Handled(Failed, calls)
          case Success(resp) =>
            Handled(Answered(AnswerText(resp, ext.formatSum), resp.coordinates, resp.cells, resp.aggregator), calls)
  }

  const ExampleCsv: string := "name,age\nAlice,30\nBob,25"
  const ExampleAsk: string := "siapa yang berumur 30?"
  const ExampleQuery: string := "who is 30 years old?"

  /** The worked request's CSV, pivoted. */
  lemma {:induction false} ExamplePivot(records: Records)
    requires records == [["name", "age"], ["Alice", "30"], ["Bob", "25"]]
    ensures Pivoted(ReadOk(records)) == Success(Some(map["name" := ["Alice", "Bob"], "age" := ["30", "25"]]))
  {
    DistinctHeadersArePositional(records, 0);
    DistinctHeadersArePositional(records, 1);
    var t := Pivoted(ReadOk(records)).value.value;
    assert records[0][0] == "name" && records[0][1] == "age";
    assert HeaderSet(records[0]) == {"name", "age"};
    assert t["name"] == ["Alice", "Bob"];
    assert t["age"] == ["30", "25"];
    var expected := map["name" := ["Alice", "Bob"], "age" := ["30", "25"]];
    assert t.Keys == expected.Keys;
    assert t == expected;
  }

  /**
   * A worked request: two data rows, a translation, and a model that
   * answers with one cell and no aggregation. The model is consulted only
   * with the pivoted table and the translated question.
   */
  lemma {:induction false} ExampleRequest(ext: Externals)
    requires ext.readAll(ExampleCsv) == ReadOk([["name", "age"], ["Alice", "30"], ["Bob", "25"]])
    requires ext.fetchTranslation(ExampleAsk) == Success([TranslationItem(ExampleQuery)])
    requires ext.queryModel(Inputs(Some(map["name" := ["Alice", "Bob"], "age" := ["30", "25"]]), ExampleQuery))
             == Success(Response("Alice", [[0, 0]], ["Alice"], "NONE"))
    ensures HandleJawab(Success(Some(JawabRequest(ExampleCsv, ExampleAsk))), ext).reply
            == Answered("AI Model Response: \n[Alice]", [[0, 0]], ["Alice"], "NONE")
  {
    var table := map["name" := ["Alice", "Bob"], "age" := ["30", "25"]];
    ExamplePivot(ext.readAll(ExampleCsv).records);
    assert Pivoted(ext.readAll(ExampleCsv)) == Success(Some(table));
    assert TranslateText(ext.fetchTranslation(ExampleAsk)) == Success(ExampleQuery);
    ExampleAnswer(ext.formatSum);
  }

  /** The worked answer's text: no aggregation, so the prefix and the bracketed cell. */
  lemma {:induction false} ExampleAnswer(formatSum: seq<string> -> string)
    ensures AnswerText(Response("Alice", [[0, 0]], ["Alice"], "NONE"), formatSum) == "AI Model Response: \n[Alice]"
  {
    assert RenderCells(["Alice"]) == "[Alice]";
  }
}
