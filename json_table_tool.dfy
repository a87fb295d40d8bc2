/**
 * JsonTableToolViewModel: the tool page's state. Every change of the input
 * text or of the copy format queues the current input; one background
 * worker at a time drains the queue, converting each text with the view
 * model's own copy of the converter and showing each result.
 */
module JsonTableTool {
  import opened JsonValues
  import opened Flattening
  import opened ColumnOrder
  import opened Rendering
  import JsonTableHelper

  /** The copy format setting: tab or comma separated values. */
  datatype CopyFormatItem = TSV | CSV

  /** The enum's ToString(), which is also the CopyFormatMode getter. */
  function FormatName(format: CopyFormatItem): (name: string)
    ensures name == "TSV" <==> format == TSV
    ensures name == "CSV" <==> format == CSV
  {
    match format
    case TSV => "TSV"
    case CSV => "CSV"
  }

  /** Enum.TryParse on the member names: succeeds exactly on a member's name. */
  function TryParseFormat(s: string): (r: Option<CopyFormatItem>)
    ensures r.Some? ==> FormatName(r.value) == s
    ensures r.None? ==> forall format :: FormatName(format) != s
  {
    if s == "TSV" then Some(TSV) else if s == "CSV" then Some(CSV) else None
  }

  /** Every format name parses back to its format. */
  lemma FormatNameRoundTrip(format: CopyFormatItem)
    ensures TryParseFormat(FormatName(format)) == Some(format)
  {
  }

  /** Tab when the current format's name is "TSV", otherwise a comma. */
  function Separator(format: CopyFormatItem): (sep: char)
    ensures sep == '\t' <==> format == TSV
    ensures sep == ',' <==> format == CSV
  {
    if FormatName(format) == FormatName(TSV) then '\t' else ','
  }

  // ---- The view model's copy of the converter ----

  /**
   * ParseJsonArray as written in the view model: only a reader error is
   * caught, and `array.Cast` runs on the result of `as JArray` without a
   * null check, so no value and a token that is not an array raise.
   */
  function ParseJsonArrayAsWritten(p: ParseOutcome): (r: Outcome<Option<seq<seq<Member>>>>)
    ensures r.Throws? <==> p.SerializationError? || p.NoValue? || (p.Parsed? && !p.token.JArray?)
    ensures r.Throws? ==> r.fault == (if p.SerializationError? then UncaughtJsonError else NullSource)
    ensures r == Returns(None) <==>
              p.ReaderError? || (p.Parsed? && p.token.JArray? && !JsonTableHelper.AllObjects(p.token.items))
    ensures r.Returns? && r.value.Some? ==>
              && p.Parsed? && p.token.JArray?
              && |r.value.value| == |p.token.items|
              && forall i :: 0 <= i < |r.value.value| ==> r.value.value[i] == p.token.items[i].members
  {
    match p
    case ReaderError => Returns(None)
    case SerializationError => Throws(UncaughtJsonError)
    case NoValue => Throws(NullSource)
    case Parsed(JArray(items)) =>
      if JsonTableHelper.AllObjects(items) then Returns(Some(JsonTableHelper.MembersOf(items))) else Returns(None)
    case Parsed(_) => Throws(NullSource)
  }

  /**
   * ParseJsonArray with the null check of the helper's copy (`array?.Cast`):
   * no value and a token that is not an array give null. A JsonException
   * other than a reader error is still not caught.
   */
  function ParseJsonArray(p: ParseOutcome): (r: Outcome<Option<seq<seq<Member>>>>)
    ensures r.Throws? <==> p.SerializationError?
    ensures r.Throws? ==> r.fault == UncaughtJsonError
    ensures r.Returns? ==> r.value == JsonTableHelper.ParseJsonArray(p)
  {
    match p
    case SerializationError => Throws(UncaughtJsonError)
    case _ => Returns(JsonTableHelper.ParseJsonArray(p))
  }

  /**
   * The two differ exactly on no value and on a token that is not an array,
   * where the code as written raises and the corrected one gives null.
   */
  lemma ParseAsWrittenVersusCorrected(p: ParseOutcome)
    ensures ParseJsonArrayAsWritten(p) != ParseJsonArray(p) <==> p.NoValue? || (p.Parsed? && !p.token.JArray?)
    ensures ParseJsonArrayAsWritten(p) != ParseJsonArray(p) ==>
              ParseJsonArrayAsWritten(p) == Throws(NullSource) && ParseJsonArray(p) == Returns(None)
  {
  }

  /**
   * A cleared text box (no value), `{}` and `123` raise in the code as
   * written; the helper's copy gives the error result for each.
   */
  lemma EmptyInputRaisesAsWritten()
    ensures ParseJsonArrayAsWritten(NoValue) == Throws(NullSource)
    ensures ParseJsonArrayAsWritten(Parsed(JObject([]))) == Throws(NullSource)
    ensures ParseJsonArrayAsWritten(Parsed(JValue(Num("123")))) == Throws(NullSource)
    ensures JsonTableHelper.Conversion(NoValue, '\t') == Returns(ErrorResult())
    ensures JsonTableHelper.Conversion(Parsed(JObject([])), '\t') == Returns(ErrorResult())
    ensures JsonTableHelper.Conversion(Parsed(JValue(Num("123"))), '\t') == Returns(ErrorResult())
  {
  }

  /**
   * The view model's ConvertFromJson, with the corrected parse: there is no
   * check for an empty column list.
   */
  function ToolConversion(p: ParseOutcome, sep: char): (r: Outcome<ConvertResult>)
    ensures r.Throws? ==> r.fault.UncaughtJsonError? || r.fault.DuplicateKey?
    ensures r.Returns? && r.value.error.Some? ==>
              r.value == ErrorResult() && JsonTableHelper.ParseJsonArray(p).None?
    ensures r.Returns? && r.value.error.None? ==>
              && JsonTableHelper.ParseJsonArray(p).Some?
              && |r.value.data.rows| == |JsonTableHelper.ParseJsonArray(p).value|
  {
    match ParseJsonArray(p)
    case Throws(f) => Throws(f)
    case Returns(None) => Returns(ErrorResult())
    case Returns(Some(objects)) =>
      match FlattenAll(objects)
      case Throws(f) => FlattenAllFault(objects); Throws(f)
      case Returns(records) =>
        JsonTableHelper.FlattenAllLength(objects, records);
        Returns(Converted(records, Columns(records), sep))
  }

  /**
   * The view model's ConvertFromJson as written, on ParseJsonArrayAsWritten:
   * no value and a token that is not an array raise out of the conversion.
   */
  function ToolConversionAsWritten(p: ParseOutcome, sep: char): (r: Outcome<ConvertResult>)
    ensures r == Throws(NullSource) <==> p.NoValue? || (p.Parsed? && !p.token.JArray?)
    ensures r.Returns? && r.value.error.Some? ==>
              r.value == ErrorResult() && (p.ReaderError? || JsonTableHelper.ParseJsonArray(p).None?)
  {
    match ParseJsonArrayAsWritten(p)
    case Throws(f) => Throws(f)
    case Returns(None) => Returns(ErrorResult())
    case Returns(Some(objects)) =>
      match FlattenAll(objects)
      case Throws(f) => FlattenAllFault(objects); Throws(f)
      case Returns(records) => Returns(Converted(records, Columns(records), sep))
  }

  /** The corrected parse raises only on a JsonException that is not a reader error. */
  lemma CorrectedParseRaisesOnlyOnUncaughtJsonError(p: ParseOutcome)
    ensures ParseJsonArray(p).Throws? <==> p.SerializationError?
    ensures ToolConversion(p, ',').Throws? && !p.SerializationError? ==> ToolConversion(p, ',').fault.DuplicateKey?
  {
    if !p.SerializationError? && JsonTableHelper.ParseJsonArray(p).Some?
       && FlattenAll(JsonTableHelper.ParseJsonArray(p).value).Throws? {
      FlattenAllFault(JsonTableHelper.ParseJsonArray(p).value);
    }
  }

  /** `n` line terminators. */
  function Blank(n: nat): (s: string)
    ensures |s| == n * |NewLine|
  {
    if n == 0 then "" else Blank(n - 1) + NewLine
  }

  lemma {:induction false} RowLinesOfEmptyRows(sep: char, rows: seq<seq<Option<string>>>)
    requires forall i :: 0 <= i < |rows| ==> rows[i] == []
    ensures RowLines(sep, rows) == Blank(|rows|)
    decreases |rows|
  {
    if rows != [] {
      RowLinesOfEmptyRows(sep, rows[..|rows| - 1]);
      assert CellTexts(rows[|rows| - 1]) == [];
    }
  }

  /**
   * The two copies of the converter agree except in two ways. On a
   * JsonException that is not a reader error the view model raises and the
   * helper gives the error result. On an array of objects whose flattened
   * records are all empty the helper gives the error result and the view
   * model a table with no columns, one empty row per object and a text of
   * one line terminator per row plus the header's, without an error.
   */
  lemma ToolVersusHelper(p: ParseOutcome, sep: char)
    ensures p.SerializationError? ==>
              ToolConversion(p, sep) == Throws(UncaughtJsonError)
              && JsonTableHelper.Conversion(p, sep) == Returns(ErrorResult())
    ensures !p.SerializationError? && ToolConversion(p, sep) != JsonTableHelper.Conversion(p, sep) ==>
              && JsonTableHelper.ParseJsonArray(p).Some?
              && FlattenAll(JsonTableHelper.ParseJsonArray(p).value).Returns?
              && var n := |JsonTableHelper.ParseJsonArray(p).value|;
                 && JsonTableHelper.Conversion(p, sep) == Returns(ErrorResult())
                 && ToolConversion(p, sep) == Returns(ConvertResult(Table([], seq(n, _ => [])), Blank(n + 1), None))
    ensures !p.SerializationError? && JsonTableHelper.Conversion(p, sep).Returns?
            && JsonTableHelper.Conversion(p, sep).value.error.None? ==>
              ToolConversion(p, sep) == JsonTableHelper.Conversion(p, sep)
  {
    if !p.SerializationError? && JsonTableHelper.ParseJsonArray(p).Some? {
      var objects := JsonTableHelper.ParseJsonArray(p).value;
      if FlattenAll(objects).Returns? {
        var records := FlattenAll(objects).value;
        JsonTableHelper.ConversionOfRecords(p, sep, objects, records);
        if Columns(records) == [] {
          JsonTableHelper.FlattenAllLength(objects, records);
          var rows := Rows(records, []);
          assert rows == seq(|objects|, _ => []);
          RowLinesOfEmptyRows(sep, rows);
          assert Join(sep, []) + NewLine == Blank(1);
          BlankConcat(1, |rows|);
        }
      }
    }
  }

  /**
   * The view model's conversion as written raises on no value and on a token
   * that is not an array, where the helper gives the error result; on every
   * other outcome it is the corrected conversion.
   */
  lemma AsWrittenVersusCorrected(p: ParseOutcome, sep: char)
    ensures p.NoValue? || (p.Parsed? && !p.token.JArray?) ==>
              ToolConversionAsWritten(p, sep) == Throws(NullSource)
              && JsonTableHelper.Conversion(p, sep) == Returns(ErrorResult())
    ensures !(p.NoValue? || (p.Parsed? && !p.token.JArray?)) ==>
              ToolConversionAsWritten(p, sep) == ToolConversion(p, sep)
  {
    ParseAsWrittenVersusCorrected(p);
  }

  lemma {:induction false} BlankConcat(m: nat, n: nat)
    ensures Blank(m) + Blank(n) == Blank(m + n)
    decreases n
  {
    if n > 0 {
      BlankConcat(m, n - 1);
    }
  }

  /** The unit-test case "[ ]": the helper rejects it, the page shows an empty table and no error. */
  lemma EmptyArrayExample(sep: char)
    ensures JsonTableHelper.Conversion(Parsed(JArray([])), sep) == Returns(ErrorResult())
    ensures ToolConversion(Parsed(JArray([])), sep) == Returns(ConvertResult(Table([], []), NewLine, None))
  {
    assert Join(sep, []) + NewLine + RowLines(sep, []) == NewLine;
  }

  // ---- Draining the queue ----

  /** What converting each queued text would give, in queue order. */
  function Conversions(convert: (string, char) -> Outcome<ConvertResult>, sep: char, texts: seq<string>)
    : (outs: seq<Outcome<ConvertResult>>)
    ensures |outs| == |texts|
    ensures forall i {:trigger outs[i]} :: 0 <= i < |texts| ==> outs[i] == convert(texts[i], sep)
  {
    seq(|texts|, i requires 0 <= i < |texts| => convert(texts[i], sep))
  }

  /** What one run of the worker loop produces: the results shown and the fault that ended it, if any. */
  datatype Drained = Drained(results: seq<ConvertResult>, fault: Option<Fault>)

  /**
   * The worker loop over the conversions of the queued texts: each result is
   * shown; a fault ends the loop, the faulting text being already dequeued.
   */
  function Drain(outs: seq<Outcome<ConvertResult>>): (d: Drained)
    ensures |d.results| <= |outs|
    ensures d.fault.Some? ==> |d.results| < |outs|
    decreases |outs|
  {
    if outs == [] then Drained([], None)
    else
      match outs[0]
      case Throws(f) => Drained([], Some(f))
      case Returns(r) =>
        var rest := Drain(outs[1..]);
        Drained([r] + rest.results, rest.fault)
  }

  /** How many texts a run of the loop takes off the queue. */
  function Consumed(d: Drained): nat {
    |d.results| + if d.fault.Some? then 1 else 0
  }

  /**
   * The loop shows the results in queue order; it stops early exactly at the
   * first conversion that raises, and then has shown the results before it
   * and nothing else.
   */
  lemma {:induction false} DrainInOrder(outs: seq<Outcome<ConvertResult>>)
    ensures Consumed(Drain(outs)) <= |outs|
    ensures forall i :: 0 <= i < |Drain(outs).results| ==> outs[i] == Returns(Drain(outs).results[i])
    ensures Drain(outs).fault.None? <==> |Drain(outs).results| == |outs|
    ensures Drain(outs).fault.Some? ==> outs[|Drain(outs).results|] == Throws(Drain(outs).fault.value)
    decreases |outs|
  {
    if outs != [] {
      DrainInOrder(outs[1..]);
      var d := Drain(outs);
      var rest := Drain(outs[1..]);
      if outs[0].Returns? {
        forall i | 0 < i < |d.results| ensures outs[i] == Returns(d.results[i]) {
          assert d.results[i] == rest.results[i - 1];
          assert outs[i] == outs[1..][i - 1];
        }
        if d.fault.Some? {
          assert outs[|d.results|] == outs[1..][|rest.results|];
        }
      }
    }
  }

  /** When no text raises, the last result shown is the conversion of the last text queued. */
  lemma LastQueuedIsShown(convert: (string, char) -> Outcome<ConvertResult>, sep: char, texts: seq<string>)
    requires texts != [] && Drain(Conversions(convert, sep, texts)).fault.None?
    ensures |Drain(Conversions(convert, sep, texts)).results| == |texts|
    ensures convert(texts[|texts| - 1], sep) == Returns(Drain(Conversions(convert, sep, texts)).results[|texts| - 1])
  {
    DrainInOrder(Conversions(convert, sep, texts));
  }

  /** After the first `taken` conversions, `done` holds the results shown, and the rest is still to come. */
  ghost predicate DrainedSoFar(outs: seq<Outcome<ConvertResult>>, taken: nat, done: seq<ConvertResult>) {
    taken <= |outs| && Drain(outs) == Drained(done + Drain(outs[taken..]).results, Drain(outs[taken..]).fault)
  }

  lemma DrainStart(outs: seq<Outcome<ConvertResult>>)
    ensures DrainedSoFar(outs, 0, [])
  {
    assert outs[0..] == outs;
  }

  lemma DrainAdvance(outs: seq<Outcome<ConvertResult>>, taken: nat, done: seq<ConvertResult>)
    requires DrainedSoFar(outs, taken, done) && taken < |outs| && outs[taken].Returns?
    ensures DrainedSoFar(outs, taken + 1, done + [outs[taken].value])
  {
    assert outs[taken..][0] == outs[taken] && outs[taken..][1..] == outs[taken + 1..];
    var rest := Drain(outs[taken + 1..]).results;
    assert done + ([outs[taken].value] + rest) == (done + [outs[taken].value]) + rest;
  }

  lemma DrainStop(outs: seq<Outcome<ConvertResult>>, taken: nat, done: seq<ConvertResult>)
    requires DrainedSoFar(outs, taken, done) && taken < |outs| && outs[taken].Throws?
    ensures Drain(outs) == Drained(done, Some(outs[taken].fault))
  {
    assert outs[taken..][0] == outs[taken];
    assert done + [] == done;
  }

  lemma AppendOne(before: seq<ConvertResult>, done: seq<ConvertResult>, next: ConvertResult)
    ensures (before + done) + [next] == before + (done + [next])
  {
  }

  lemma DrainEnd(outs: seq<Outcome<ConvertResult>>, done: seq<ConvertResult>)
    requires DrainedSoFar(outs, |outs|, done)
    ensures Drain(outs) == Drained(done, None)
  {
    assert outs[|outs|..] == [];
    assert done + [] == done;
  }

  // ---- Whether the tool worked, for the marketing service ----

  /**
   * The condition of the UI callback as written: it marks the tool as having
   * worked on the first result that carries an error.
   */
  function MarksWorkedAsWritten(result: ConvertResult, worked: bool): (marks: bool)
    ensures worked ==> !marks
    ensures marks ==> result.error.Some?
  {
    result.error.Some? && !worked
  }

  /** The condition as its name and the notification intend: the first result without an error. */
  function MarksWorked(result: ConvertResult, worked: bool): (marks: bool)
    ensures worked ==> !marks
    ensures !worked ==> (marks <==> !MarksWorkedAsWritten(result, worked))
  {
    result.error.None? && !worked
  }

  /** Whether any of the results shown so far carried no error. */
  ghost predicate AnySucceeded(results: seq<ConvertResult>) {
    exists i :: 0 <= i < |results| && results[i].error.None?
  }

  /** The flag after showing results one after another, with the given condition. */
  function WorkedAfter(results: seq<ConvertResult>, worked: bool, corrected: bool): bool
    decreases |results|
  {
    if results == [] then worked
    else
      var marks := if corrected then MarksWorked(results[0], worked) else MarksWorkedAsWritten(results[0], worked);
      WorkedAfter(results[1..], worked || marks, corrected)
  }

  /** With the corrected condition the flag records exactly whether some result succeeded. */
  lemma {:induction false} WorkedIffSucceeded(results: seq<ConvertResult>, worked: bool)
    ensures WorkedAfter(results, worked, true) <==> worked || AnySucceeded(results)
    decreases |results|
  {
    if results != [] {
      WorkedIffSucceeded(results[1..], worked || MarksWorked(results[0], worked));
      if AnySucceeded(results[1..]) {
        var i :| 0 <= i < |results[1..]| && results[1..][i].error.None?;
        assert results[i + 1].error.None?;
      }
      if AnySucceeded(results) && results[0].error.Some? {
        var i :| 0 <= i < |results| && results[i].error.None?;
        assert results[1..][i - 1].error.None?;
      }
    }
  }

  /** Whether any of the results shown so far carried an error. */
  ghost predicate AnyFailed(results: seq<ConvertResult>) {
    exists i :: 0 <= i < |results| && results[i].error.Some?
  }

  /** With the condition as written the flag records whether some result failed instead. */
  lemma {:induction false} WorkedIffFailedAsWritten(results: seq<ConvertResult>, worked: bool)
    ensures WorkedAfter(results, worked, false) <==> worked || AnyFailed(results)
    decreases |results|
  {
    if results != [] {
      WorkedIffFailedAsWritten(results[1..], worked || MarksWorkedAsWritten(results[0], worked));
      if AnyFailed(results[1..]) {
        var i :| 0 <= i < |results[1..]| && results[1..][i].error.Some?;
        assert results[i + 1].error.Some?;
      }
      if AnyFailed(results) && results[0].error.None? {
        var i :| 0 <= i < |results| && results[i].error.Some?;
        assert results[1..][i - 1].error.Some?;
      }
    }
  }

  /**
   * As written, converting `[{"foo":123}]` successfully does not mark the
   * tool as having worked, and a text that is not JSON does.
   */
  lemma MarksWorkedAsWrittenExample(success: ConvertResult)
    requires success.error.None?
    ensures !WorkedAfter([success], false, false)
    ensures WorkedAfter([success], false, true)
    ensures WorkedAfter([ErrorResult()], false, false)
    ensures !WorkedAfter([ErrorResult()], false, true)
  {
  }

  // ---- The view model ----

  /** The output text, the error message and the table on the page. */
  datatype Page = Page(text: Option<string>, error: Option<ErrorTag>, data: Option<Table>)

  /** The page before any result: no output, no table and the message for text that is not JSON. */
  const InitialPage: Page := Page(None, Some(JsonError), None)

  /** The page the UI callback leaves after showing one result. */
  function PageOf(result: ConvertResult): Page {
    Page(Some(result.text), result.error, Some(result.data))
  }

  /** The page after showing the given results one after another, starting from `page`. */
  function ShowAll(page: Page, results: seq<ConvertResult>): Page
    decreases |results|
  {
    if results == [] then page else ShowAll(PageOf(results[0]), results[1..])
  }


  /** Whatever the page was before, showing results leaves it showing the last one. */
  lemma {:induction false} ShowAllShowsLast(page: Page, results: seq<ConvertResult>)
    ensures results == [] ==> ShowAll(page, results) == page
    ensures results != [] ==> ShowAll(page, results) == PageOf(results[|results| - 1])
    decreases |results|
  {
    if |results| > 1 {
      ShowAllShowsLast(PageOf(results[0]), results[1..]);
      assert results[1..][|results| - 2] == results[|results| - 1];
    }
  }

  class JsonTableToolViewModel {
    /** JsonConvert.DeserializeObject on a text, from outside this model. */
    const parse: string -> ParseOutcome
    /** ConvertFromJson as a function of the text and the separator. */
    ghost const convert: (string, char) -> Outcome<ConvertResult>
    /** The roaming copy format setting. */
    var copyFormat: CopyFormatItem
    /** _conversionQueue: the texts waiting to be converted, oldest first. */
    var queue: seq<string>
    var conversionInProgress: bool
    var toolSuccessfullyWorked: bool
    var inputText: string
    var outputText: Option<string>
    var errorMessage: Option<ErrorTag>
    /** The table last passed to OnOutputDataUpdated. */
    var outputData: Option<Table>
    /** The calls made to NotifyToolSuccessfullyWorked. */
    ghost var notifications: nat
    /** Every text queued so far, and every result shown so far, in order. */
    ghost var queued: seq<string>
    ghost var shown: seq<ConvertResult>

    /** The queue holds the texts queued most recently and not yet taken, in queue order. */
    ghost predicate QueueValid()
      reads this`queue, this`queued
    {
      |queue| <= |queued| && queue == queued[|queued| - |queue|..]
    }

    /**
     * The page is what showing every result so far leaves (the last one, by
     * ShowAllShowsLast, or the initial page). With the corrected condition
     * MarksWorked, the tool is marked as having worked, with one
     * notification, exactly when some result shown carried no error.
     */
    ghost predicate OutputValid()
      reads this`shown, this`toolSuccessfullyWorked, this`notifications
      reads this`outputText, this`errorMessage, this`outputData
    {
      && (toolSuccessfullyWorked <==> AnySucceeded(shown))
      && notifications == (if toolSuccessfullyWorked then 1 else 0)
      && Page(outputText, errorMessage, outputData) == ShowAll(InitialPage, shown)
    }

    /** `convert` is the conversion of the view model. */
    ghost predicate ConvertsLikeTool() {
      forall text, sep {:trigger ToolConversion(parse(text), sep)} ::
        convert(text, sep) == ToolConversion(parse(text), sep)
    }

    ghost predicate Valid()
      reads this`queue, this`queued
      reads this`shown, this`toolSuccessfullyWorked, this`notifications
      reads this`outputText, this`errorMessage, this`outputData
    {
      ConvertsLikeTool() && QueueValid() && OutputValid()
    }

    /** The page starts with an empty input, no output and the JSON error message. */
    constructor (parse: string -> ParseOutcome, setting: CopyFormatItem)
      ensures Valid()
      ensures this.parse == parse && copyFormat == setting
      ensures queue == [] && !conversionInProgress && !toolSuccessfullyWorked
      ensures inputText == "" && shown == [] && queued == [] && notifications == 0
    {
      this.parse := parse;
      convert := (text: string, sep: char) => ToolConversion(parse(text), sep);
      copyFormat := setting;
      queue := [];
      conversionInProgress := false;
      toolSuccessfullyWorked := false;
      inputText := "";
      outputText := None;
      errorMessage := Some(JsonError);
      outputData := None;
      notifications := 0;
      queued := [];
      shown := [];
    }

    /**
     * TreatQueueAsync up to its first await: when no worker is running, claim
     * the flag and report that a worker must now run; otherwise do nothing.
     */
    method TreatQueueAsync() returns (start: bool)
      modifies this`conversionInProgress
      ensures start == !old(conversionInProgress)
      ensures conversionInProgress
    {
      if conversionInProgress {
        return false;
      }
      conversionInProgress := true;
      start := true;
    }

    /** Queue the current input and make sure a worker will drain the queue. */
    method QueueConversion() returns (start: bool)
      requires QueueValid()
      modifies this`queue, this`queued, this`conversionInProgress
      ensures QueueValid()
      ensures queue == old(queue) + [inputText] && queued == old(queued) + [inputText]
      ensures start == !old(conversionInProgress) && conversionInProgress
    {
      queue := queue + [inputText];
      queued := queued + [inputText];
      start := TreatQueueAsync();
    }

    /** The InputText setter. */
    method SetInputText(value: string) returns (start: bool)
      requires QueueValid()
      modifies this`inputText, this`queue, this`queued, this`conversionInProgress
      ensures QueueValid()
      ensures inputText == value
      ensures queue == old(queue) + [value] && queued == old(queued) + [value]
      ensures start == !old(conversionInProgress) && conversionInProgress
    {
      inputText := value;
      start := QueueConversion();
    }

    /**
     * The CopyFormatMode setter: a value that differs from the current
     * format's name and names a format changes the setting and queues the
     * input again; any other value changes nothing.
     */
    method SetCopyFormatMode(value: string) returns (start: bool)
      requires QueueValid()
      modifies this`copyFormat, this`queue, this`queued, this`conversionInProgress
      ensures QueueValid()
      ensures FormatName(old(copyFormat)) != value && TryParseFormat(value).Some? ==>
                && copyFormat == TryParseFormat(value).value
                && queue == old(queue) + [inputText] && queued == old(queued) + [inputText]
                && start == !old(conversionInProgress) && conversionInProgress
      ensures FormatName(old(copyFormat)) == value || TryParseFormat(value).None? ==>
                && copyFormat == old(copyFormat) && queue == old(queue) && queued == old(queued)
                && conversionInProgress == old(conversionInProgress) && !start
      ensures FormatName(copyFormat) == value || copyFormat == old(copyFormat)
    {
      start := false;
      var parsed := TryParseFormat(value);
      if FormatName(copyFormat) != value && parsed.Some? {
        copyFormat := parsed.value;
        start := QueueConversion();
      }
    }

    /** ConvertFromJson of the view model, with the separator of the current setting. */
    method ConvertFromJson(text: string) returns (r: Outcome<ConvertResult>)
      requires ConvertsLikeTool()
      ensures r == convert(text, Separator(copyFormat))
    {
      // the conversion this method computes, which `convert` gives by ConvertsLikeTool()
      ghost var spec := ToolConversion(parse(text), Separator(copyFormat));
      var parsed := ParseJsonArray(parse(text));
      if parsed.Throws? {
        return Throws(parsed.fault);
      }
      if parsed.value.None? {
        return Returns(ErrorResult());
      }
      var flattened := FlattenEach(parsed.value.value);
      if flattened.Throws? {
        return Throws(flattened.fault);
      }
      var properties := Columns(flattened.value);
      var table, clipboard := FillTable(flattened.value, properties, Separator(copyFormat));
      r := Returns(ConvertResult(table, clipboard, None));
    }

    /** The callback run on the UI thread for one result, with the corrected condition MarksWorked. */
    method Show(result: ConvertResult)
      requires OutputValid()
      modifies this`shown, this`toolSuccessfullyWorked, this`notifications
      modifies this`outputText, this`errorMessage, this`outputData
      ensures OutputValid()
      ensures shown == old(shown) + [result]
      ensures outputText == Some(result.text) && errorMessage == result.error && outputData == Some(result.data)
      ensures toolSuccessfullyWorked == (old(toolSuccessfullyWorked) || MarksWorked(result, old(toolSuccessfullyWorked)))
    {
      outputText := Some(result.text);
      errorMessage := result.error;
      outputData := Some(result.data);
      if MarksWorked(result, toolSuccessfullyWorked) {
        toolSuccessfullyWorked := true;
        notifications := notifications + 1;
      }
      shown := shown + [result];
      ShowAllShowsLast(InitialPage, shown);
      if result.error.None? {
        assert shown[|shown| - 1].error.None?;
      }
      assert forall i :: 0 <= i < |old(shown)| ==> shown[i] == old(shown)[i];
    }

    /**
     * The rest of TreatQueueAsync, on the worker: dequeue and convert until
     * the queue is empty or a conversion raises, showing every result; the
     * finally block then releases the flag.
     */
    method RunWorker() returns (fault: Option<Fault>)
      requires Valid() && conversionInProgress
      modifies this`queue, this`conversionInProgress
      modifies this`shown, this`toolSuccessfullyWorked, this`notifications
      modifies this`outputText, this`errorMessage, this`outputData
      ensures Valid()
      ensures !conversionInProgress
      ensures var d := Drain(Conversions(convert, Separator(copyFormat), old(queue)));
              && shown == old(shown) + d.results
              && fault == d.fault
              && queue == old(queue)[Consumed(d)..]
    {
      fault := DrainQueue(Conversions(convert, Separator(copyFormat), queue), queue);
      conversionInProgress := false;
    }

    /** The while loop of the worker, over the conversions `outs` of the texts `pending` it finds queued. */
    method DrainQueue(ghost outs: seq<Outcome<ConvertResult>>, ghost pending: seq<string>)
      returns (fault: Option<Fault>)
      requires Valid() && queue == pending
      requires outs == Conversions(convert, Separator(copyFormat), pending)
      modifies this`queue
      modifies this`shown, this`toolSuccessfullyWorked, this`notifications
      modifies this`outputText, this`errorMessage, this`outputData
      ensures Valid()
      ensures shown == old(shown) + Drain(outs).results
      ensures fault == Drain(outs).fault
      ensures queue == pending[Consumed(Drain(outs))..]
    {
      ghost var done: seq<ConvertResult> := [];
      ghost var taken := 0;
      ghost var before := shown;
      DrainStart(outs);
      fault := None;
      while queue != []
        invariant Valid()
        invariant taken <= |pending| && queue == pending[taken..]
        invariant shown == before + done && |done| == taken
        invariant DrainedSoFar(outs, taken, done)
        decreases |queue|
      {
        var r := Step(outs, pending, taken);
        if r.Throws? {
          DrainStop(outs, taken, done);
          fault := Some(r.fault);
          taken := taken + 1;
          return;
        }
        DrainAdvance(outs, taken, done);
        AppendOne(before, done, r.value);
        done := done + [r.value];
        taken := taken + 1;
      }
      DrainEnd(outs, done);
    }

    /**
     * One turn of the loop: TryDequeue, ConvertFromJson and, for a result, the
     * UI callback; `outs` are the conversions of the texts queued when the
     * worker started, of which this is the k-th.
     */
    method Step(ghost outs: seq<Outcome<ConvertResult>>, ghost pending: seq<string>, ghost k: nat)
      returns (r: Outcome<ConvertResult>)
      requires Valid() && k < |pending| && queue == pending[k..]
      requires outs == Conversions(convert, Separator(copyFormat), pending)
      modifies this`queue
      modifies this`shown, this`toolSuccessfullyWorked, this`notifications
      modifies this`outputText, this`errorMessage, this`outputData
      ensures Valid()
      ensures r == outs[k] && queue == pending[k + 1..]
      ensures r.Returns? ==> shown == old(shown) + [r.value]
      ensures r.Throws? ==> shown == old(shown)
    {
      var text := Dequeue();
      assert text == pending[k];
      r := ConvertFromJson(text);
      if r.Returns? {
        Show(r.value);
      }
    }

    /** TryDequeue on a queue that is not empty. */
    method Dequeue() returns (text: string)
      requires QueueValid() && queue != []
      modifies this`queue
      ensures QueueValid()
      ensures text == old(queue)[0] && queue == old(queue)[1..]
    {
      text := queue[0];
      assert queue[1..] == queued[|queued| - |queue| + 1..];
      queue := queue[1..];
    }
  }
}
