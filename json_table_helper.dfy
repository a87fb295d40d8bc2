/**
 * JsonTableHelper: the copy of the converter used to decide whether a text
 * can be offered to the JSON-to-table tool (IsValid) and by the unit tests.
 * The text parser is foreign; the conversion starts from its outcome.
 */
module JsonTableHelper {
  import opened JsonValues
  import opened Flattening
  import opened ColumnOrder
  import opened Rendering

  predicate AllObjects(items: seq<Json>) {
    forall i :: 0 <= i < |items| ==> items[i].JObject?
  }

  /** `array.Cast<JObject>().ToArray()` when every element is an object. */
  function MembersOf(items: seq<Json>): (objects: seq<seq<Member>>)
    requires AllObjects(items)
    ensures |objects| == |items|
    ensures forall i :: 0 <= i < |items| ==> objects[i] == items[i].members
  {
    if items == [] then [] else [items[0].members] + MembersOf(items[1..])
  }

  /**
   * ParseJsonArray: the objects of a top-level array; null (None) when the
   * parser raised any JsonException or returned nothing, when the token is
   * not an array (`as JArray`), or when an element is not an object (the
   * InvalidCastException of Cast, caught).
   */
  function ParseJsonArray(p: ParseOutcome): (r: Option<seq<seq<Member>>>)
    ensures r.Some? <==> p.Parsed? && p.token.JArray? && AllObjects(p.token.items)
    ensures r.Some? ==> |r.value| == |p.token.items|
    ensures r.Some? ==> forall i :: 0 <= i < |r.value| ==> r.value[i] == p.token.items[i].members
  {
    match p
    case Parsed(JArray(items)) => if AllObjects(items) then Some(MembersOf(items)) else None
    case _ => None
  }

  /** What ConvertFromJson returns, or the exception it raises. */
  function Conversion(p: ParseOutcome, sep: char): (r: Outcome<ConvertResult>)
    ensures r.Throws? ==> ParseJsonArray(p).Some? && r.fault.DuplicateKey?
    ensures r.Returns? && r.value.error.Some? ==> r.value == ErrorResult()
    ensures r.Returns? && r.value.error.None? ==>
              && ParseJsonArray(p).Some?
              && r.value.data.columns != []
              && |r.value.data.rows| == |ParseJsonArray(p).value|
  {
    match ParseJsonArray(p)
    case None => Returns(ErrorResult())
    case Some(objects) =>
      match FlattenAll(objects)
      case Throws(f) => FlattenAllFault(objects); Throws(f)
      case Returns(flattened) =>
        FlattenAllLength(objects, flattened);
        var properties := Columns(flattened);
        if |properties| == 0 then Returns(ErrorResult())
        else Returns(Converted(flattened, properties, sep))
  }

  /** ConvertFromJson(text, separator), from the parser's outcome on `text ?? ""`. */
  method ConvertFromJson(p: ParseOutcome, sep: char) returns (r: Outcome<ConvertResult>)
    ensures r == Conversion(p, sep)
  {
    var parsed := ParseJsonArray(p);
    if parsed.None? {
      return Returns(ErrorResult());
    }
    var flattened := FlattenEach(parsed.value);
    if flattened.Throws? {
      return Throws(flattened.fault);
    }
    var properties := Columns(flattened.value);
    if |properties| == 0 {
      return Returns(ErrorResult());
    }
    var table, text := FillTable(flattened.value, properties, sep);
    r := Returns(ConvertResult(table, text, None));
  }

  /** IsValid: the conversion with ',' produced no error (an exception propagates). */
  function IsValid(p: ParseOutcome): (r: Outcome<bool>)
    ensures r.Throws? ==> r.fault.DuplicateKey?
    ensures r == Returns(true) ==> p.Parsed? && p.token.JArray? && p.token.items != [] && AllObjects(p.token.items)
    ensures r == Returns(false) <==> Conversion(p, ',') == Returns(ErrorResult())
  {
    match Conversion(p, ',')
    case Throws(f) => Throws(f)
    case Returns(result) => Returns(result.error == None)
  }

  // ---- What the conversion promises ----

  /** The conversion of an array of objects whose flattening raised nothing. */
  lemma ConversionOfRecords(p: ParseOutcome, sep: char, objects: seq<seq<Member>>, records: seq<seq<Field>>)
    requires ParseJsonArray(p) == Some(objects) && FlattenAll(objects) == Returns(records)
    ensures Conversion(p, sep) ==
              if Columns(records) == [] then Returns(ErrorResult())
              else Returns(Converted(records, Columns(records), sep))
  {
  }

  /**
   * A failed conversion produces nothing partial, and it fails exactly when
   * the parser's outcome is not an array of objects or no flattened record
   * has a property.
   */
  lemma ConversionFailure(p: ParseOutcome, sep: char)
    requires Conversion(p, sep).Returns?
    ensures Conversion(p, sep).value.error.Some? ==> Conversion(p, sep).value == ErrorResult()
    ensures Conversion(p, sep).value.error.Some? <==>
              || ParseJsonArray(p).None?
              || (forall i :: 0 <= i < |FlattenAll(ParseJsonArray(p).value).value| ==>
                    FlattenAll(ParseJsonArray(p).value).value[i] == [])
  {
    if ParseJsonArray(p).Some? {
      var objects := ParseJsonArray(p).value;
      assert FlattenAll(objects).Returns?;
      var records := FlattenAll(objects).value;
      ConversionOfRecords(p, sep, objects, records);
      NoColumnsIffEmptyRecords(records);
    }
  }

  /** Each way of not being an array of objects gives the error result. */
  lemma NotAnArrayOfObjects(p: ParseOutcome, sep: char)
    requires || !p.Parsed?
             || !p.token.JArray?
             || exists i :: 0 <= i < |p.token.items| && !p.token.items[i].JObject?
    ensures Conversion(p, sep) == Returns(ErrorResult())
  {
  }

  lemma {:induction false} FlattenAllLength(objects: seq<seq<Member>>, records: seq<seq<Field>>)
    requires FlattenAll(objects) == Returns(records)
    ensures |records| == |objects|
    ensures forall i :: 0 <= i < |objects| ==> Flatten(objects[i]) == Returns(records[i])
    decreases objects
  {
    if objects != [] {
      FlattenAllLength(objects[1..], records[1..]);
    }
  }

  /**
   * A successful conversion is a table with one row per array element, in
   * order, one cell per column, distinct columns naming every property of
   * every flattened element, and a cell empty exactly where its record
   * lacks the column; the text is the table's header and row lines.
   */
  lemma ConvertedShape(objects: seq<seq<Member>>, records: seq<seq<Field>>, sep: char)
    requires FlattenAll(objects) == Returns(records)
    ensures |Converted(records, Columns(records), sep).data.rows| == |objects| == |records|
    ensures forall i :: 0 <= i < |objects| ==> Flatten(objects[i]) == Returns(records[i])
    ensures NoDuplicates(Converted(records, Columns(records), sep).data.columns)
    ensures forall i, k :: 0 <= i < |records| && k in Keys(records[i]) ==>
              k in Converted(records, Columns(records), sep).data.columns
    ensures forall i :: 0 <= i < |records| ==>
              |Converted(records, Columns(records), sep).data.rows[i]| == |Columns(records)|
    ensures forall i, j :: 0 <= i < |records| && 0 <= j < |Columns(records)| ==>
              (Converted(records, Columns(records), sep).data.rows[i][j].None? <==> Columns(records)[j] !in Keys(records[i]))
  {
    var columns := Columns(records);
    FlattenAllLength(objects, records);
    ColumnsAreTheDistinctKeys(records);
    forall i, j | 0 <= i < |records| && 0 <= j < |columns|
      ensures Rows(records, columns)[i][j].None? <==> columns[j] !in Keys(records[i])
    {
      TableShape(records, columns, i, j);
    }
  }

  /** A conversion without error is the table of the flattened records, with at least one column. */
  lemma ConversionSuccess(p: ParseOutcome, sep: char, r: ConvertResult)
    requires Conversion(p, sep) == Returns(r) && r.error.None?
    ensures ParseJsonArray(p).Some? && FlattenAll(ParseJsonArray(p).value).Returns?
    ensures var records := FlattenAll(ParseJsonArray(p).value).value;
            Columns(records) != [] && r == Converted(records, Columns(records), sep)
  {
  }

  /** The separator decides only the text: validity and the table do not depend on it. */
  lemma SeparatorOnlyAffectsText(p: ParseOutcome, a: char, b: char)
    ensures Conversion(p, a).Throws? <==> Conversion(p, b).Throws?
    ensures Conversion(p, a).Returns? ==>
              Conversion(p, a).value.data == Conversion(p, b).value.data
              && Conversion(p, a).value.error == Conversion(p, b).value.error
  {
  }

  /**
   * IsValid holds exactly when the parser produced an array of objects,
   * flattening them raised nothing, and at least one flattened record has
   * a property. It raises exactly when flattening raises.
   */
  lemma IsValidExactly(p: ParseOutcome)
    ensures IsValid(p).Throws? <==>
              ParseJsonArray(p).Some? && FlattenAll(ParseJsonArray(p).value).Throws?
    ensures IsValid(p) == Returns(true) <==>
              && ParseJsonArray(p).Some?
              && FlattenAll(ParseJsonArray(p).value).Returns?
              && exists i :: 0 <= i < |FlattenAll(ParseJsonArray(p).value).value|
                             && FlattenAll(ParseJsonArray(p).value).value[i] != []
  {
    if ParseJsonArray(p).Some? && FlattenAll(ParseJsonArray(p).value).Returns? {
      var objects := ParseJsonArray(p).value;
      var records := FlattenAll(objects).value;
      ConversionOfRecords(p, ',', objects, records);
      NoColumnsIffEmptyRecords(records);
    }
  }

  lemma {:induction false} FlattenAllWithoutCollisions(objects: seq<seq<Member>>)
    requires forall i :: 0 <= i < |objects| ==> NoDuplicates(Keys(Leaves(objects[i])))
    ensures FlattenAll(objects).Returns?
    ensures |FlattenAll(objects).value| == |objects|
    ensures forall i :: 0 <= i < |objects| ==> FlattenAll(objects).value[i] == Leaves(objects[i])
    decreases objects
  {
    if objects != [] {
      assert [] + Leaves(objects[0]) == Leaves(objects[0]);
      FlattenWithoutCollisions([], objects[0]);
      FlattenAllWithoutCollisions(objects[1..]);
    }
  }

  /**
   * For an array of objects in which no two leaves of one object share a flat
   * name, IsValid holds exactly when some object has a leaf that is not
   * inside an array: `[]`, `[{}]` and `[{"a":[1]}]` are rejected.
   */
  lemma ValidWithoutCollisions(items: seq<Json>)
    requires AllObjects(items)
    requires forall i :: 0 <= i < |items| ==> NoDuplicates(Keys(Leaves(items[i].members)))
    ensures IsValid(Parsed(JArray(items))) ==
              Returns(exists i :: 0 <= i < |items| && Leaves(items[i].members) != [])
  {
    var p := Parsed(JArray(items));
    var objects := MembersOf(items);
    FlattenAllWithoutCollisions(objects);
    var records := FlattenAll(objects).value;
    IsValidOfRecords(p, records);
    assert forall i :: 0 <= i < |items| ==> records[i] == Leaves(items[i].members);
  }

  /** IsValid on an array of objects that flattened to `records`. */
  lemma IsValidOfRecords(p: ParseOutcome, records: seq<seq<Field>>)
    requires ParseJsonArray(p).Some? && FlattenAll(ParseJsonArray(p).value) == Returns(records)
    ensures IsValid(p) == Returns(exists i :: 0 <= i < |records| && records[i] != [])
  {
    IsValidExactly(p);
  }

  // ---- The unit tests ----

  /**
   * The IsValid cases of the unit tests whose text is not an array: null, ""
   * and " " give no value; "\"foo\"", "123", "{ }" and "{ \"foo\": 123 }"
   * give a string, a number and objects.
   */
  lemma IsValidRejectsNonArrays()
    ensures IsValid(NoValue) == Returns(false)
    ensures IsValid(Parsed(JValue(Str("foo")))) == Returns(false)
    ensures IsValid(Parsed(JValue(Num("123")))) == Returns(false)
    ensures IsValid(Parsed(JObject([]))) == Returns(false)
    ensures IsValid(Parsed(JObject([Member("foo", JValue(Num("123")))]))) == Returns(false)
  {
  }

  /** "[ ]", "[{ }]" and "[{ }, { }]" are arrays of objects without a property. */
  lemma IsValidRejectsNoColumns()
    ensures IsValid(Parsed(JArray([]))) == Returns(false)
    ensures IsValid(Parsed(JArray([JObject([])]))) == Returns(false)
    ensures IsValid(Parsed(JArray([JObject([]), JObject([])]))) == Returns(false)
  {
    ValidWithoutCollisions([]);
    ValidWithoutCollisions([JObject([])]);
    ValidWithoutCollisions([JObject([]), JObject([])]);
  }

  /** "[{ \"foo\": 123 }]" is valid. */
  lemma IsValidAcceptsOneObject()
    ensures IsValid(Parsed(JArray([JObject([Member("foo", JValue(Num("123")))])]))) == Returns(true)
  {
    var foo := [Member("foo", JValue(Num("123")))];
    assert Leaves(foo) == [Field("foo", Num("123"))];
    assert Keys(Leaves(foo)) == ["foo"];
    ValidWithoutCollisions([JObject(foo)]);
    assert Leaves([JObject(foo)][0].members) != [];
  }

  /** "[{ \"foo\": 123 }, { \"bar\": 456 }]" is valid. */
  lemma IsValidAcceptsTwoObjects()
    ensures IsValid(Parsed(JArray([JObject([Member("foo", JValue(Num("123")))]),
                                   JObject([Member("bar", JValue(Num("456")))])]))) == Returns(true)
  {
    var foo := [Member("foo", JValue(Num("123")))];
    var bar := [Member("bar", JValue(Num("456")))];
    var items := [JObject(foo), JObject(bar)];
    assert Leaves(foo) == [Field("foo", Num("123"))];
    assert Leaves(bar) == [Field("bar", Num("456"))];
    assert Keys(Leaves(foo)) == ["foo"];
    assert Keys(Leaves(bar)) == ["bar"];
    assert items[0].members == foo && items[1].members == bar;
    ValidWithoutCollisions(items);
    assert Leaves(items[0].members) != [];
  }

  lemma ExampleLeaves()
    ensures Leaves([Member("x", JValue(Num("1")))]) == [Field("x", Num("1"))]
    ensures Leaves([Member("x", JValue(Num("2"))), Member("y", JValue(Num("3")))])
            == [Field("x", Num("2")), Field("y", Num("3"))]
  {
    var o2 := [Member("x", JValue(Num("2"))), Member("y", JValue(Num("3")))];
    assert o2[1..] == [Member("y", JValue(Num("3")))];
  }

  lemma ExampleRecords()
    ensures FlattenAll([[Member("x", JValue(Num("1")))], [Member("x", JValue(Num("2"))), Member("y", JValue(Num("3")))]])
            == Returns([[Field("x", Num("1"))], [Field("x", Num("2")), Field("y", Num("3"))]])
  {
    var objects := [[Member("x", JValue(Num("1")))], [Member("x", JValue(Num("2"))), Member("y", JValue(Num("3")))]];
    var records := [[Field("x", Num("1"))], [Field("x", Num("2")), Field("y", Num("3"))]];
    ExampleLeaves();
    assert Leaves(objects[0]) == records[0];
    assert Leaves(objects[1]) == records[1];
    assert Keys(records[1]) == ["x", "y"];
    FlattenAllWithoutCollisions(objects);
    assert FlattenAll(objects).value == records;
  }

  lemma ExampleColumns()
    ensures Columns([[Field("x", Num("1"))], [Field("x", Num("2")), Field("y", Num("3"))]]) == ["x", "y"]
  {
    var records := [[Field("x", Num("1"))], [Field("x", Num("2")), Field("y", Num("3"))]];
    assert Keys(records[1]) == ["x", "y"];
    assert AllKeys(records[1..]) == ["x", "y"];
    assert AllKeys(records) == ["x", "x", "y"];
    assert Distinct(["x"]) == ["x"];
    assert ["x", "x", "y"][..2] == ["x", "x"];
    assert ["x", "x"][..1] == ["x"];
    assert Distinct(["x", "x"]) == ["x"];
  }

  lemma ExampleRows()
    ensures Rows([[Field("x", Num("1"))], [Field("x", Num("2")), Field("y", Num("3"))]], ["x", "y"])
            == [[Some("1"), None], [Some("2"), Some("3")]]
  {
    var r1 := [Field("x", Num("1"))];
    var r2 := [Field("x", Num("2")), Field("y", Num("3"))];
    assert Get(r1, "x") == Some(Num("1")) && Get(r1, "y") == None;
    assert r2[1..] == [Field("y", Num("3"))];
    assert Get(r2, "x") == Some(Num("2")) && Get(r2, "y") == Some(Num("3"));
    assert Row(r1, ["x", "y"]) == [Some("1"), None];
    assert Row(r2, ["x", "y"]) == [Some("2"), Some("3")];
  }

  lemma ExampleText()
    ensures Text(',', Table(["x", "y"], [[Some("1"), None], [Some("2"), Some("3")]]))
            == "x,y" + NewLine + "1," + NewLine + "2,3" + NewLine
  {
    var rows := [[Some("1"), None], [Some("2"), Some("3")]];
    assert Join(',', ["x", "y"]) == "x,y";
    assert CellTexts(rows[0]) == ["1", ""];
    assert CellTexts(rows[1]) == ["2", "3"];
    assert Join(',', ["1", ""]) == "1,";
    assert Join(',', ["2", "3"]) == "2,3";
    assert rows[..1] == [rows[0]];
    assert RowLines(',', rows[..1]) == "1," + NewLine;
  }

  /** `[{"x":1},{"x":2,"y":3}]` with ',' gives the columns x, y and the lines "x,y", "1,", "2,3". */
  lemma RenderingExample()
    ensures Conversion(Parsed(JArray([JObject([Member("x", JValue(Num("1")))]),
                                      JObject([Member("x", JValue(Num("2"))), Member("y", JValue(Num("3")))])])), ',')
            == Returns(ConvertResult(Table(["x", "y"], [[Some("1"), None], [Some("2"), Some("3")]]),
                                     "x,y" + NewLine + "1," + NewLine + "2,3" + NewLine, None))
  {
    var p := Parsed(JArray([JObject([Member("x", JValue(Num("1")))]),
                            JObject([Member("x", JValue(Num("2"))), Member("y", JValue(Num("3")))])]));
    assert AllObjects(p.token.items);
    var objects := [[Member("x", JValue(Num("1")))], [Member("x", JValue(Num("2"))), Member("y", JValue(Num("3")))]];
    assert MembersOf(p.token.items) == objects;
    assert ParseJsonArray(p) == Some([[Member("x", JValue(Num("1")))], [Member("x", JValue(Num("2"))), Member("y", JValue(Num("3")))]]);
    ExampleRecords();
    ExampleColumns();
    ExampleRows();
    ExampleText();
    ConversionOfRecords(p, ',', [[Member("x", JValue(Num("1")))], [Member("x", JValue(Num("2"))), Member("y", JValue(Num("3")))]],
                        [[Field("x", Num("1"))], [Field("x", Num("2")), Field("y", Num("3"))]]);
  }
}
