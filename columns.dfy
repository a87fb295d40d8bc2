/**
 * The column list of the table: the names of all flattened properties, each
 * once, in the order they are first met scanning the records in array order
 * and each record's properties in their own order.
 */
module ColumnOrder {
  import opened JsonValues

  /** `flattened.SelectMany(o => o.Properties()).Select(p => p.Name)`. */
  function AllKeys(records: seq<seq<Field>>): (ks: seq<string>)
    ensures forall k :: k in ks <==> exists i :: 0 <= i < |records| && k in Keys(records[i])
  {
    if records == [] then []
    else
      var rest := AllKeys(records[1..]);
      assert forall i :: 0 < i < |records| ==> records[i] == records[1..][i - 1];
      Keys(records[0]) + rest
  }

  /** `Distinct()`: every name once, kept at its first occurrence. */
  function Distinct(s: seq<string>): (d: seq<string>)
    ensures NoDuplicates(d)
    ensures forall x :: x in d <==> x in s
  {
    if s == [] then []
    else
      var init := Distinct(s[..|s| - 1]);
      var last := s[|s| - 1];
      assert s == s[..|s| - 1] + [last];
      if last in init then init else init + [last]
  }

  /** The position where a name first occurs. */
  function FirstIndex(s: seq<string>, x: string): (i: nat)
    requires x in s
    ensures i < |s| && s[i] == x && x !in s[..i]
  {
    if s[0] == x then 0
    else
      var i := 1 + FirstIndex(s[1..], x);
      assert s[..i] == [s[0]] + s[1..][..i - 1];
      i
  }

  lemma FirstIndexUnique(s: seq<string>, x: string, k: nat)
    requires k < |s| && s[k] == x && x !in s[..k]
    ensures FirstIndex(s, x) == k
  {
  }

  /** Distinct lists the names in the order of their first occurrences. */
  lemma {:induction false} DistinctKeepsFirstSeenOrder(s: seq<string>)
    ensures forall i, j :: 0 <= i < j < |Distinct(s)| ==>
              FirstIndex(s, Distinct(s)[i]) < FirstIndex(s, Distinct(s)[j])
    decreases |s|
  {
    if s != [] {
      var t := s[..|s| - 1];
      var last := s[|s| - 1];
      assert s == t + [last];
      DistinctKeepsFirstSeenOrder(t);
      var d := Distinct(s);
      // a name of t keeps its first position in s
      forall x | x in t ensures FirstIndex(s, x) == FirstIndex(t, x) {
        var k := FirstIndex(t, x);
        assert s[..k] == t[..k];
        FirstIndexUnique(s, x, k);
      }
      if last !in t {
        assert s[..|s| - 1] == t;
        FirstIndexUnique(s, last, |s| - 1);
      }
      forall i, j | 0 <= i < j < |d| ensures FirstIndex(s, d[i]) < FirstIndex(s, d[j]) {
        if j < |Distinct(t)| {
          assert d[i] == Distinct(t)[i] && d[j] == Distinct(t)[j];
        } else {
          assert d[i] == Distinct(t)[i] && d[j] == last;
        }
      }
    }
  }

  /** The columns of the table, `properties` in the source. */
  function Columns(records: seq<seq<Field>>): seq<string> {
    Distinct(AllKeys(records))
  }

  /** The columns have no duplicates and hold every name of every record and nothing else. */
  lemma ColumnsAreTheDistinctKeys(records: seq<seq<Field>>)
    ensures NoDuplicates(Columns(records))
    ensures forall i, k :: 0 <= i < |records| && k in Keys(records[i]) ==> k in Columns(records)
    ensures forall c :: c in Columns(records) ==> exists i :: 0 <= i < |records| && c in Keys(records[i])
  {
  }

  /** The columns follow the order in which the names are first met. */
  lemma ColumnsFirstSeenOrder(records: seq<seq<Field>>)
    ensures forall i, j :: 0 <= i < j < |Columns(records)| ==>
              FirstIndex(AllKeys(records), Columns(records)[i]) < FirstIndex(AllKeys(records), Columns(records)[j])
  {
    DistinctKeepsFirstSeenOrder(AllKeys(records));
  }

  /** There are no columns exactly when every record is empty. */
  lemma NoColumnsIffEmptyRecords(records: seq<seq<Field>>)
    ensures Columns(records) == [] <==> forall i :: 0 <= i < |records| ==> records[i] == []
  {
    forall i | 0 <= i < |records| && records[i] != [] ensures records[i][0].key in Columns(records) {
      assert records[i][0].key in Keys(records[i]);
    }
    if Columns(records) != [] {
      assert Columns(records)[0] in AllKeys(records);
    }
  }
}
