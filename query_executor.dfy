/**
 * Running one query on a cursor and turning the fetched row tuples into records, one
 * per row, each pairing the column names with the row's values as `dict(zip(...))` does.
 * The cursor is closed on every path out of the query.
 *
 * The cursor is not modelled beyond what the query code observes of it: whether its
 * execute raises, its description, what fetchall returns or raises, and whether its
 * close raises. It counts its close calls and records the queries it was given.
 */
module QueryExecutor {
  import opened Wrappers
  import opened Errors

  /** A value in a fetched row. Null is SQL NULL (Python None); Other stands for any
      further driver type (decimal, timestamp, ...), known only by a tag. */
  datatype Value = Null | Int(i: int) | Text(s: string) | Other(tag: nat)

  type Row = seq<Value>

  /** An entry of `cursor.description`; only its first element, the name, is read. */
  datatype ColumnDescription = ColumnDescription(name: string)

  /** A Python dict from column name to value, as its items in insertion order. */
  type Record = seq<(string, Value)>

  /** What iterating over a missing description raises. */
  const NotIterable: Exception := Exception(TypeError, "'NoneType' object is not iterable")

  function ColumnNames(description: seq<ColumnDescription>): (names: seq<string>)
    ensures |names| == |description|
    ensures forall j :: 0 <= j < |description| ==> names[j] == description[j].name
  {
    seq(|description|, j requires 0 <= j < |description| => description[j].name)
  }

  function Keys(r: Record): (ks: seq<string>)
    ensures |ks| == |r|
    ensures forall i :: 0 <= i < |r| ==> ks[i] == r[i].0
  {
    seq(|r|, i requires 0 <= i < |r| => r[i].0)
  }

  predicate Distinct(s: seq<string>) {
    forall i, j :: 0 <= i < j < |s| ==> s[i] != s[j]
  }

  /** `d[k]`, None when k is not a key. */
  function Lookup(r: Record, k: string): Option<Value>
    decreases |r|
  {
    if |r| == 0 then None
    else if r[0].0 == k then Some(r[0].1)
    else Lookup(r[1..], k)
  }

  /** `d[k] = v`: replaces the value of an existing key in place, else appends the item. */
  function Store(r: Record, k: string, v: Value): Record
    decreases |r|
  {
    if |r| == 0 then [(k, v)]
    else if r[0].0 == k then [(k, v)] + r[1..]
    else [r[0]] + Store(r[1..], k, v)
  }

  function Min(a: nat, b: nat): nat {
    if a <= b then a else b
  }

  /** `dict(zip(names, row))`: pairs are stored left to right, zip stops at the shorter. */
  function RowToRecord(names: seq<string>, row: Row): Record
    decreases |names|
  {
    var n := Min(|names|, |row|);
    if n == 0 then []
    else Store(RowToRecord(names[..n - 1], row[..n - 1]), names[n - 1], row[n - 1])
  }

  /** Each name once, in the order it first occurs. */
  function FirstOccurrences(s: seq<string>): seq<string>
    decreases |s|
  {
    if |s| == 0 then []
    else
      var init := FirstOccurrences(s[..|s| - 1]);
      if s[|s| - 1] in s[..|s| - 1] then init else init + [s[|s| - 1]]
  }

  // ----- the cursor -----

  class Cursor {
    const executeRaises: Option<Exception>
    const description: Option<seq<ColumnDescription>>
    const fetchResult: Result<seq<Row>, Exception>
    const closeRaises: Option<Exception>
    var closeCalls: nat
    ghost var executed: seq<string>

    constructor (executeRaises: Option<Exception>, description: Option<seq<ColumnDescription>>,
                 fetchResult: Result<seq<Row>, Exception>, closeRaises: Option<Exception>)
      ensures this.executeRaises == executeRaises && this.description == description
      ensures this.fetchResult == fetchResult && this.closeRaises == closeRaises
      ensures closeCalls == 0 && executed == []
    {
      this.executeRaises := executeRaises;
      this.description := description;
      this.fetchResult := fetchResult;
      this.closeRaises := closeRaises;
      closeCalls := 0;
      executed := [];
    }

    method Execute(query: string) returns (raised: Option<Exception>)
      modifies this`executed
      ensures executed == old(executed) + [query]
      ensures raised == executeRaises
    {
      executed := executed + [query];
      raised := executeRaises;
    }

    method FetchAll() returns (rows: Result<seq<Row>, Exception>)
      ensures rows == fetchResult
    {
      rows := fetchResult;
    }

    method Close() returns (raised: Option<Exception>)
      modifies this`closeCalls
      ensures closeCalls == old(closeCalls) + 1
      ensures raised == closeRaises
    {
      closeCalls := closeCalls + 1;
      raised := closeRaises;
    }
  }

  /**
   * `execute_query` on the cursor the connection handed out. The cursor is closed exactly
   * once whatever happens; an exception from close replaces the outcome, as a raise in
   * `finally` does. Otherwise the outcome is the first exception raised by execute,
   * reading the description or fetchall, or else one record per fetched row, in order.
   */
  method ExecuteQuery(cursor: Cursor, query: string) returns (r: Result<seq<Record>, Exception>)
    modifies cursor`closeCalls, cursor`executed
    ensures cursor.closeCalls == old(cursor.closeCalls) + 1
    ensures cursor.executed == old(cursor.executed) + [query]
    ensures cursor.closeRaises.Some? ==> r == Failure(cursor.closeRaises.value)
    ensures cursor.closeRaises.None? && cursor.executeRaises.Some? ==> r == Failure(cursor.executeRaises.value)
    ensures cursor.closeRaises.None? && cursor.executeRaises.None? && cursor.description.None? ==>
              r == Failure(NotIterable)
    ensures (cursor.closeRaises.None? && cursor.executeRaises.None? && cursor.description.Some? &&
             cursor.fetchResult.Failure?) ==> r == Failure(cursor.fetchResult.error)
    ensures (cursor.closeRaises.None? && cursor.executeRaises.None? && cursor.description.Some? &&
             cursor.fetchResult.Success?) ==>
              && r.Success?
              && |r.value| == |cursor.fetchResult.value|
              && forall i :: 0 <= i < |r.value| ==>
                   r.value[i] == RowToRecord(ColumnNames(cursor.description.value), cursor.fetchResult.value[i])
  {
    var raised := cursor.Execute(query);
    if raised.Some? {
      r := Failure(raised.value);
    } else if cursor.description.None? {
      r := Failure(NotIterable);
    } else {
      var columnNames := ColumnNames(cursor.description.value);
      var rows := cursor.FetchAll();
      if rows.Failure? {
        r := Failure(rows.error);
      } else {
        var result: seq<Record> := [];
        for i := 0 to |rows.value|
          invariant |result| == i
          invariant forall k :: 0 <= k < i ==> result[k] == RowToRecord(columnNames, rows.value[k])
        {
          result := result + [RowToRecord(columnNames, rows.value[i])];
        }
        r := Success(result);
      }
    }
    var closeRaised := cursor.Close();
    if closeRaised.Some? {
      r := Failure(closeRaised.value);
    }
  }

  // ----- properties of a record -----

  /** Storing an existing key keeps the key order; storing a new key appends it. */
  lemma {:induction false} StoreKeys(r: Record, k: string, v: Value)
    ensures Keys(Store(r, k, v)) == if k in Keys(r) then Keys(r) else Keys(r) + [k]
    decreases |r|
  {
    if |r| > 0 {
      StoreKeys(r[1..], k, v);
      assert Keys(r) == [r[0].0] + Keys(r[1..]);
      var s := Store(r, k, v);
      if r[0].0 == k {
        assert Keys(s) == [k] + Keys(r[1..]);
      } else {
        assert s == [r[0]] + Store(r[1..], k, v);
        assert Keys(s) == [r[0].0] + Keys(Store(r[1..], k, v));
      }
    }
  }

  /** Storing sets the stored key's value and keeps every other key's. */
  lemma {:induction false} StoreLookup(r: Record, k: string, v: Value, k': string)
    ensures Lookup(Store(r, k, v), k') == if k' == k then Some(v) else Lookup(r, k')
    decreases |r|
  {
    if |r| > 0 && r[0].0 != k {
      StoreLookup(r[1..], k, v, k');
      assert Store(r, k, v)[1..] == Store(r[1..], k, v);
    } else if |r| > 0 {
      assert Store(r, k, v)[1..] == r[1..];
    }
  }

  lemma LookupAbsent(r: Record, k: string)
    requires k !in Keys(r)
    ensures Lookup(r, k) == None
    decreases |r|
  {
    if |r| > 0 {
      assert Keys(r[1..]) == Keys(r)[1..];
      LookupAbsent(r[1..], k);
    }
  }

  /**
   * The keys of a record are the column names, each once, in the order of their first
   * occurrence among the first min(|names|, |row|) names.
   */
  lemma {:induction false} RowToRecordKeys(names: seq<string>, row: Row)
    ensures var n := Min(|names|, |row|);
            Keys(RowToRecord(names, row)) == FirstOccurrences(names[..n])
    decreases |names|
  {
    var n := Min(|names|, |row|);
    if n > 0 {
      var prefix := RowToRecord(names[..n - 1], row[..n - 1]);
      RowToRecordKeys(names[..n - 1], row[..n - 1]);
      assert Min(n - 1, n - 1) == n - 1;
      assert names[..n - 1][..n - 1] == names[..n - 1];
      assert names[..n][..n - 1] == names[..n - 1];
      assert Keys(prefix) == FirstOccurrences(names[..n - 1]);
      StoreKeys(prefix, names[n - 1], row[n - 1]);
      FirstOccurrencesMembers(names[..n - 1]);
      assert names[n - 1] in Keys(prefix) <==> names[n - 1] in names[..n - 1];
    }
  }

  /** FirstOccurrences keeps exactly the elements, without repeats. */
  lemma {:induction false} FirstOccurrencesMembers(s: seq<string>)
    ensures forall x :: x in FirstOccurrences(s) <==> x in s
    ensures Distinct(FirstOccurrences(s))
    ensures |FirstOccurrences(s)| <= |s|
    decreases |s|
  {
    if |s| > 0 {
      var init := s[..|s| - 1];
      FirstOccurrencesMembers(init);
      assert s == init + [s[|s| - 1]];
    }
  }

  /** Every record has distinct keys, the column names actually paired. */
  lemma RecordKeysAreColumnNames(names: seq<string>, row: Row)
    ensures var rec := RowToRecord(names, row);
            && Distinct(Keys(rec))
            && |rec| <= Min(|names|, |row|)
            && forall k :: k in Keys(rec) <==> k in names[..Min(|names|, |row|)]
  {
    RowToRecordKeys(names, row);
    FirstOccurrencesMembers(names[..Min(|names|, |row|)]);
  }

  /** A name not among the paired column names has no value in the record. */
  lemma RowToRecordAbsent(names: seq<string>, row: Row, k: string)
    requires k !in names[..Min(|names|, |row|)]
    ensures Lookup(RowToRecord(names, row), k) == None
  {
    RecordKeysAreColumnNames(names, row);
    LookupAbsent(RowToRecord(names, row), k);
  }

  /**
   * The value of a column name is the row's value at the LAST paired position carrying
   * that name: duplicates collapse and the last one wins. Values, nulls included, are
   * carried through unchanged.
   */
  lemma {:induction false} RowToRecordLastWins(names: seq<string>, row: Row, j: nat)
    requires j < Min(|names|, |row|)
    requires forall j' :: j < j' < Min(|names|, |row|) ==> names[j'] != names[j]
    ensures Lookup(RowToRecord(names, row), names[j]) == Some(row[j])
    decreases |names|
  {
    var n := Min(|names|, |row|);
    var prefix := RowToRecord(names[..n - 1], row[..n - 1]);
    StoreLookup(prefix, names[n - 1], row[n - 1], names[j]);
    if j < n - 1 {
      RowToRecordLastWins(names[..n - 1], row[..n - 1], j);
    }
  }

  /** With distinct column names the record is exactly the zip of names and values. */
  lemma {:induction false} DistinctNamesGiveZip(names: seq<string>, row: Row)
    requires Distinct(names[..Min(|names|, |row|)])
    ensures var n := Min(|names|, |row|);
            RowToRecord(names, row) == seq(n, j requires 0 <= j < n => (names[j], row[j]))
    decreases |names|
  {
    var n := Min(|names|, |row|);
    if n > 0 {
      var prefix := RowToRecord(names[..n - 1], row[..n - 1]);
      assert Min(n - 1, n - 1) == n - 1;
      assert names[..n - 1][..n - 1] == names[..n][..n - 1];
      assert names[..n - 1][..Min(n - 1, n - 1)] == names[..n][..n - 1];
      assert Distinct(names[..n][..n - 1]);
      DistinctNamesGiveZip(names[..n - 1], row[..n - 1]);
      assert prefix == seq(n - 1, j requires 0 <= j < n - 1 => (names[j], row[j]));
      assert Keys(prefix) == names[..n - 1];
      assert names[n - 1] !in names[..n - 1];
      StoreAppendsNewKey(prefix, names[n - 1], row[n - 1]);
      assert RowToRecord(names, row) == prefix + [(names[n - 1], row[n - 1])];
    }
  }

  lemma {:induction false} StoreAppendsNewKey(r: Record, k: string, v: Value)
    requires k !in Keys(r)
    ensures Store(r, k, v) == r + [(k, v)]
    decreases |r|
  {
    if |r| > 0 {
      assert Keys(r[1..]) == Keys(r)[1..];
      StoreAppendsNewKey(r[1..], k, v);
      assert [r[0]] + (r[1..] + [(k, v)]) == r + [(k, v)];
    }
  }

  // ----- the mock-cursor scenarios of the unit tests -----

  /** Two distinct column names pair with the two values of a row, in order. */
  lemma TwoColumnRow(a: string, b: string, x: Value, y: Value)
    requires a != b
    ensures RowToRecord([a, b], [x, y]) == [(a, x), (b, y)]
  {
    assert [a, b][..2] == [a, b];
    DistinctNamesGiveZip([a, b], [x, y]);
  }

  /** The rows under ('name', 'age') of the basic test. */
  lemma UsersRowsBecomeRecords()
    ensures RowToRecord(["name", "age"], [Text("John"), Int(25)]) == [("name", Text("John")), ("age", Int(25))]
    ensures RowToRecord(["name", "age"], [Text("Jane"), Int(30)]) == [("name", Text("Jane")), ("age", Int(30))]
  {
    assert "name"[0] != "age"[0];
    TwoColumnRow("name", "age", Text("John"), Int(25));
    TwoColumnRow("name", "age", Text("Jane"), Int(30));
  }

  /** A NULL in a row stays NULL in its record. */
  lemma NullValueIsKept()
    ensures RowToRecord(["name", "age"], [Text("John"), Null]) == [("name", Text("John")), ("age", Null)]
  {
    assert "name"[0] != "age"[0];
    TwoColumnRow("name", "age", Text("John"), Null);
  }

  /** A successful query: the records in fetch order, and the cursor closed once. */
  method SuccessfulQueryScenario() {
    var description := [ColumnDescription("name"), ColumnDescription("age")];
    var rows := [[Text("John"), Int(25)], [Text("Jane"), Int(30)]];
    var cursor := new Cursor(None, Some(description), Success(rows), None);
    var r := ExecuteQuery(cursor, "SELECT name, age FROM users");
    assert ColumnNames(description) == ["name", "age"];
    UsersRowsBecomeRecords();
    assert r.Success? && |r.value| == 2;
    assert r.value[0] == RowToRecord(["name", "age"], rows[0]);
    assert r.value[1] == RowToRecord(["name", "age"], rows[1]);
    var john := [("name", Text("John")), ("age", Int(25))];
    var jane := [("name", Text("Jane")), ("age", Int(30))];
    assert r.value[0] == john && r.value[1] == jane;
    assert r.value == [john, jane];
    assert cursor.closeCalls == 1;
  }

  /** No rows: an empty list, and the cursor closed once. */
  method EmptyResultScenario() {
    var cursor := new Cursor(None, Some([]), Success([]), None);
    var r := ExecuteQuery(cursor, "SELECT * FROM empty_table");
    assert r == Success([]);
    assert cursor.closeCalls == 1;
  }

  /** execute raises: the exception propagates and the cursor is still closed once. */
  method FailingExecuteScenario() {
    var error := Exception(PlainException, "SQL syntax error");
    var cursor := new Cursor(Some(error), None, Success([]), None);
    var r := ExecuteQuery(cursor, "INVALID SQL QUERY");
    assert r == Failure(error);
    assert cursor.closeCalls == 1;
  }
}
