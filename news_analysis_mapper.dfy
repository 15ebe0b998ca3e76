/**
 * `NewsAnalysisMapper`: the append-only news analysis table. Same contract as the stock table,
 * with the keyword in place of the stock code and no analysis type.
 */
module NewsAnalysisMapper {
  import opened Wrappers
  import opened Recency

  /** The `NewsAnalysisRecord` bean; every field starts out `null`. */
  class NewsAnalysisRecord {
    var id: Option<int>
    var keyword: Option<string>
    var rawResponse: Option<string>
    var requestedAt: Option<int>

    constructor ()
      ensures id == None && keyword == None && rawResponse == None && requestedAt == None
    {
      id, keyword, rawResponse, requestedAt := None, None, None, None;
    }
  }

  datatype Row = Row(id: int, keyword: Option<string>, rawResponse: Option<string>, requestedAt: Option<int>)

  function StampOf(row: Row): Stamp {
    Stamp(row.requestedAt, row.id)
  }

  /** Ids are generated 1, 2, 3, ... in insertion order and never reused. */
  ghost predicate IdsInInsertionOrder(rows: seq<Row>) {
    forall i :: 0 <= i < |rows| ==> rows[i].id == i + 1
  }

  class Mapper {
    var rows: seq<Row>
    var nextId: int

    ghost predicate Valid()
      reads this
    {
      nextId == |rows| + 1 && IdsInInsertionOrder(rows)
    }

    constructor ()
      ensures Valid() && rows == []
    {
      rows, nextId := [], 1;
    }

    /** `insert(record)`: appends a row holding the record's fields and sets `record.id`. */
    method Insert(record: NewsAnalysisRecord)
      requires Valid()
      modifies this, record`id
      ensures Valid()
      ensures record.id == Some(old(nextId)) && record.id.Some?
      ensures rows == old(rows) + [Row(old(nextId), record.keyword, record.rawResponse, record.requestedAt)]
    {
      rows := rows + [Row(nextId, record.keyword, record.rawResponse, record.requestedAt)];
      record.id := Some(nextId);
      nextId := nextId + 1;
    }

    /** `findRecent(limit)`: at most `limit` rows of the table, newest first, and none of the rows
        left out is newer than a row returned. */
    method FindRecent(limit: nat) returns (result: seq<Row>)
      ensures result == Recent(rows, limit, StampOf)
      ensures |result| == if limit < |rows| then limit else |rows|
      ensures multiset(result) <= multiset(rows)
      ensures SortedNewestFirst(result, StampOf)
      ensures forall x, y :: x in multiset(rows) - multiset(result) && y in result
                ==> AtLeastAsNew(StampOf(y), StampOf(x))
    {
      RecentIsTopK(rows, limit, StampOf);
      result := Recent(rows, limit, StampOf);
    }
  }

  /** The mapper test's scenario: a row inserted with a timestamp no older than any stored one
      comes back first from `findRecent(5)`, keyword unchanged. */
  lemma InsertedRowHeadsHistory(rows: seq<Row>, row: Row)
    requires IdsInInsertionOrder(rows + [row])
    requires row.requestedAt.Some?
    requires forall r :: r in rows && r.requestedAt.Some? ==> r.requestedAt.value <= row.requestedAt.value
    ensures |Recent(rows + [row], 5, StampOf)| >= 1
    ensures Recent(rows + [row], 5, StampOf)[0] == row
  {
    var all := rows + [row];
    forall y | y in all && y != row ensures NewerThan(StampOf(row), StampOf(y)) {
      var i :| 0 <= i < |all| && all[i] == y;
      assert all[|rows|] == row;
      assert i != |rows|;
    }
    NewestHeadsRecent(all, row, 5, StampOf);
  }

  /** The mapper test's steps, against the model. */
  method InsertAndFetchRecent(mapper: Mapper, now: int) returns (recent: seq<Row>)
    requires mapper.Valid()
    requires forall r :: r in mapper.rows && r.requestedAt.Some? ==> r.requestedAt.value <= now
    modifies mapper
    ensures mapper.Valid()
    ensures |recent| >= 1 && recent[0].keyword == Some("AI")
  {
    var record := new NewsAnalysisRecord();
    record.keyword := Some("AI");
    record.rawResponse := Some("{\"result\":\"ok\"}");
    record.requestedAt := Some(now);
    mapper.Insert(record);
    assert record.id.Some?;
    InsertedRowHeadsHistory(old(mapper.rows), mapper.rows[|mapper.rows| - 1]);
    assert old(mapper.rows) + [mapper.rows[|mapper.rows| - 1]] == mapper.rows;
    recent := mapper.FindRecent(5);
  }
}
