/** The generic CRUD routes of routes/entityRoutes.js: each known entity
    name maps to a CSV file whose rows are read in full, changed and written
    back. The files are the `tables` field of `EntityTables`; reading and
    writing a file (`readCsv`, `writeCsv`) is not part of this model, so a
    file is a list of rows kept as state. */
module EntityTables {
  import opened Wrappers
  import opened Js
  import opened Dict

  /** A row: an object with its fields in order. */
  type Row = Dict<JsVal>

  /** `entityFiles`: the known entity names and their files. */
  const EntityFiles: map<string, string> := map[
    "employees" := "employees.csv",
    "roles" := "roles.csv",
    "competencies" := "competencies.csv",
    "employee_roles" := "employee_roles.csv",
    "role_competencies" := "role_competencies.csv",
    "employee_competencies" := "employee_competencies.csv",
    "assessments" := "assessments.csv",
    "employee_assessment_results" := "employee_assessment_results.csv",
    "qualifications" := "qualifications.csv"
  ]

  /** `String(row.id) === id`; a row without an id prints as "undefined". */
  predicate RowHasId(row: Row, id: string) {
    ToStr(match Get(row, "id") case Some(v) => v case None => Undefined) == id
  }

  /** The first row whose id, printed, is the path id; None where the source
      gets -1. */
  function FindIndex(rows: seq<Row>, id: string): (r: Option<nat>)
    ensures r.Some? ==> r.value < |rows| && RowHasId(rows[r.value], id)
    ensures r.Some? ==> forall j :: 0 <= j < r.value ==> !RowHasId(rows[j], id)
    ensures r.None? <==> forall j :: 0 <= j < |rows| ==> !RowHasId(rows[j], id)
  {
    if rows == [] then None
    else if RowHasId(rows[0], id) then Some(0)
    else
      var rest := FindIndex(rows[1..], id);
      assert forall j :: 1 <= j < |rows| ==> rows[1..][j - 1] == rows[j];
      if rest.Some? then Some(rest.value + 1) else None
  }

  /** `{...row, ...body}`: the row's fields in their places, each
      overridden by the body's value, then the body's new fields. */
  function Merge(row: Row, body: Row): (r: Row)
    ensures DistinctKeys(row) ==> DistinctKeys(r)
    decreases |body|
  {
    if body == [] then row
    else Put(Merge(row, body[..|body| - 1]), body[|body| - 1].0, body[|body| - 1].1)
  }

  /** After the merge a field has the body's value when the body has it and
      the row's value otherwise; no field is lost. */
  lemma {:induction false} MergeGet(row: Row, body: Row, k: string)
    requires DistinctKeys(body)
    ensures Get(Merge(row, body), k) == if HasKey(body, k) then Get(body, k) else Get(row, k)
  {
    if body != [] {
      var init := body[..|body| - 1];
      var last := body[|body| - 1];
      assert forall i :: 0 <= i < |init| ==> init[i] == body[i];
      MergeGet(row, init, k);
      if k == last.0 {
        assert body[|body| - 1] == (k, last.1);
      } else {
        GetDropLast(body, k);
      }
    }
  }

  /** The rows whose printed id is not the path id, in order. */
  function Without(rows: seq<Row>, id: string): (r: seq<Row>)
    ensures forall row :: row in r <==> row in rows && !RowHasId(row, id)
    ensures |r| <= |rows|
  {
    if rows == [] then []
    else
      var rest := Without(rows[1..], id);
      assert forall row :: row in rows <==> row == rows[0] || row in rows[1..];
      if RowHasId(rows[0], id) then rest else [rows[0]] + rest
  }

  /** Deleting an id no row has leaves the rows as they were. */
  lemma {:induction false} WithoutAbsent(rows: seq<Row>, id: string)
    requires forall j :: 0 <= j < |rows| ==> !RowHasId(rows[j], id)
    ensures Without(rows, id) == rows
  {
    if rows != [] {
      WithoutAbsent(rows[1..], id);
    }
  }

  /** The rows that stay keep their original order: the result is the
      input with the matching rows taken out. */
  lemma {:induction false} WithoutKeepsOrder(rows: seq<Row>, id: string, i: nat)
    requires i <= |rows|
    ensures Without(rows, id) == Without(rows[..i], id) + Without(rows[i..], id)
  {
    if i > 0 {
      WithoutKeepsOrder(rows[1..], id, i - 1);
      assert rows[1..][..i - 1] == rows[..i][1..];
      assert rows[1..][i - 1..] == rows[i..];
    }
  }

  class EntityTables {
    /** The rows of each file, by file name. */
    var tables: map<string, seq<Row>>

    /** Every entity's file exists. */
    predicate Valid()
      reads this
    {
      forall e :: e in EntityFiles ==> EntityFiles[e] in tables
    }

    constructor()
      ensures Valid()
      ensures forall e :: e in EntityFiles ==> tables[EntityFiles[e]] == []
    {
      tables := map f | f in EntityFiles.Values :: [];
    }

    /** `GET /:entity`: all rows, or 404 for an unknown entity. A GET of
        `role_competencies` never reaches this handler, because the route
        registered before it (routes/entityRoutes.js:20) answers it from the
        spreadsheet; that entity's table is read only by the other verbs. */
    function GetAll(entity: string): (r: Result<seq<Row>, HttpError>)
      requires Valid()
      reads this
      ensures r.Err? <==> entity !in EntityFiles
      ensures r.Err? ==> r.error.status == 404
      ensures r.Ok? ==> r.value == tables[EntityFiles[entity]]
    {
      if entity !in EntityFiles then Err(HttpError(404, "Entity not found"))
      else Ok(tables[EntityFiles[entity]])
    }

    /** `POST /:entity`: the body becomes the last row. */
    method Post(entity: string, body: Row) returns (r: Result<bool, HttpError>)
      requires Valid()
      modifies this
      ensures Valid()
      ensures r.Err? <==> entity !in EntityFiles
      ensures r.Err? ==> r.error.status == 404 && tables == old(tables)
      ensures r.Ok? ==> tables == old(tables)[EntityFiles[entity] := old(tables)[EntityFiles[entity]] + [body]]
    {
      if entity !in EntityFiles {
        return Err(HttpError(404, "Entity not found"));
      }
      var file := EntityFiles[entity];
      var data := tables[file];
      data := data + [body];
      tables := tables[file := data];
      r := Ok(true);
    }

    /** `PUT /:entity/:id`: the first row whose id prints as `id` gets the
        body's fields; 404 for an unknown entity or id, with nothing written. */
    method Put(entity: string, id: string, body: Row) returns (r: Result<bool, HttpError>)
      requires Valid()
      modifies this
      ensures Valid()
      ensures r.Err? ==> r.error.status == 404 && tables == old(tables)
      ensures r.Ok? <==> entity in EntityFiles && FindIndex(old(tables)[EntityFiles[entity]], id).Some?
      ensures r.Ok? ==>
        var file := EntityFiles[entity];
        var rows := old(tables)[file];
        var k := FindIndex(rows, id).value;
        tables == old(tables)[file := rows[k := Merge(rows[k], body)]]
    {
      if entity !in EntityFiles {
        return Err(HttpError(404, "Entity not found"));
      }
      var file := EntityFiles[entity];
      var data := tables[file];
      var idx := FindIndex(data, id);
      if idx.None? {
        return Err(HttpError(404, "Record not found"));
      }
      data := data[idx.value := Merge(data[idx.value], body)];
      tables := tables[file := data];
      r := Ok(true);
    }

    /** `DELETE /:entity/:id`: every row whose id prints as `id` is dropped;
        success even when none does. */
    method Delete(entity: string, id: string) returns (r: Result<bool, HttpError>)
      requires Valid()
      modifies this
      ensures Valid()
      ensures r.Err? <==> entity !in EntityFiles
      ensures r.Err? ==> r.error.status == 404 && tables == old(tables)
      ensures r.Ok? ==>
        var file := EntityFiles[entity];
        tables == old(tables)[file := Without(old(tables)[file], id)]
    {
      if entity !in EntityFiles {
        return Err(HttpError(404, "Entity not found"));
      }
      var file := EntityFiles[entity];
      var data := tables[file];
      data := Without(data, id);
      tables := tables[file := data];
      r := Ok(true);
    }
  }
}
