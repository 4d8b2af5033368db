/** What a route handler sends back. */
module Http {
  import opened Js
  import opened Sql

  /** `res.status(code).json(...)` with one of the three body shapes the
      routers use: `{ status: 'success', data }`, `{ status: 'success',
      message }` and `{ status: 'error', message }`; or `res.download(path,
      name)`, which sends a stored file. */
  datatype Reply =
    | Success(code: nat, data: Json)
    | Done(code: nat, message: string)
    | Failure(code: nat, message: string)
    | SendFile(path: string, name: Json)

  /** `result.rows` as sent in a JSON body. */
  function RowsJson(rows: seq<Row>): (j: Json)
    ensures j.Arr? && |j.items| == |rows|
    ensures forall i :: 0 <= i < |rows| ==> j.items[i] == Obj(rows[i])
  {
    Arr(seq(|rows|, i requires 0 <= i < |rows| => Obj(rows[i])))
  }
}
