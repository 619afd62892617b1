/** User records, HTTP-style responses, request-field validation and the
    first-match lookup shared by every handler of the user registry. */
module Users {

  datatype Option<+T> = None | Some(value: T)

  /** A stored record `{id, name, email}`. */
  datatype User = User(id: string, name: string, email: string)

  /** What a handler ends with: a status code and either a record (or no body)
      or an error message. */
  datatype Response =
    | Ok(status: nat, body: Option<User>)
    | Err(status: nat, message: string)

  const STATUS_OK: nat := 200
  const STATUS_CREATED: nat := 201
  const STATUS_NO_CONTENT: nat := 204
  const STATUS_BAD_REQUEST: nat := 400
  const STATUS_NOT_FOUND: nat := 404

  const REQUIRED_MESSAGE: string := "name and email are required"
  const NOT_FOUND_MESSAGE: string := "User not found"

  /** A request-body field is truthy when it is present and not the empty string. */
  predicate Truthy(field: Option<string>)
  {
    field.Some? && field.value != ""
  }

  /** Outcome of the presence check on `name` and `email`. */
  datatype Validation = Fields(name: string, email: string) | Missing

  /** The `!name || !email` guard: both fields must be truthy. */
  function Validate(name: Option<string>, email: Option<string>): (v: Validation)
    ensures v.Missing? <==>
              name == None || name == Some("") || email == None || email == Some("")
    ensures v.Fields? ==> name == Some(v.name) && email == Some(v.email)
  {
    if Truthy(name) && Truthy(email) then Fields(name.value, email.value) else Missing
  }

  /** The set of ids currently in the table. */
  function Ids(table: seq<User>): set<string>
  {
    set u | u in table :: u.id
  }

  /** No two records of the table share an id. */
  predicate UniqueIds(table: seq<User>)
  {
    forall i, j :: 0 <= i < |table| && 0 <= j < |table| && table[i].id == table[j].id ==> i == j
  }

  /** Position of the first record whose id is `id`, or -1 when there is none
      (the meaning of `findIndex(u => u.id === id)`). */
  function IndexOf(table: seq<User>, id: string): (k: int)
    ensures -1 <= k < |table|
    ensures k >= 0 ==> table[k].id == id
    ensures k >= 0 ==> forall j :: 0 <= j < k ==> table[j].id != id
    ensures k == -1 <==> id !in Ids(table)
  {
    if |table| == 0 then -1
    else if table[0].id == id then 0
    else
      var k := IndexOf(table[1..], id);
      assert forall u :: u in table[1..] ==> u in table;
      assert forall u :: u in table ==> u == table[0] || u in table[1..];
      if k == -1 then -1 else k + 1
  }
}
