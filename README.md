# User registry: a verified model

This project models the user registry of a small REST service. The registry is an in-memory
table `users` of records `{id, name, email}`, and four `/users` route handlers act on it:

- create (POST) checks that `name` and `email` are truthy, then appends a record with a freshly generated id;
- read (GET) scans for the first record with the given id;
- update (PUT) checks the fields first, then finds the record and replaces its name and email in place;
- delete (DELETE) finds the record and splices it out.

Each handler ends with a status code (201, 200, 204, 400 or 404). The body is either a record, no body, or
the error message `"name and email are required"` or `"User not found"`.

The model has three modules:

- `Users` (`users.dfy`): the record and response datatypes, the status codes and messages, and the
  truthiness check on request fields. A field is `Option<string>`; it is falsy when it is absent or
  the empty string. It also holds `IndexOf`, the first-match lookup, together with `Ids` and the
  invariant `UniqueIds`.
- `RegistrySpec` (`registry_spec.dfy`): each handler as a pure function from the table before a
  request to a `Transition`, meaning the table after it plus the response. These functions are
  `Create`, `Read`, `Update` and `Delete`, plus `RemoveAt`, which models `splice(k, 1)`. The lemmas
  prove what the handlers promise.
- `UserRegistry` (`registry.dfy`): the class `Registry` with the `users` field as a `seq<User>`.
  Its methods update that field in place, as the handlers do. `FindIndex` is the linear-scan loop.
  Each handler method is proved to produce exactly the transition its `RegistrySpec` function
  describes, and to keep `Valid()` (distinct ids).

The generated identifier (`randomUUID()`) is a parameter `freshId` of `Create`. The class method
requires it not to be an id already in the table; this is what the random generator is relied on
for. Under that precondition, every handler keeps the ids distinct, so any sequence
of calls on a `Registry` does too.

The code keeps records in insertion order. Update keeps every other record at its position, and
delete keeps the remaining records in their relative order; the model proves both.

## Model

| member | source | states |
|---|---|---|
| `Users.Truthy` | src/index.js:19 | the JavaScript truthiness of a request field, for a field that is absent or a string: true exactly when present and non-empty; no contract of its own, and `Users.Validate` states what the guard built on it accepts |
| `Users.Validate` | src/index.js:18-19 | the fields are rejected exactly when `name` or `email` is absent or the empty string; when accepted, the two strings are those supplied |
| `Users.IndexOf` | src/index.js:54 | the result is -1 exactly when no record has the id; otherwise it is a position holding that id, and no earlier position does (first match) |
| `RegistrySpec.RemoveAt` | src/index.js:73 | removing position k gives a table one shorter, with records before k unchanged, records after k shifted down by one, and the same multiset minus the removed record |
| `RegistrySpec.Create` | src/index.js:17-26 | the POST handler as a transition from the old table to the new table and response; no contract of its own, and its properties are the `Create*` lemmas below |
| `RegistrySpec.Read` | src/index.js:33-39 | the GET handler as a response computed from the table, which it does not change; no contract of its own, and its properties are `ReadMissing`, `ReadFinds`, `CreateThenRead` and `ReadAfterDelete` |
| `RegistrySpec.Update` | src/index.js:48-61 | the PUT handler as a transition, validating before the lookup; no contract of its own, and its properties are the `Update*` lemmas below |
| `RegistrySpec.Delete` | src/index.js:68-75 | the DELETE handler as a transition that uses `RemoveAt` for the splice; no contract of its own, and its properties are the `Delete*` lemmas and `ReadAfterDelete` below |
| `RegistrySpec.CreateRejectsMissing` | src/index.js:18-21 | a missing or empty `name` or `email` gives 400 with "name and email are required", and the table is unchanged |
| `RegistrySpec.CreateAppends` | src/index.js:23-25 | valid fields give 201 and the new record `{freshId, name, email}`; the table grows by exactly that record at the end, and the old prefix is unchanged |
| `RegistrySpec.CreatePreservesUniqueIds` | src/index.js:23-24 | if the table's ids are distinct and the fresh id is not among them, the ids after create are still distinct |
| `RegistrySpec.CreateThenRead` | src/index.js:23-38 | reading the id just created gives 200 and exactly the record just created |
| `RegistrySpec.ReadMissing` | src/index.js:34-37 | an id held by no record reads as 404 with "User not found" |
| `RegistrySpec.ReadFinds` | src/index.js:34-38 | with distinct ids, reading the id of any stored record gives 200 and that record |
| `RegistrySpec.UpdateValidatesFirst` | src/index.js:49-54 | a missing or empty field gives 400 and an unchanged table for every id, whether or not the id exists |
| `RegistrySpec.UpdateMissing` | src/index.js:54-57 | valid fields with an unknown id give 404 with "User not found", and the table is unchanged |
| `RegistrySpec.UpdateReplaces` | src/index.js:59-60 | valid fields with a known id give 200 and the record `{id, name, email}`; it is stored at the position of the first match with its id kept, the length is the same, and every other position is unchanged |
| `RegistrySpec.UpdatePreservesUniqueIds` | src/index.js:59 | an update keeps distinct ids distinct, whatever its outcome |
| `RegistrySpec.DeleteMissing` | src/index.js:69-72 | an unknown id gives 404 with "User not found", and the table is unchanged |
| `RegistrySpec.DeleteRemoves` | src/index.js:73-74 | a known id gives 204 with no body; the first record with that id (position k) is removed, the table shrinks by one and equals the records before k followed by those after k in order, and the multiset loses exactly that record |
| `RegistrySpec.DeletePreservesUniqueIds` | src/index.js:73 | a delete keeps distinct ids distinct, whatever its outcome |
| `RegistrySpec.ReadAfterDelete` | src/index.js:68-74 | with distinct ids, after deleting an id, reading that id gives 404 |
| `RegistrySpec.Lifecycle` | src/index.js:17-75 | for a fresh id, the sequence create Alice (201), read (200, same data), update to Alice B (200, new data), delete (204), read (404) behaves as shown |
| `UserRegistry.Registry.constructor` | src/index.js:9 | the store starts empty, with the invariant established |
| `UserRegistry.Registry.FindIndex` | src/index.js:54 | the loop's result is `IndexOf(users, id)`, the first matching position or -1 |
| `UserRegistry.Registry.Create` | src/index.js:17-26 | the new store and the response are exactly `RegistrySpec.Create` of the old store; distinct ids are kept, given a fresh id |
| `UserRegistry.Registry.Read` | src/index.js:33-39 | the response is `RegistrySpec.Read` of the store, and the method modifies nothing |
| `UserRegistry.Registry.Update` | src/index.js:48-61 | the new store and the response are exactly `RegistrySpec.Update` of the old store; distinct ids are kept |
| `UserRegistry.Registry.Delete` | src/index.js:68-75 | the new store and the response are exactly `RegistrySpec.Delete` of the old store; distinct ids are kept |

## Left out

- Express routing, `express.json()` body parsing and `req.params` extraction: library plumbing. The
  model takes the id and the optional `name`/`email` fields directly.
- Serialisation by `res.status(...).json(...)` and `.send()`: the status code and payload are returned as a `Response` value.
- `randomUUID()`: a foreign source of randomness. It is replaced by the caller-supplied `freshId`
  and the precondition that this id is not in the table. The model therefore does not capture that
  generated ids are non-empty or never reused across deletions.
- Non-string falsy JSON values (`0`, `false`, `null`) in the request body: a field is modelled as an
  absent or present string only. Likewise, non-string truthy values that would be stored as-is are not modelled.
- `module.exports`, and the `app.listen` / `process.env.PORT` / `console.log` startup block: I/O and process configuration.
- The `find` used by read is modelled by the same first-match scan as
  `findIndex`, followed by indexing. The two are equivalent for a table of records.
