/** The in-memory `users` store and its four route handlers, updating the
    table in place: `push` on create, indexed assignment on update and
    `splice` on delete, each lookup a linear scan. */
module UserRegistry {
  import opened Users
  import RegistrySpec

  class Registry {
    /** The store: every record currently held, in insertion order. */
    var users: seq<User>

    /** The invariant every handler keeps: no two records share an id. */
    ghost predicate Valid()
      reads this
    {
      UniqueIds(users)
    }

    /** The store starts empty. */
    constructor ()
      ensures Valid() && users == []
    {
      users := [];
    }

    /** `users.findIndex(u => u.id === id)`: a left-to-right scan that
        stops at the first match, or -1. */
    method FindIndex(id: string) returns (idx: int)
      ensures idx == IndexOf(users, id)
    {
      idx := 0;
      while idx < |users|
        invariant 0 <= idx <= |users|
        invariant forall j :: 0 <= j < idx ==> users[j].id != id
      {
        if users[idx].id == id {
          return;
        }
        idx := idx + 1;
      }
      idx := -1;
    }

    /** POST /users. `freshId` stands for the generated identifier, which
        is never one already in the store. */
    method Create(freshId: string, name: Option<string>, email: Option<string>) returns (resp: Response)
      requires Valid()
      requires freshId !in Ids(users)
      modifies this
      ensures Valid()
      ensures RegistrySpec.Transition(users, resp) == RegistrySpec.Create(old(users), freshId, name, email)
    {
      RegistrySpec.CreatePreservesUniqueIds(users, freshId, name, email);
      if !Truthy(name) || !Truthy(email) {
        return Err(STATUS_BAD_REQUEST, REQUIRED_MESSAGE);
      }
      var user := User(freshId, name.value, email.value);
      users := users + [user];
      resp := Ok(STATUS_CREATED, Some(user));
    }

    /** GET /users/:id. Reads the store and changes nothing. */
    method Read(id: string) returns (resp: Response)
      ensures resp == RegistrySpec.Read(users, id)
    {
      var idx := FindIndex(id);
      if idx == -1 {
        return Err(STATUS_NOT_FOUND, NOT_FOUND_MESSAGE);
      }
      resp := Ok(STATUS_OK, Some(users[idx]));
    }

    /** PUT /users/:id: the fields are checked before the lookup. */
    method Update(id: string, name: Option<string>, email: Option<string>) returns (resp: Response)
      requires Valid()
      modifies this
      ensures Valid()
      ensures RegistrySpec.Transition(users, resp) == RegistrySpec.Update(old(users), id, name, email)
    {
      RegistrySpec.UpdatePreservesUniqueIds(users, id, name, email);
      if !Truthy(name) || !Truthy(email) {
        return Err(STATUS_BAD_REQUEST, REQUIRED_MESSAGE);
      }
      var idx := FindIndex(id);
      if idx == -1 {
        return Err(STATUS_NOT_FOUND, NOT_FOUND_MESSAGE);
      }
      users := users[idx := users[idx].(name := name.value, email := email.value)];
      resp := Ok(STATUS_OK, Some(users[idx]));
    }

    /** DELETE /users/:id. */
    method Delete(id: string) returns (resp: Response)
      requires Valid()
      modifies this
      ensures Valid()
      ensures RegistrySpec.Transition(users, resp) == RegistrySpec.Delete(old(users), id)
    {
      RegistrySpec.DeletePreservesUniqueIds(users, id);
      var idx := FindIndex(id);
      if idx == -1 {
        return Err(STATUS_NOT_FOUND, NOT_FOUND_MESSAGE);
      }
      users := users[..idx] + users[idx + 1..];
      resp := Ok(STATUS_NO_CONTENT, None);
    }
  }
}
