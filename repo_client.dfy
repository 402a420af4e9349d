/**
 * The in-memory client store (internal/repo/plain/client.go): clients by
 * ID, in a map that may be nil (the zero value of the store), with the
 * shared sentinel errors.
 */
module ClientRepo {
  import opened Wrappers
  import opened RepoErrors
  import opened ClientModel

  /** The store after Update as written: the stored value is read back into the parameter and written again. */
  function AfterUpdateAsWritten(db: map<string, Client>, id: string, c: Client): (r: map<string, Client>)
    ensures r == db
  {
    if id in db then
      var stored := db[id];
      db[id := stored]
    else db
  }

  /** The store after Update as intended: the new value replaces the stored one. */
  function AfterUpdate(db: map<string, Client>, id: string, c: Client): (r: map<string, Client>)
    ensures id in db ==> r.Keys == db.Keys && r[id] == c
    ensures forall k :: k in db && k != id ==> k in r && r[k] == db[k]
    ensures id !in db ==> r == db
  {
    if id in db then db[id := c] else db
  }

  /** A present client updated to a different value keeps its old value as written. */
  lemma UpdateAsWrittenLosesValue(db: map<string, Client>, id: string, c: Client)
    requires id in db && db[id] != c
    ensures AfterUpdateAsWritten(db, id, c)[id] != c
    ensures AfterUpdate(db, id, c)[id] == c
  {
  }

  /** A concrete case: a client with a fresh lobby ID is not recorded. */
  lemma UpdateAsWrittenExample()
    ensures var old1 := Client("1", ZeroClient.user, Some(0), "");
      var new1 := old1.(lobbyId := "1234");
      AfterUpdateAsWritten(map["1" := old1], "1", new1)["1"] == old1 &&
      AfterUpdate(map["1" := old1], "1", new1)["1"] == new1
  {
  }

  class ClientRepository {
    /** The map; None is the nil map of a zero store. */
    var db: Option<map<string, Client>>

    /** NewClientRepository: an empty, non-nil map. */
    constructor ()
      ensures db == Some(map[])
    {
      db := Some(map[]);
    }

    function IsValid(): (b: bool)
      reads this
      ensures b <==> db.Some?
    {
      db.Some?
    }

    /** Create: refused on a nil map or a taken ID; otherwise stored under its ID, unvalidated. */
    method Create(c: Client) returns (err: Option<RepoError>)
      modifies this`db
      ensures old(db).None? ==> err == Some(ClientInvalid) && db == old(db)
      ensures old(db).Some? && c.id in old(db).value ==> err == Some(ClientExists) && db == old(db)
      ensures old(db).Some? && c.id !in old(db).value ==> err.None? && db == Some(old(db).value[c.id := c])
    {
      if db.None? {
        return Some(ClientInvalid);
      }
      if c.id in db.value {
        return Some(ClientExists);
      }
      db := Some(db.value[c.id := c]);
      return None;
    }

    /** GetByID: the stored client, or the zero Client with an error. */
    method GetByID(id: string) returns (c: Client, err: Option<RepoError>)
      ensures db.None? ==> c == ZeroClient && err == Some(ClientInvalid)
      ensures db.Some? && id !in db.value ==> c == ZeroClient && err == Some(Client404)
      ensures db.Some? && id in db.value ==> c == db.value[id] && err.None?
    {
      if db.None? {
        return ZeroClient, Some(ClientInvalid);
      }
      if id !in db.value {
        return ZeroClient, Some(Client404);
      }
      return db.value[id], None;
    }

    /**
     * GetAll: every stored client once, in the map's iteration order,
     * which `order` records (each key once).
     */
    method GetAll() returns (arr: seq<Client>, err: Option<RepoError>, ghost order: seq<string>)
      ensures db.None? ==> arr == [] && err == Some(ClientInvalid)
      ensures db.Some? ==>
        err.None? && |order| == |arr| && |arr| == |db.value| &&
        (forall k :: k in order <==> k in db.value) &&
        (forall i :: 0 <= i < |arr| ==> order[i] in db.value && arr[i] == db.value[order[i]])
    {
      arr := [];
      order := [];
      if db.None? {
        return arr, Some(ClientInvalid), order;
      }
      var m := db.value;
      var rest := m.Keys;
      while rest != {}
        invariant rest <= m.Keys
        invariant |order| == |arr| && |arr| + |rest| == |m|
        invariant forall k :: k in order <==> k in m.Keys - rest
        invariant forall i :: 0 <= i < |arr| ==> order[i] in m && arr[i] == m[order[i]]
        decreases |rest|
      {
        var k :| k in rest;
        arr := arr + [m[k]];
        order := order + [k];
        rest := rest - {k};
      }
      err := None;
    }

    /**
     * Update as written: a nil map and a missing ID are errors; for a
     * present ID the stored client is written back, so the store never
     * changes.
     */
    method UpdateAsWritten(id: string, c: Client) returns (err: Option<RepoError>)
      modifies this`db
      ensures old(db).None? ==> err == Some(ClientInvalid) && db == old(db)
      ensures old(db).Some? ==> db == Some(AfterUpdateAsWritten(old(db).value, id, c))
      ensures old(db).Some? ==> (err == Some(Client404) <==> id !in old(db).value)
      ensures old(db).Some? ==> (err.None? <==> id in old(db).value)
    {
      if db.None? {
        return Some(ClientInvalid);
      }
      if id !in db.value {
        return Some(Client404);
      }
      var stored := db.value[id];
      db := Some(db.value[id := stored]);
      return None;
    }

    /** Update as intended: the same errors; a present ID gets the new client. */
    method Update(id: string, c: Client) returns (err: Option<RepoError>)
      modifies this`db
      ensures old(db).None? ==> err == Some(ClientInvalid) && db == old(db)
      ensures old(db).Some? ==> db == Some(AfterUpdate(old(db).value, id, c))
      ensures old(db).Some? ==> (err == Some(Client404) <==> id !in old(db).value)
      ensures old(db).Some? ==> (err.None? <==> id in old(db).value)
    {
      if db.None? {
        return Some(ClientInvalid);
      }
      if id !in db.value {
        return Some(Client404);
      }
      db := Some(db.value[id := c]);
      return None;
    }

    /** Remove: a nil map and a missing ID are errors; otherwise only that key goes. */
    method Remove(id: string) returns (err: Option<RepoError>)
      modifies this`db
      ensures old(db).None? ==> err == Some(ClientInvalid) && db == old(db)
      ensures old(db).Some? && id !in old(db).value ==> err == Some(Client404) && db == old(db)
      ensures old(db).Some? && id in old(db).value ==> err.None? && db == Some(old(db).value - {id})
    {
      if db.None? {
        return Some(ClientInvalid);
      }
      if id !in db.value {
        return Some(Client404);
      }
      db := Some(db.value - {id});
      return None;
    }
  }
}
