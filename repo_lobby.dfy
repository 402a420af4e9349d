/**
 * The in-memory lobby store (internal/repo/plain/lobby.go): lobbies by
 * ID, in a map that may be nil (the zero value of the store). Create and
 * Update validate the lobby's type.
 */
module LobbyRepo {
  import opened Wrappers
  import opened RepoErrors
  import LobbyModel

  /** A store error, or the lobby's own validation error passed on. */
  datatype StoreError = Repo(repoError: RepoError) | Invalid(lobbyError: LobbyModel.LobbyError)

  class LobbyRepository {
    /** The map; None is the nil map of a zero store. */
    var db: Option<map<string, LobbyModel.Lobby>>

    /** NewLobbyRepository: an empty, non-nil map. */
    constructor ()
      ensures db == Some(map[])
    {
      db := Some(map[]);
    }

    function IsValid(): (b: bool)
      reads this
      ensures b <==> db.Some?
    {
      db.Some?
    }

    /**
     * Create: refused on a nil map, then on a taken ID, then on an invalid
     * type; otherwise the lobby is stored under its ID and nothing else
     * changes.
     */
    method Create(l: LobbyModel.Lobby) returns (err: Option<StoreError>)
      modifies this`db
      ensures old(db).None? ==> err == Some(Repo(LobbyInvalid))
      ensures old(db).Some? && l.id in old(db).value ==> err == Some(Repo(LobbyExists))
      ensures old(db).Some? && l.id !in old(db).value && LobbyModel.Validate(l.kind).Some? ==>
        err == Some(Invalid(LobbyModel.ErrType))
      ensures err.Some? ==> db == old(db)
      ensures err.None? <==> old(db).Some? && l.id !in old(db).value && LobbyModel.Validate(l.kind).None?
      ensures err.None? ==> db == Some(old(db).value[l.id := l])
    {
      if db.None? {
        return Some(Repo(LobbyInvalid));
      }
      if l.id in db.value {
        return Some(Repo(LobbyExists));
      }
      var v := LobbyModel.Validate(l.kind);
      if v.Some? {
        return Some(Invalid(v.value));
      }
      db := Some(db.value[l.id := l]);
      return None;
    }

    /** GetByID: the stored lobby, or null with an error. */
    method GetByID(id: string) returns (l: LobbyModel.Lobby?, err: Option<RepoError>)
      ensures db.None? ==> l == null && err == Some(LobbyInvalid)
      ensures db.Some? && id !in db.value ==> l == null && err == Some(Lobby404)
      ensures db.Some? && id in db.value ==> l == db.value[id] && err.None?
    {
      if db.None? {
        return null, Some(LobbyInvalid);
      }
      if id !in db.value {
        return null, Some(Lobby404);
      }
      return db.value[id], None;
    }

    /**
     * GetAll: every stored lobby once, in the map's iteration order, which
     * `order` records (each key once).
     */
    method GetAll() returns (ls: seq<LobbyModel.Lobby>, err: Option<RepoError>, ghost order: seq<string>)
      ensures db.None? ==> ls == [] && err == Some(LobbyInvalid)
      ensures db.Some? ==>
        err.None? && |order| == |ls| && |ls| == |db.value| &&
        (forall k :: k in order <==> k in db.value) &&
        (forall i :: 0 <= i < |ls| ==> order[i] in db.value && ls[i] == db.value[order[i]])
    {
      ls := [];
      order := [];
      if db.None? {
        return ls, Some(LobbyInvalid), order;
      }
      var m := db.value;
      var rest := m.Keys;
      while rest != {}
        invariant rest <= m.Keys
        invariant |order| == |ls| && |ls| + |rest| == |m|
        invariant forall k :: k in order <==> k in m.Keys - rest
        invariant forall i :: 0 <= i < |ls| ==> order[i] in m && ls[i] == m[order[i]]
        decreases |rest|
      {
        var k :| k in rest;
        ls := ls + [m[k]];
        order := order + [k];
        rest := rest - {k};
      }
      err := None;
    }

    /** Update: checks only (nil map, missing ID, then the type); the store is never written. */
    method Update(id: string, l: LobbyModel.Lobby) returns (err: Option<StoreError>)
      ensures db.None? ==> err == Some(Repo(LobbyInvalid))
      ensures db.Some? && id !in db.value ==> err == Some(Repo(Lobby404))
      ensures db.Some? && id in db.value ==>
        (err.None? <==> LobbyModel.Validate(l.kind).None?) &&
        (err.Some? ==> err == Some(Invalid(LobbyModel.ErrType)))
    {
      if db.None? {
        return Some(Repo(LobbyInvalid));
      }
      if id !in db.value {
        return Some(Repo(Lobby404));
      }
      var v := LobbyModel.Validate(l.kind);
      if v.Some? {
        return Some(Invalid(v.value));
      }
      return None;
    }

    /** Remove: a nil map and a missing ID are errors; otherwise only that key goes. */
    method Remove(id: string) returns (err: Option<RepoError>)
      modifies this`db
      ensures old(db).None? ==> err == Some(LobbyInvalid) && db == old(db)
      ensures old(db).Some? && id !in old(db).value ==> err == Some(Lobby404) && db == old(db)
      ensures old(db).Some? && id in old(db).value ==> err.None? && db == Some(old(db).value - {id})
    {
      if db.None? {
        return Some(LobbyInvalid);
      }
      if id !in db.value {
        return Some(Lobby404);
      }
      db := Some(db.value - {id});
      return None;
    }
  }
}
