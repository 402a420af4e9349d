/**
 * The lobby service (internal/lobby/service.go): the ID range derived from
 * the configured ID length, the choice of a free lobby ID by retrying
 * random picks, and the lookup by ID with its length check.
 */
module LobbyService {
  import opened Wrappers
  import opened RepoErrors
  import opened GoStrconv
  import LobbyConfig
  import LobbyModel
  import LobbyRepo

  datatype ServiceError =
    | ErrRepoInvalid                          // "repo.IsValid"
    | ErrConfig(cause: LobbyConfig.ConfigError)
    | ErrMaxParse                             // "something has went wrong with lobbyintn"
    | ErrMinParse                             // "something has went wrong with minlen"
    | ErrNil
    | ErrID
    | ErrValidate(lobbyError: LobbyModel.LobbyError)
    | ErrCreate(storeError: LobbyRepo.StoreError)
    | ErrLookup(repoError: RepoError)
    | ErrPicksExhausted

  /** The string of n nines: the largest n-digit number. */
  function Nines(n: nat): (s: string)
    ensures |s| == n && AllDigits(s) && Value(s) == Pow10(n) - 1
  {
    if n == 0 then ""
    else
      var s := Nines(n - 1) + "9";
      assert s[..n - 1] == Nines(n - 1);
      s
  }

  /** A one followed by n - 1 zeros: the smallest n-digit number. */
  function MinString(n: nat): (s: string)
    requires n >= 1
    ensures |s| == n && AllDigits(s) && Value(s) == Pow10(n - 1)
  {
    if n == 1 then "1"
    else
      var s := MinString(n - 1) + "0";
      assert s[..n - 1] == MinString(n - 1);
      s
  }

  /** A lobby ID is taken when the store has it; a nil store has nothing. */
  predicate Taken(db: Option<map<string, LobbyModel.Lobby>>, id: string)
  {
    db.Some? && id in db.value
  }

  /** The lobby IDs the picks stand for: min + pick, in decimal. */
  function Candidates(picks: seq<int>, base: int): (ids: seq<string>)
    ensures |ids| == |picks| && forall i :: 0 <= i < |picks| ==> ids[i] == Itoa(base + picks[i])
  {
    seq(|picks|, i requires 0 <= i < |picks| => Itoa(base + picks[i]))
  }

  /** The first ID the store does not have, or -1 when it has them all. */
  function FirstFree(ids: seq<string>, db: Option<map<string, LobbyModel.Lobby>>): (j: int)
    ensures -1 <= j < |ids|
    ensures j >= 0 ==> !Taken(db, ids[j])
    ensures forall i :: 0 <= i < |ids| && (j == -1 || i < j) ==> Taken(db, ids[i])
  {
    if |ids| == 0 then -1
    else if !Taken(db, ids[0]) then 0
    else
      var j := FirstFree(ids[1..], db);
      if j == -1 then -1 else j + 1
  }

  class Service {
    const repo: LobbyRepo.LobbyRepository
    /** The package-level configuration: ID length, client bound and the ID range. */
    const idLen: int
    const maxClient: int
    const min: int
    const max: int

    /** min is the smallest and max the largest idLen-digit number. */
    ghost predicate Valid()
    {
      idLen >= 1 && min == Pow10(idLen - 1) && max == Pow10(idLen) - 1
    }

    constructor (repo: LobbyRepo.LobbyRepository, c: LobbyConfig.Config, min: int, max: int)
      ensures this.repo == repo && idLen == c.idLen && maxClient == c.maxClient
      ensures this.min == min && this.max == max
    {
      this.repo := repo;
      idLen := c.idLen;
      maxClient := c.maxClient;
      this.min := min;
      this.max := max;
    }

    /**
     * NewService: refused for an invalid store, then for an invalid
     * configuration; otherwise the bounds are built as digit strings and
     * parsed, which fails once the nines no longer fit into an int64.
     */
    static method NewService(repo: LobbyRepo.LobbyRepository, c: LobbyConfig.Config)
      returns (s: Service?, err: Option<ServiceError>)
      ensures !repo.IsValid() ==> s == null && err == Some(ErrRepoInvalid)
      ensures repo.IsValid() && LobbyConfig.Validate(c).Some? ==>
        s == null && err == Some(ErrConfig(LobbyConfig.Validate(c).value))
      ensures repo.IsValid() && LobbyConfig.Validate(c).None? && c.idLen > 18 ==>
        s == null && err == Some(ErrMaxParse)
      ensures err.None? <==> repo.IsValid() && LobbyConfig.Validate(c).None? && c.idLen <= 18
      ensures err.None? ==>
        s != null && fresh(s) && s.Valid() && s.repo == repo &&
        s.idLen == c.idLen && s.maxClient == c.maxClient
    {
      if !repo.IsValid() {
        return null, Some(ErrRepoInvalid);
      }
      var v := LobbyConfig.Validate(c);
      if v.Some? {
        return null, Some(ErrConfig(v.value));
      }
      var maxstr, minstr := BoundStrings(c.idLen);
      AtoiDigits(maxstr);
      AtoiDigits(minstr);
      Int64Digits(c.idLen);
      var (max, maxStatus) := Atoi(maxstr);
      if maxStatus != Parsed {
        return null, Some(ErrMaxParse);
      }
      var (min, minStatus) := Atoi(minstr);
      if minStatus != Parsed {
        return null, Some(ErrMinParse);
      }
      s := new Service(repo, c, min, max);
      err := None;
    }

    /** The string loop of NewService: IDLen nines, and a one followed by IDLen - 1 zeros. */
    static method BoundStrings(idLen: int) returns (maxstr: string, minstr: string)
      requires idLen >= 1
      ensures maxstr == Nines(idLen) && minstr == MinString(idLen)
    {
      maxstr := "";
      minstr := "1";
      for i := 1 to idLen + 1
        invariant maxstr == Nines(i - 1)
        invariant minstr == MinString(if i == 1 then 1 else i - 1)
      {
        maxstr := maxstr + "9";
        if i == 1 {
          minstr := "1";
        } else {
          minstr := minstr + "0";
        }
      }
    }

    /**
     * CreateLobby, with `picks` standing for the successive results of
     * rand.Intn(max - min): a nil lobby is refused; otherwise the first
     * pick whose ID the store does not have (or any pick, for a nil store)
     * becomes the lobby's ID, which is then validated and stored. Running
     * out of picks stands for the source retrying forever.
     */
    method CreateLobby(l: LobbyModel.Lobby?, picks: seq<int>) returns (err: Option<ServiceError>)
      requires Valid()
      requires forall i :: 0 <= i < |picks| ==> 0 <= picks[i] < max - min
      modifies repo`db, (if l == null then {} else {l})`id
      ensures l == null ==> err == Some(ErrNil) && repo.db == old(repo.db)
      ensures l != null && FirstFree(Candidates(picks, min), old(repo.db)) == -1 ==>
        err == Some(ErrPicksExhausted) && repo.db == old(repo.db) && l.id == old(l.id)
      ensures l != null && FirstFree(Candidates(picks, min), old(repo.db)) >= 0 ==>
        var id := min + picks[FirstFree(Candidates(picks, min), old(repo.db))];
        min <= id < max && l.id == Itoa(id) && |l.id| == idLen &&
        (LobbyModel.Validate(l.kind).Some? ==>
          err == Some(ErrValidate(LobbyModel.ErrType)) && repo.db == old(repo.db)) &&
        (LobbyModel.Validate(l.kind).None? && old(repo.db).None? ==>
          err == Some(ErrCreate(LobbyRepo.Repo(LobbyInvalid))) && repo.db == old(repo.db)) &&
        (LobbyModel.Validate(l.kind).None? && old(repo.db).Some? ==>
          err.None? && repo.db == Some(old(repo.db).value[l.id := l]))
    {
      if l == null {
        return Some(ErrNil);
      }
      var j := PickFree(Candidates(picks, min));
      if j == -1 {
        return Some(ErrPicksExhausted);
      }
      var id := min + picks[j];
      IdLength(idLen, picks[j]);
      l.id := Itoa(id);
      var v := LobbyModel.Validate(l.kind);
      if v.Some? {
        return Some(ErrValidate(v.value));
      }
      var e := repo.Create(l);
      if e.Some? {
        return Some(ErrCreate(e.value));
      }
      err := None;
    }

    /** The retry loop of CreateLobby: try the IDs until the store's lookup fails. */
    method PickFree(ids: seq<string>) returns (j: int)
      ensures j == FirstFree(ids, repo.db)
    {
      for k := 0 to |ids|
        invariant forall i :: 0 <= i < k ==> Taken(repo.db, ids[i])
      {
        var found, e := repo.GetByID(ids[k]);
        if e.Some? {
          FirstFreeAt(ids, repo.db, k);
          return k;
        }
      }
      FirstFreeNone(ids, repo.db);
      return -1;
    }

    /** GetLobbyByID: an ID of the wrong length is refused before the store is asked. */
    method GetLobbyByID(id: string) returns (l: LobbyModel.Lobby?, err: Option<ServiceError>)
      ensures |id| != idLen ==> l == null && err == Some(ErrID)
      ensures |id| == idLen && repo.db.None? ==> l == null && err == Some(ErrLookup(LobbyInvalid))
      ensures |id| == idLen && repo.db.Some? && id !in repo.db.value ==> l == null && err == Some(ErrLookup(Lobby404))
      ensures |id| == idLen && Taken(repo.db, id) ==> l == repo.db.value[id] && err.None?
    {
      if |id| == idLen {
        var found, e := repo.GetByID(id);
        if e.None? {
          return found, None;
        }
        return null, Some(ErrLookup(e.value));
      }
      return null, Some(ErrID);
    }
  }

  // ---------------------------------------------------------------------
  // Lemmas

  lemma {:induction false} Pow10Monotone(a: nat, b: nat)
    requires a <= b
    ensures Pow10(a) <= Pow10(b)
  {
    if a < b {
      Pow10Monotone(a, b - 1);
    }
  }

  lemma {:induction false} Pow10Add(a: nat, b: nat)
    ensures Pow10(a + b) == Pow10(a) * Pow10(b)
  {
    if b > 0 {
      Pow10Add(a, b - 1);
      assert Pow10(a + b) == 10 * Pow10(a + b - 1);
    }
  }

  /** The idLen-digit bounds fit into an int64 exactly when idLen is at most 18. */
  lemma Int64Digits(n: nat)
    requires n >= 1
    ensures Pow10(n) - 1 <= MaxInt64 <==> n <= 18
    ensures n <= 18 ==> Pow10(n - 1) <= MaxInt64
  {
    Pow10Add(9, 9);
    assert Pow10(9) == 1_000_000_000;
    if n <= 18 {
      Pow10Monotone(n, 18);
      Pow10Monotone(n - 1, 18);
    } else {
      Pow10Monotone(19, n);
    }
  }

  /** A chosen ID min + r, with r drawn from [0, max - min), has exactly idLen digits. */
  lemma IdLength(idLen: int, r: int)
    requires idLen >= 1 && 0 <= r < Pow10(idLen) - 1 - Pow10(idLen - 1)
    ensures |Itoa(Pow10(idLen - 1) + r)| == idLen
  {
    DigitsLength(Pow10(idLen - 1) + r, idLen);
  }

  lemma FirstFreeAt(ids: seq<string>, db: Option<map<string, LobbyModel.Lobby>>, k: int)
    requires 0 <= k < |ids| && !Taken(db, ids[k])
    requires forall i :: 0 <= i < k ==> Taken(db, ids[i])
    ensures FirstFree(ids, db) == k
  {
  }

  lemma FirstFreeNone(ids: seq<string>, db: Option<map<string, LobbyModel.Lobby>>)
    requires forall i :: 0 <= i < |ids| ==> Taken(db, ids[i])
    ensures FirstFree(ids, db) == -1
  {
  }

  /** Every ID CreateLobby chooses passes GetLobbyByID's length check. */
  lemma ChosenIdPassesLengthCheck(s: Service, r: int)
    requires s.Valid() && 0 <= r < s.max - s.min
    ensures |Itoa(s.min + r)| == s.idLen
  {
    IdLength(s.idLen, r);
  }
}
