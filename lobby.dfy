/**
 * The lobby (internal/lobby/model.go and internal/lobby/cmd.go): its
 * membership bookkeeping (the connections by client ID, the client list
 * kept sorted by ID, the owner), the subscriber lists, the comparison of
 * two lobbies, validation, and the `lobby` commands each member's
 * connection is given.
 */
module LobbyModel {
  import opened Wrappers
  import opened RepoErrors
  import opened GoSort
  import ClientModel
  import Conn

  /** Type: a uint8; the named types are 0 to 4. */
  newtype LobbyType = x: int | 0 <= x < 256

  const TypeBasic: LobbyType := 0
  const TypeOriginal: LobbyType := 1
  const TypeAvalon: LobbyType := 2
  const TypeHunter: LobbyType := 3
  const TypeTrumpmode: LobbyType := 4

  datatype LobbyError = ErrType | ErrTargetInvalid

  /** A subscriber channel, by number. */
  type Chan = nat

  /** Type.String: the name of a named type, the empty string for any other. */
  function TypeString(t: LobbyType): (s: string)
    ensures s == "" <==> t > TypeTrumpmode
  {
    match t
    case 0 => "Basic"
    case 1 => "Original"
    case 2 => "Avalon"
    case 3 => "Hunter"
    case 4 => "Trumpmode"
    case _ => ""
  }

  /** Lobby.Validate: only the type is checked; it must be one of the named types. */
  function Validate(t: LobbyType): (e: Option<LobbyError>)
    ensures e.Some? <==> TypeString(t) == ""
    ensures e.Some? ==> e.value == ErrType
  {
    if t < TypeBasic || t > TypeTrumpmode then Some(ErrType) else None
  }

  /** The sort key of a client. */
  function IdOf(c: ClientModel.Client): string { c.id }

  /** GetClientIndex: the first position holding that ID, or -1. */
  function ClientIndex(cs: seq<ClientModel.Client>, id: string): (i: int)
    ensures -1 <= i < |cs|
    ensures i >= 0 ==> cs[i].id == id && forall j :: 0 <= j < i ==> cs[j].id != id
    ensures i == -1 <==> forall j :: 0 <= j < |cs| ==> cs[j].id != id
  {
    if |cs| == 0 then -1
    else if cs[0].id == id then 0
    else
      var i := ClientIndex(cs[1..], id);
      if i == -1 then -1 else i + 1
  }

  /** The client a kick names: the first listed client with that ID, and a valid one. */
  predicate Kickable(cs: seq<ClientModel.Client>, id: string)
  {
    var i := ClientIndex(cs, id);
    i != -1 && ClientModel.IsValid(cs[i])
  }

  /** The list with position i spliced out, the others kept in order; i == -1 leaves it alone. */
  function Without<T>(s: seq<T>, i: int): (r: seq<T>)
    requires -1 <= i < |s|
    ensures i == -1 ==> r == s
    ensures i >= 0 ==> |r| == |s| - 1 && multiset(r) == multiset(s) - multiset{s[i]}
  {
    if i == -1 then s
    else
      assert s == s[..i] + [s[i]] + s[i + 1..];
      s[..i] + s[i + 1..]
  }

  /** The IDs of the valid clients, in order. */
  function ValidIds(cs: seq<ClientModel.Client>): (ids: seq<string>)
    ensures |ids| <= |cs|
  {
    if |cs| == 0 then []
    else ValidIds(cs[..|cs| - 1]) + (if ClientModel.IsValid(cs[|cs| - 1]) then [cs[|cs| - 1].id] else [])
  }

  /** removesubscribe: the first match takes the last element's place and the list shrinks by one. */
  function RemoveSwap(s: seq<Chan>, ch: Chan): (r: seq<Chan>)
  {
    var i := FirstIndex(s, ch);
    if i == -1 then s else s[i := s[|s| - 1]][..|s| - 1]
  }

  function FirstIndex(s: seq<Chan>, ch: Chan): (i: int)
    ensures -1 <= i < |s|
    ensures i >= 0 ==> s[i] == ch && ch !in s[..i]
    ensures i == -1 <==> ch !in s
  {
    if |s| == 0 then -1
    else if s[0] == ch then 0
    else
      var i := FirstIndex(s[1..], ch);
      assert i >= 0 ==> s[..i + 1] == [s[0]] + s[1..][..i];
      if i == -1 then -1 else i + 1
  }

  /** The commands of the `lobby` group: leave and get for everyone, kick and start for the owner. */
  function LobbyGroup(isOwner: bool): (m: Conn.MessageStruct)
    ensures m.Keys == if isOwner then {"leave", "get", "kick", "start"} else {"leave", "get"}
  {
    var base := map["leave" := "lobby.leave", "get" := "lobby.get"];
    if isOwner then base["kick" := "lobby.kick"]["start" := "lobby.start"] else base
  }

  /**
   * addCommands on a table: an invalid client keeps its table; otherwise
   * the `lobby` group is dropped, and given back (owner commands for
   * Clients[0]) only when the lobby has clients.
   */
  function LobbyCommands(cmd: Conn.Table, clients: seq<ClientModel.Client>, c: ClientModel.Client): Conn.Table
  {
    if !ClientModel.IsValid(c) then cmd
    else if |clients| == 0 then cmd - {"lobby"}
    else (cmd - {"lobby"})["lobby" := LobbyGroup(clients[0] == c)]
  }

  /** The IDs of the connected clients, as the connections report them. */
  ghost function ClientIdsOf(conns: map<string, Conn.Connection>): set<string>
  {
    set k | k in conns :: conns[k].client.id
  }

  /** m is the least of s in Go's string order. */
  ghost predicate Least(s: set<string>, m: string)
  {
    m in s && forall x :: x in s ==> !Below(x, m)
  }

  class Lobby {
    var id: string
    var kind: LobbyType
    var private: bool
    var clients: seq<ClientModel.Client>
    /** The members' connections, by client ID. */
    var conns: map<string, Conn.Connection>
    var owner: string
    var insert: seq<Chan>
    var remove: seq<Chan>
    var nextChan: nat

    /** A Lobby literal with its ID, type and privacy. */
    constructor (id: string, kind: LobbyType, private: bool)
      ensures this.id == id && this.kind == kind && this.private == private
      ensures clients == [] && conns == map[] && owner == "" && insert == [] && remove == []
    {
      this.id := id;
      this.kind := kind;
      this.private := private;
      clients := [];
      conns := map[];
      owner := "";
      insert := [];
      remove := [];
      nextChan := 0;
    }

    method GetClientIndex(cid: string) returns (i: int)
      ensures i == ClientIndex(clients, cid)
    {
      i := -1;
      for k := 0 to |clients|
        invariant forall j :: 0 <= j < k ==> clients[j].id != cid
      {
        if clients[k].id == cid {
          i := k;
          break;
        }
      }
    }

    /**
     * Equal: same ID, type, privacy and number of clients, and the same
     * IDs of valid clients in the same order.
     */
    method Equal(l2: Lobby) returns (eq: bool)
      ensures eq <==>
        (id == l2.id && kind == l2.kind && private == l2.private &&
         |clients| == |l2.clients| && ValidIds(clients) == ValidIds(l2.clients))
    {
      if id != l2.id || kind != l2.kind || private != l2.private || |clients| != |l2.clients| {
        return false;
      }
      var id1 := CollectValidIds(clients);
      var id2 := CollectValidIds(l2.clients);
      if |id1| != |id2| {
        return false;
      }
      for k := 0 to |id1|
        invariant id1[..k] == id2[..k]
      {
        if id1[k] != id2[k] {
          return false;
        }
      }
      assert id1 == id1[..|id1|] && id2 == id2[..|id2|];
      return true;
    }

    /** The appending loops of Equal. */
    static method CollectValidIds(cs: seq<ClientModel.Client>) returns (ids: seq<string>)
      ensures ids == ValidIds(cs)
    {
      ids := [];
      for k := 0 to |cs|
        invariant ids == ValidIds(cs[..k])
      {
        assert cs[..k + 1][..k] == cs[..k];
        if ClientModel.IsValid(cs[k]) {
          ids := ids + [cs[k].id];
        }
      }
      assert cs[..|cs|] == cs;
    }

    /**
     * Join: an empty client ID, then an ID already connected, are refused
     * with nothing changed. Otherwise the connection is recorded, the
     * client appended unless listed already, the list sorted by ID, and
     * an empty owner becomes the smallest connected client ID.
     */
    method Join(c: Conn.Connection) returns (err: Option<RepoError>)
      modifies this`conns, this`clients, this`owner
      ensures |c.client.id| == 0 ==> err == Some(ClientInvalid)
      ensures |c.client.id| > 0 && c.client.id in old(conns) ==> err == Some(ClientExists)
      ensures err.Some? ==> conns == old(conns) && clients == old(clients) && owner == old(owner)
      ensures |c.client.id| > 0 && c.client.id !in old(conns) ==>
        err.None? && conns == old(conns)[c.client.id := c]
      ensures |c.client.id| > 0 && c.client.id !in old(conns) ==>
        multiset(clients) == multiset(old(clients)) +
          (if ClientIndex(old(clients), c.client.id) == -1 then multiset{c.client} else multiset{})
      ensures |c.client.id| > 0 && c.client.id !in old(conns) ==> SortedBy(clients, IdOf)
      ensures |c.client.id| > 0 && c.client.id !in old(conns) && old(owner) == "" ==>
        Least(ClientIdsOf(conns), owner)
      ensures old(owner) != "" ==> owner == old(owner)
    {
      var cid := c.client.id;
      if |cid| == 0 {
        return Some(ClientInvalid);
      }
      if cid in conns {
        return Some(ClientExists);
      }
      conns := conns[cid := c];
      var i := GetClientIndex(cid);
      if i == -1 {
        clients := clients + [c.client];
      }
      SortClients();
      if owner == "" {
        owner := LeastConnClientId();
      }
      err := None;
    }

    /** The sort.Slice of Join: the clients in ascending order of ID. */
    method SortClients()
      modifies this`clients
      ensures multiset(clients) == multiset(old(clients)) && SortedBy(clients, IdOf)
    {
      SortBySorted(clients, IdOf);
      clients := SortBy(clients, IdOf);
    }

    /** The key loop of Join and sort.Strings: the first of the sorted connected client IDs. */
    method LeastConnClientId() returns (m: string)
      requires |conns| > 0
      ensures Least(ClientIdsOf(conns), m)
    {
      var keys := ConnIds();
      var sorted := SortBy(keys, (s: string) => s);
      SortBySorted(keys, (s: string) => s);
      assert |sorted| > 0;
      m := sorted[0];
      assert m in multiset(sorted);
      forall x | x in ClientIdsOf(conns)
        ensures !Below(x, m)
      {
        assert x in multiset(sorted);
        SortedHeadLeast(sorted, (s: string) => s, x);
      }
    }

    /** The key loop of Join: each connection's client ID, in map order. */
    method ConnIds() returns (keys: seq<string>)
      ensures |keys| == |conns|
      ensures forall x :: x in keys <==> x in ClientIdsOf(conns)
    {
      keys := [];
      var rest := conns.Keys;
      while rest != {}
        invariant rest <= conns.Keys
        invariant |keys| + |rest| == |conns|
        invariant forall x :: x in keys <==> exists k :: k in conns.Keys - rest && conns[k].client.id == x
        decreases |rest|
      {
        var k :| k in rest;
        keys := keys + [conns[k].client.id];
        rest := rest - {k};
      }
    }

    /**
     * Leave of the client with ID cid: an empty ID is refused. Otherwise the
     * client leaves the list (the others keep their order) whether or not it
     * is connected; a connected client's entry is deleted, the `lobby`
     * commands of the least remaining ID's connection are renewed, and an
     * unconnected one is reported missing. The owner is never reassigned.
     */
    method Leave(cid: string) returns (err: Option<RepoError>, ghost first: string)
      modifies this`clients, this`conns, (set k | k in conns && Least(conns.Keys - {cid}, k) :: conns[k])`cmd
      ensures |cid| == 0 ==> err == Some(ClientInvalid) && clients == old(clients) && conns == old(conns)
      ensures |cid| > 0 ==> clients == Without(old(clients), ClientIndex(old(clients), cid))
      ensures |cid| > 0 && cid !in old(conns) ==> err == Some(Client404) && conns == old(conns)
      ensures |cid| > 0 && cid in old(conns) ==> err.None? && conns == old(conns) - {cid}
      ensures |cid| > 0 && cid in old(conns) && |conns| > 0 ==>
        Least(conns.Keys, first) &&
        conns[first].cmd == LobbyCommands(old(conns[first].cmd), clients, conns[first].client)
      ensures err.Some? ==> forall cn :: cn in old(conns).Values ==> cn.cmd == old(cn.cmd)
    {
      first := "";
      if |cid| == 0 {
        return Some(ClientInvalid), first;
      }
      Unlist(cid);
      if cid !in conns {
        return Some(Client404), first;
      }
      conns := conns - {cid};
      if |conns| > 0 {
        first := RenewFirst();
      }
      err := None;
    }

    /** The splice of Leave: the first client with that ID leaves the list, the others keep their order. */
    method Unlist(cid: string)
      modifies this`clients
      ensures clients == Without(old(clients), ClientIndex(old(clients), cid))
    {
      var i := GetClientIndex(cid);
      if i >= 0 {
        clients := clients[..i] + clients[i + 1..];
      }
    }

    /**
     * The tail of Leave when connections remain: the connection under the
     * least ID has its `lobby` commands renewed if its client is valid.
     */
    method RenewFirst() returns (ghost first: string)
      requires |conns| > 0
      modifies (set k | k in conns && Least(conns.Keys, k) :: conns[k])`cmd
      ensures Least(conns.Keys, first)
      ensures conns[first].cmd == LobbyCommands(old(conns[first].cmd), clients, conns[first].client)
    {
      var least := LeastKey();
      first := least;
      var firstc := conns[least];
      if ClientModel.IsValid(firstc.client) {
        AddCommands(firstc.client, firstc);
      }
    }

    /** The key loop of Leave and sort.Strings: the first of the sorted connected IDs. */
    method LeastKey() returns (m: string)
      requires |conns| > 0
      ensures Least(conns.Keys, m)
    {
      var ids := ConnKeys();
      var sorted := SortBy(ids, (s: string) => s);
      SortBySorted(ids, (s: string) => s);
      assert |sorted| > 0;
      m := sorted[0];
      assert m in multiset(sorted);
      forall x | x in conns.Keys
        ensures !Below(x, m)
      {
        assert x in multiset(sorted);
        SortedHeadLeast(sorted, (s: string) => s, x);
      }
    }

    /** The key loop of Leave: the connected IDs, in map order. */
    method ConnKeys() returns (ids: seq<string>)
      ensures |ids| == |conns| && forall x :: x in ids <==> x in conns
    {
      ids := [];
      var rest := conns.Keys;
      while rest != {}
        invariant rest <= conns.Keys
        invariant |ids| + |rest| == |conns|
        invariant forall x :: x in ids <==> x in conns.Keys - rest
        decreases |rest|
      {
        var k :| k in rest;
        ids := ids + [k];
        rest := rest - {k};
      }
    }

    /**
     * addCommands for client c, whose connection is cn: nothing for an
     * invalid client; otherwise the `lobby` group is removed and, when the
     * lobby has clients, added back with leave and get, plus kick and start
     * when c is Clients[0].
     */
    method AddCommands(c: ClientModel.Client, cn: Conn.Connection)
      modifies cn`cmd
      ensures cn.cmd == LobbyCommands(old(cn.cmd), clients, c)
    {
      if !ClientModel.IsValid(c) {
        return;
      }
      cn.RemoveCommandsByGroup("lobby");
      var strct: Conn.MessageStruct := map["leave" := "lobby.leave", "get" := "lobby.get"];
      if |clients| == 0 {
        return;
      }
      if clients[0] == c {
        strct := strct["kick" := "lobby.kick"];
        strct := strct["start" := "lobby.start"];
      }
      cn.AddCommand("lobby", strct);
    }

    /**
     * The `kick` command: an empty target ID does nothing; a target that is
     * not a valid listed client is an error with nothing changed; otherwise
     * the target leaves. The lookup by ID is the list's first client with
     * that ID, or the zero Client.
     */
    method Kick(target: string) returns (err: Option<LobbyError>, ghost first: string)
      modifies this`clients, this`conns, (set k | k in conns && Least(conns.Keys - {target}, k) :: conns[k])`cmd
      ensures |target| == 0 ==> err.None? && clients == old(clients) && conns == old(conns)
      ensures |target| > 0 && !Kickable(old(clients), target) ==>
        err == Some(ErrTargetInvalid) && clients == old(clients) && conns == old(conns)
      ensures |target| > 0 && Kickable(old(clients), target) ==>
        err.None? && clients == Without(old(clients), ClientIndex(old(clients), target)) &&
        conns == old(conns) - {target}
      ensures |target| > 0 && Kickable(old(clients), target) && target in old(conns) && |conns| > 0 ==>
        Least(conns.Keys, first) &&
        conns[first].cmd == LobbyCommands(old(conns[first].cmd), clients, conns[first].client)
      ensures err.Some? || target !in old(conns) ==> forall cn :: cn in old(conns).Values ==> cn.cmd == old(cn.cmd)
    {
      first := "";
      if |target| > 0 {
        var i := GetClientIndex(target);
        var t := if i >= 0 then clients[i] else ClientModel.ZeroClient;
        if !ClientModel.IsValid(t) {
          return Some(ErrTargetInvalid), first;
        }
        assert t.id == target;
        if target !in conns {
          assert conns - {target} == conns;
        }
        var e;
        e, first := Leave(target);
      }
      return None, first;
    }

    /** SubscribeInsert: one new channel appended. */
    method SubscribeInsert() returns (ch: Chan)
      modifies this`insert, this`nextChan
      ensures insert == old(insert) + [ch]
      ensures ch == old(nextChan) && nextChan == old(nextChan) + 1
    {
      ch := nextChan;
      nextChan := nextChan + 1;
      insert := insert + [ch];
    }

    /** SubscribeRemove: one new channel appended. */
    method SubscribeRemove() returns (ch: Chan)
      modifies this`remove, this`nextChan
      ensures remove == old(remove) + [ch]
      ensures ch == old(nextChan) && nextChan == old(nextChan) + 1
    {
      ch := nextChan;
      nextChan := nextChan + 1;
      remove := remove + [ch];
    }

    method RemoveSubscribeInsert(ch: Chan)
      modifies this`insert
      ensures insert == RemoveSwap(old(insert), ch)
    {
      insert := RemoveSubscribe(insert, ch);
    }

    method RemoveSubscribeRemove(ch: Chan)
      modifies this`remove
      ensures remove == RemoveSwap(old(remove), ch)
    {
      remove := RemoveSubscribe(remove, ch);
    }

    /** removesubscribe: the scan for the first match, then the swap with the last and the truncation. */
    static method RemoveSubscribe(slice: seq<Chan>, ch: Chan) returns (a: seq<Chan>)
      ensures a == RemoveSwap(slice, ch)
    {
      a := slice;
      for i := 0 to |slice|
        invariant ch !in slice[..i]
      {
        if slice[i] == ch {
          assert FirstIndex(slice, ch) == i;
          a := a[i := a[|a| - 1]];
          a := a[..|a| - 1];
          return;
        }
        assert slice[..i + 1] == slice[..i] + [slice[i]];
      }
      assert slice[..|slice|] == slice;
    }
  }

  // ---------------------------------------------------------------------
  // Lemmas

  /** Removing a subscribed channel takes exactly one copy of it out; an absent one changes nothing. */
  lemma RemoveSwapRemovesOne(s: seq<Chan>, ch: Chan)
    ensures ch !in s ==> RemoveSwap(s, ch) == s
    ensures ch in s ==>
      |RemoveSwap(s, ch)| == |s| - 1 && multiset(RemoveSwap(s, ch)) == multiset(s) - multiset{ch}
  {
    var i := FirstIndex(s, ch);
    if i >= 0 {
      SwapTruncate(s, i);
    }
  }

  /** Moving the last element into slot i and dropping the last slot takes out one copy of s[i]. */
  lemma SwapTruncate(s: seq<Chan>, i: int)
    requires 0 <= i < |s|
    ensures multiset(s[i := s[|s| - 1]][..|s| - 1]) == multiset(s) - multiset{s[i]}
  {
    var n := |s| - 1;
    var r := s[i := s[n]][..n];
    assert s == s[..i] + [s[i]] + s[i + 1..];
    if i < n {
      assert s[i + 1..] == s[i + 1..n] + [s[n]];
      assert r == s[..i] + [s[n]] + s[i + 1..n];
    } else {
      assert r == s[..i];
    }
  }

  /** Subscribing and then unsubscribing the new channel gives back the old list. */
  lemma SubscribeThenRemove(s: seq<Chan>, ch: Chan)
    requires ch !in s
    ensures RemoveSwap(s + [ch], ch) == s
  {
    assert FirstIndex(s + [ch], ch) == |s| by {
      assert (s + [ch])[..|s|] == s;
    }
  }

  /** A member other than Clients[0] ends up with exactly leave and get under `lobby`; other groups are untouched. */
  lemma MemberCommands(cmd: Conn.Table, clients: seq<ClientModel.Client>, c: ClientModel.Client)
    requires ClientModel.IsValid(c) && |clients| > 0 && clients[0] != c
    ensures LobbyCommands(cmd, clients, c)["lobby"].Keys == {"leave", "get"}
    ensures forall g :: g != "lobby" ==> (g in LobbyCommands(cmd, clients, c) <==> g in cmd)
  {
  }

  /** Clients[0] additionally gets kick and start. */
  lemma OwnerCommands(cmd: Conn.Table, clients: seq<ClientModel.Client>)
    requires |clients| > 0 && ClientModel.IsValid(clients[0])
    ensures LobbyCommands(cmd, clients, clients[0])["lobby"].Keys == {"leave", "get", "kick", "start"}
  {
  }

  /** With no clients the `lobby` group is removed and not given back; an invalid client keeps its table. */
  lemma EmptyLobbyCommands(cmd: Conn.Table, clients: seq<ClientModel.Client>, c: ClientModel.Client)
    ensures |clients| == 0 && ClientModel.IsValid(c) ==> "lobby" !in LobbyCommands(cmd, clients, c)
    ensures !ClientModel.IsValid(c) ==> LobbyCommands(cmd, clients, c) == cmd
  {
  }

  /** Validation accepts exactly the five named types. */
  lemma ValidateNamedTypes(t: LobbyType)
    ensures Validate(t).None? <==> t in {TypeBasic, TypeOriginal, TypeAvalon, TypeHunter, TypeTrumpmode}
  {
  }

  /** Equal ignores invalid clients: two lists of the same length with the same valid IDs compare equal. */
  lemma ValidIdsSkipInvalid(cs: seq<ClientModel.Client>, c: ClientModel.Client)
    requires !ClientModel.IsValid(c)
    ensures ValidIds(cs + [c]) == ValidIds(cs)
  {
    assert (cs + [c])[..|cs|] == cs;
  }
}
