/**
 * The map-based game of internal/game/game.go (players in a map keyed by
 * client ID, their order in `playerids`, the captain as an ID) and the
 * round phases of internal/game/round.go that run on it: the deciding
 * phase, the `decide` callback and the end-of-round tally. Go's map
 * iteration order is unspecified, so every loop over a map picks its next
 * key nondeterministically; `rand.Intn(n)` is a nondeterministic pick in
 * [0, n).
 */
module MapGame {
  import opened Wrappers
  import opened GamePlayer
  import opened GameOption
  import opened GameRound
  import opened GameRoles
  import opened DrawOrder
  import ClientModel

  datatype GameError = ErrPercivalNotAvalon | ErrInvalidClients | ErrInvalidPlayer

  const ZeroRounds: Rounds := [TableRound(0, 0), TableRound(0, 0), TableRound(0, 0), TableRound(0, 0), TableRound(0, 0)]

  /** The roles of the players named by ids, in the order of ids. */
  function RolesAlong(ps: map<string, Player>, ids: seq<string>): (rs: seq<Role>)
    requires forall j :: 0 <= j < |ids| ==> ids[j] in ps
    ensures |rs| == |ids| && forall j :: 0 <= j < |ids| ==> rs[j] == ps[ids[j]].role
  {
    seq(|ids|, j requires 0 <= j < |ids| => ps[ids[j]].role)
  }

  /**
   * The newer mask: how a viewer of role `viewer` sees another player of
   * role `target`. Percival sees Merlin and Morgana both as Merlin, Morgana
   * sees only the spies, a Default viewer sees the truth.
   */
  function MaskRole(viewer: Role, target: Role): Role
  {
    match viewer
    case Resistance => Resistance
    case Spy => if target == Merlin || target == Percival then Resistance else target
    case Merlin => if target == Percival || target == Morgana then Resistance else target
    case Percival => if target == Merlin || target == Morgana then Merlin else Resistance
    case Morgana => if target != Spy then Resistance else target
    case Default => target
  }

  /**
   * A possible result of maskPlayers for `viewer`: some of the valid players
   * (iteration stops at the first invalid one met, in whatever order the
   * map yields them), each keyed by its ID, the viewer's own entry as it
   * is and every other masked; all of them when every player is valid.
   */
  ghost predicate MaskOutcome(ps: map<string, Player>, viewer: Player, arr: map<string, Player>)
  {
    arr.Keys <= ps.Keys &&
    (forall k :: k in arr ==>
      IsValid(ps[k]) &&
      arr[k] == (if k == viewer.client.id then ps[k] else ps[k].(role := MaskRole(viewer.role, ps[k].role)))) &&
    ((forall k :: k in ps ==> IsValid(ps[k])) ==> arr.Keys == ps.Keys)
  }

  /** The first position of ids naming an invalid player, |ids| when there is none. */
  function FirstInvalid(ps: map<string, Player>, ids: seq<string>): (i: nat)
    requires forall j :: 0 <= j < |ids| ==> ids[j] in ps
    ensures i <= |ids|
    ensures forall j :: 0 <= j < i ==> IsValid(ps[ids[j]])
    ensures i < |ids| ==> !IsValid(ps[ids[i]])
  {
    if |ids| == 0 then 0
    else if !IsValid(ps[ids[0]]) then 0
    else 1 + FirstInvalid(ps, ids[1..])
  }

  /**
   * The round table row NewGame looks up; a player count with no row (fewer
   * than five distinct IDs) reads Go's zero value.
   */
  function RoundsFor(n: int): (r: Rounds)
    ensures 5 <= n <= 8 ==> r == RoundDefaults[n]
    ensures n < 5 || n > 8 ==> r == ZeroRounds
  {
    RoundDefaultsRows();
    if n in RoundDefaults then RoundDefaults[n] else ZeroRounds
  }

  /** Every connection is filed under its client's ID, as the connection registry files them. */
  ghost predicate ClientsById(clients: map<string, ClientModel.Client>)
  {
    forall k :: k in clients ==> clients[k].id == k
  }

  /** Every player is keyed by its client's ID, and ids names exactly the players. */
  ghost predicate Keyed(ps: map<string, Player>, ids: seq<string>)
  {
    (forall k :: k in ps ==> ps[k].id == k && ps[k].client.id == k) &&
    (forall j :: 0 <= j < |ids| ==> ids[j] in ps) &&
    (forall k :: k in ps ==> k in ids)
  }

  /** A valid player below the first invalid position moves that position's lower bound on. */
  lemma FirstInvalidPast(ps: map<string, Player>, ids: seq<string>, j: int)
    requires forall j' :: 0 <= j' < |ids| ==> ids[j'] in ps
    requires 0 <= j < |ids| && j <= FirstInvalid(ps, ids) && IsValid(ps[ids[j]])
    ensures j + 1 <= FirstInvalid(ps, ids)
  {
  }

  /** An invalid player at a position no later than the first invalid one is the first invalid one. */
  lemma FirstInvalidAt(ps: map<string, Player>, ids: seq<string>, j: int)
    requires forall j' :: 0 <= j' < |ids| ==> ids[j'] in ps
    requires 0 <= j < |ids| && j <= FirstInvalid(ps, ids) && !IsValid(ps[ids[j]])
    ensures FirstInvalid(ps, ids) == j
  {
  }

  /** The decide registrations for ids: each named player, as the callback captures it. */
  function Registered(ps: map<string, Player>, ids: seq<string>): (r: map<string, Player>)
    requires forall j :: 0 <= j < |ids| ==> ids[j] in ps
    ensures r.Keys == set j | 0 <= j < |ids| :: ids[j]
    ensures forall k :: k in r ==> r[k] == ps[k]
  {
    if |ids| == 0 then map[] else Registered(ps, ids[..|ids| - 1])[ids[|ids| - 1] := ps[ids[|ids| - 1]]]
  }

  /** One more registration extends the registered map by that player. */
  lemma RegisteredStep(m: map<string, Player>, ps: map<string, Player>, ids: seq<string>, j: int)
    requires forall j' :: 0 <= j' < |ids| ==> ids[j'] in ps
    requires 0 <= j < |ids|
    ensures m + Registered(ps, ids[..j + 1]) == (m + Registered(ps, ids[..j]))[ids[j] := ps[ids[j]]]
  {
    assert ids[..j + 1][..j] == ids[..j];
  }

  /** ps is ps0 with at most the roles changed, and ids a rearrangement of ids0. */
  ghost predicate Reassigned(ps0: map<string, Player>, ps: map<string, Player>, ids0: seq<string>, ids: seq<string>)
  {
    ps.Keys == ps0.Keys && (forall k :: k in ps ==> ps[k] == ps0[k].(role := ps[k].role)) &&
    |ids| == |ids0| && multiset(ids) == multiset(ids0)
  }

  /**
   * The draw state: ps is ps0 with only roles changed, ids a rearrangement
   * of ids0 naming players only, the first n entries the pool. When the IDs
   * are distinct, the players past the pool hold the roles in tail.
   */
  ghost predicate Drawn(ps0: map<string, Player>, ps: map<string, Player>, ids0: seq<string>, ids: seq<string>,
                        n: int, tail: seq<Role>, good: bool)
  {
    Reassigned(ps0, ps, ids0, ids) && 0 <= n <= |ids| && |tail| == |ids| - n &&
    (forall j :: 0 <= j < |ids| ==> ids[j] in ps) &&
    (good ==> Distinct(ids) && forall j :: n <= j < |ids| ==> ps[ids[j]].role == tail[j - n])
  }

  /** The draw state once the spies are out: specials in front of the spies, the pool all Resistance. */
  ghost predicate Stage(ps0: map<string, Player>, ps: map<string, Player>, ids0: seq<string>, ids: seq<string>,
                        n: int, picked: seq<Role>, s: nat, good: bool)
  {
    Drawn(ps0, ps, ids0, ids, n, Reverse(picked) + Repeat(Spy, s), good) &&
    (good ==> forall j :: 0 <= j < n ==> ps[ids[j]].role == Resistance)
  }

  /**
   * The outcome a `decide` records: the payload counts only for a Spy or
   * Morgana; every other role succeeds whatever it sends.
   */
  function DecideOutcome(role: Role, success: bool): (ok: bool)
    ensures !ok <==> (role == Spy || role == Morgana) && !success
  {
    if role == Spy || role == Morgana then success else true
  }

  class Game {
    var kind: GameType
    var players: map<string, Player>
    var playerids: seq<string>
    var rounds: Rounds
    var option: GameOption.Option
    var captain: string
    /** The players whose connection has a registered `decide` command, as the command captured them. */
    var deciders: map<string, Player>

    /** Every player is keyed by its client's ID, and playerids names exactly the players. */
    ghost predicate Valid()
      reads this
    {
      Keyed(players, playerids)
    }

    /** The Game literal NewGame starts from. */
    constructor (t: GameType, o: GameOption.Option)
      ensures kind == t && option == o && players == map[] && playerids == [] && rounds == ZeroRounds
      ensures captain == "" && deciders == map[]
    {
      kind := t;
      option := o;
      players := map[];
      playerids := [];
      rounds := ZeroRounds;
      captain := "";
      deciders := map[];
    }

    /**
     * NewGame: Percival only with Avalon, then between 5 and 10
     * connections; one player per connection keyed by its client's ID, the
     * IDs appended to playerids in map order, the round table row for
     * min(#players, 8) (the zero rounds when the table has no such row),
     * then the roles.
     */
    static method NewGame(clients: map<string, ClientModel.Client>, t: GameType, o: GameOption.Option)
      returns (g: Game?, err: Wrappers.Option<GameError>)
      ensures err.Some? <==> g == null
      ensures Has(o, OptionPercival) && t != TypeAvalon ==> err == Some(ErrPercivalNotAvalon)
      ensures !(Has(o, OptionPercival) && t != TypeAvalon) && (|clients| < 5 || |clients| > 10) ==>
        err == Some(ErrInvalidClients)
      ensures !(Has(o, OptionPercival) && t != TypeAvalon) && 5 <= |clients| <= 10 ==> err.None?
      ensures g != null ==>
        fresh(g) && g.Valid() && g.kind == t && g.option == o && |g.playerids| == |clients| &&
        (forall k :: k in g.players ==> g.players[k].client in clients.Values)
      ensures g != null && ClientsById(clients) ==>
        g.players.Keys == clients.Keys && Distinct(g.playerids) &&
        (forall k :: k in clients ==> g.players[k].client == clients[k]) &&
        g.rounds == RoundDefaults[if |clients| > 8 then 8 else |clients|] &&
        RolesAlong(g.players, g.playerids) == Layout(|clients|, t, o)
    {
      g := new Game(t, o);
      if Has(o, OptionPercival) && t != TypeAvalon {
        return null, Some(ErrPercivalNotAvalon);
      }
      if |clients| < 5 || |clients| > 10 {
        return null, Some(ErrInvalidClients);
      }
      g.AddPlayers(clients);
      var playerLen := |g.players|;
      if playerLen > 8 {
        playerLen := 8;
      }
      g.rounds := RoundsFor(playerLen);
      g.AssignRoles();
      err := None;
    }

    /** The loop of NewGame: one player per connection, keyed by its client's ID, appended in map order. */
    method AddPlayers(clients: map<string, ClientModel.Client>)
      requires players == map[] && playerids == []
      modifies this`players, this`playerids
      ensures Valid() && |playerids| == |clients|
      ensures forall k :: k in players ==> players[k].client in clients.Values
      ensures ClientsById(clients) ==>
        players.Keys == clients.Keys && Distinct(playerids) && forall k :: k in clients ==> players[k].client == clients[k]
    {
      ghost var keyed := ClientsById(clients);
      var rest := clients.Keys;
      while rest != {}
        invariant rest <= clients.Keys
        invariant |playerids| + |rest| == |clients|
        invariant Valid()
        invariant forall k :: k in players ==> players[k].client in clients.Values
        invariant keyed ==> players.Keys == clients.Keys - rest && Distinct(playerids)
        invariant keyed ==> forall k :: k in players ==> players[k].client == clients[k]
        decreases |rest|
      {
        var k :| k in rest;
        var c := clients[k];
        players := players[c.id := NewPlayer(c)];
        playerids := playerids + [c.id];
        rest := rest - {k};
      }
    }

    /**
     * assignRoles: the pool is playerids itself, so the draws rearrange
     * playerids in place (it stays a rearrangement of its old contents). With
     * distinct IDs, the roles read along the final playerids are the layout
     * of the draw rules; only roles change.
     */
    method AssignRoles()
      requires Valid()
      modifies this`players, this`playerids
      ensures Valid() && Reassigned(old(players), players, old(playerids), playerids)
      ensures Distinct(old(playerids)) ==>
        Distinct(playerids) && RolesAlong(players, playerids) == Layout(|playerids|, kind, option)
    {
      ghost var ps0, ids0, good := players, playerids, Distinct(playerids);
      ghost var picked: seq<Role>;
      var n, spies := DrawSpies(ps0, ids0, good);
      n, picked := DrawSpecials(n, ps0, ids0, spies, good);
      Conclude(ps0, players, ids0, playerids, n, picked, spies, kind, option, good);
    }

    /** The second half of assignRoles: the special roles, in order, until they run out or the pool does. */
    method DrawSpecials(n: int, ghost ps0: map<string, Player>, ghost ids0: seq<string>, ghost s: nat, ghost good: bool)
      returns (n': int, ghost picked: seq<Role>)
      requires Stage(ps0, players, ids0, playerids, n, [], s, good)
      modifies this`players, this`playerids
      ensures Stage(ps0, players, ids0, playerids, n', picked, s, good)
      ensures var sp := Specials(kind, option);
        picked == sp || (n' == 0 && |picked| <= |sp| && picked == sp[..|picked|])
    {
      var done: bool;
      n', done, picked := DrawMerlin(n, ps0, ids0, s, good);
      if !done {
        var percival;
        percival, n', done, picked := DrawPercival(n', ps0, ids0, picked, s, good);
        if !done {
          n', picked := DrawMorgana(percival, n', ps0, ids0, picked, s, good);
        }
      }
    }

    /** The first half of assignRoles: the spies drawn from the pool, every player left in it made Resistance. */
    method DrawSpies(ghost ps0: map<string, Player>, ghost ids0: seq<string>, ghost good: bool)
      returns (n: int, spies: nat)
      requires players == ps0 && playerids == ids0 && good == Distinct(ids0) && Valid()
      modifies this`players, this`playerids
      ensures spies == SpyCount(|playerids|)
      ensures Stage(ps0, players, ids0, playerids, n, [], spies, good)
    {
      var amount := |playerids|;
      spies := SpyCount(amount);
      n := amount;
      ghost var tail: seq<Role> := [];
      for i := 0 to spies
        invariant n == amount - i && tail == Repeat(Spy, i)
        invariant Drawn(ps0, players, ids0, playerids, n, tail, good)
      {
        var spyindex;
        spyindex, n := Draw(Spy, n, ps0, ids0, tail, good);
        RepeatPrepend(Spy, i);
        tail := [Spy] + tail;
      }
      FillResistance(n, ps0, ids0, tail, good);
      NothingPicked(tail);
    }

    /** The Resistance loop of assignRoles: every player the pool names becomes Resistance. */
    method FillResistance(n: int, ghost ps0: map<string, Player>, ghost ids0: seq<string>, ghost tail: seq<Role>,
                          ghost good: bool)
      requires Drawn(ps0, players, ids0, playerids, n, tail, good)
      modifies this`players, this`playerids
      ensures Drawn(ps0, players, ids0, playerids, n, tail, good)
      ensures good ==> forall j :: 0 <= j < n ==> players[playerids[j]].role == Resistance
      ensures playerids == old(playerids)
    {
      for j := 0 to n
        invariant Drawn(ps0, players, ids0, playerids, n, tail, good)
        invariant good ==> forall j' :: 0 <= j' < j ==> players[playerids[j']].role == Resistance
        invariant playerids == old(playerids)
      {
        var v := playerids[j];
        if v in players {
          var p := players[v];
          ResistanceKeeps(ps0, players, ids0, playerids, n, tail, good, j);
          players := players[v := p.(role := Resistance)];
        }
      }
    }

    /** The Avalon block of assignRoles: Merlin is drawn, unless the pool is empty, which ends assignRoles. */
    method DrawMerlin(n: int, ghost ps0: map<string, Player>, ghost ids0: seq<string>, ghost s: nat, ghost good: bool)
      returns (n': int, done: bool, ghost picked: seq<Role>)
      requires Stage(ps0, players, ids0, playerids, n, [], s, good)
      modifies this`players, this`playerids
      ensures done <==> kind == TypeAvalon && n <= 0
      ensures done ==> n' == n && picked == [] && players == old(players) && playerids == old(playerids)
      ensures !done ==> picked == MerlinPart(kind)
      ensures Stage(ps0, players, ids0, playerids, n', picked, s, good)
    {
      n', done, picked := n, false, [];
      if kind == TypeAvalon {
        if n <= 0 {
          return n, true, [];
        }
        var merlin;
        merlin, n' := DrawSpecial(Merlin, n, ps0, ids0, [], s, good);
        picked := [Merlin];
      }
    }

    /**
     * The Percival block of assignRoles: when the mask shares a bit with
     * OptionPercival, Percival is drawn, unless the pool is empty, which
     * ends assignRoles. The drawn pool index stays -1 otherwise.
     */
    method DrawPercival(n: int, ghost ps0: map<string, Player>, ghost ids0: seq<string>, ghost picked: seq<Role>,
                        ghost s: nat, ghost good: bool)
      returns (percival: int, n': int, done: bool, ghost picked': seq<Role>)
      requires Stage(ps0, players, ids0, playerids, n, picked, s, good) && picked == MerlinPart(kind)
      modifies this`players, this`playerids
      ensures done <==> Has(option, OptionPercival) && n <= 0
      ensures done ==> n' == 0 && picked' == picked
      ensures !done ==> (percival == -1 <==> !Has(option, OptionPercival))
      ensures !done ==> picked' == picked + (if Has(option, OptionPercival) then [Percival] else [])
      ensures Stage(ps0, players, ids0, playerids, n', picked', s, good)
    {
      var op := option;
      percival, n', done, picked' := -1, n, false, picked;
      if Has(op, OptionPercival) {
        if n <= 0 {
          return percival, n, true, picked;
        }
        percival, n' := DrawSpecial(Percival, n, ps0, ids0, picked, s, good);
        picked' := picked + [Percival];
      }
    }

    /**
     * The Morgana block of assignRoles: when the mask shares a bit with
     * OptionMorgana, Percival is drawn if the Percival block did not draw
     * one, then Morgana; an empty pool ends assignRoles at either step.
     */
    method DrawMorgana(percival: int, n: int, ghost ps0: map<string, Player>, ghost ids0: seq<string>,
                       ghost picked: seq<Role>, ghost s: nat, ghost good: bool)
      returns (n': int, ghost picked': seq<Role>)
      requires Stage(ps0, players, ids0, playerids, n, picked, s, good)
      requires percival == -1 <==> !Has(option, OptionPercival)
      requires picked == MerlinPart(kind) + (if Has(option, OptionPercival) then [Percival] else [])
      modifies this`players, this`playerids
      ensures Stage(ps0, players, ids0, playerids, n', picked', s, good)
      ensures var sp := Specials(kind, option);
        picked' == sp || (n' == 0 && |picked'| <= |sp| && picked' == sp[..|picked'|])
    {
      var op := option;
      ghost var sp := Specials(kind, option);
      SpecialsShape(kind, option);
      n', picked' := n, picked;
      if Has(op, OptionMorgana) {
        assert sp == MerlinPart(kind) + [Percival, Morgana];
        if n' <= 0 {
          assert picked' == sp[..|picked'|];
          return;
        }
        if percival == -1 {
          var p;
          p, n' := DrawSpecial(Percival, n', ps0, ids0, picked', s, good);
          picked' := picked' + [Percival];
        }
        if n' <= 0 {
          assert picked' == sp[..|picked'|];
          return;
        }
        var morgana;
        morgana, n' := DrawSpecial(Morgana, n', ps0, ids0, picked', s, good);
        picked' := picked' + [Morgana];
      }
    }

    /** One special draw of assignRoles: a random pool entry gets role r and leaves the pool. */
    method DrawSpecial(r: Role, n: int, ghost ps0: map<string, Player>, ghost ids0: seq<string>,
                       ghost picked: seq<Role>, ghost s: nat, ghost good: bool)
      returns (i: int, n': int)
      requires Stage(ps0, players, ids0, playerids, n, picked, s, good) && n > 0
      modifies this`players, this`playerids
      ensures 0 <= i < n && n' == n - 1
      ensures Stage(ps0, players, ids0, playerids, n', picked + [r], s, good)
    {
      ghost var ps, ids := players, playerids;
      i, n' := Draw(r, n, ps0, ids0, Reverse(picked) + Repeat(Spy, s), good);
      SpecialKeeps(ps0, ps, ids0, ids, n, picked, s, good, i, r);
    }

    /**
     * One draw: a random pool entry, when it names a player, gets role r and
     * is swapped to the end of the shrinking pool inside playerids.
     */
    method Draw(r: Role, n: int, ghost ps0: map<string, Player>, ghost ids0: seq<string>, ghost tail: seq<Role>,
                ghost good: bool)
      returns (i: int, n': int)
      requires Drawn(ps0, players, ids0, playerids, n, tail, good) && n > 0
      modifies this`players, this`playerids
      ensures 0 <= i < n && n' == n - 1 && playerids == DeleteIndex(old(playerids), n, i)
      ensures players == old(players)[old(playerids)[i] := old(players)[old(playerids)[i]].(role := r)]
      ensures Drawn(ps0, players, ids0, playerids, n', [r] + tail, good)
    {
      i :| 0 <= i < n;
      var id := playerids[i];
      n' := n;
      if id in players {
        var p := players[id];
        ghost var ps, ids := players, playerids;
        players := players[id := p.(role := r)];
        playerids := DeleteIndex(playerids, n, i);
        n' := n - 1;
        DrawKeeps(ps0, ps, ids0, ids, n, tail, good, i, r);
      }
    }

    /** SetCaptain: the captain becomes a random player's ID. */
    method SetCaptain()
      requires |players| > 0
      modifies this`captain
      ensures captain in players
    {
      var ids: seq<string> := [];
      var rest := players.Keys;
      while rest != {}
        invariant rest <= players.Keys
        invariant forall j :: 0 <= j < |ids| ==> ids[j] in players
        invariant |ids| + |rest| == |players|
        decreases |rest|
      {
        var k :| k in rest;
        ids := ids + [k];
        rest := rest - {k};
      }
      var c :| 0 <= c < |ids|;
      captain := ids[c];
    }

    /** maskPlayers inside Send: a fresh map, filled in map order until the first invalid player. */
    method MaskPlayers(p: Player) returns (arr: map<string, Player>)
      requires Valid()
      ensures MaskOutcome(players, p, arr)
    {
      var id := p.client.id;
      arr := map[];
      var rest := players.Keys;
      var broke := false;
      while rest != {}
        invariant rest <= players.Keys
        invariant arr.Keys == players.Keys - rest
        invariant forall k :: k in arr ==>
          IsValid(players[k]) &&
          arr[k] == (if k == id then players[k] else players[k].(role := MaskRole(p.role, players[k].role)))
        decreases |rest|
      {
        var k :| k in rest;
        var v := players[k];
        if !IsValid(v) {
          broke := true;
          break;
        }
        if id != k {
          v := v.(role := MaskRole(p.role, v.role));
        }
        arr := arr[v.client.id := v];
        rest := rest - {k};
      }
    }

    /** Send: every valid player receives a masked copy of the game; the game itself is not changed. */
    method Send() returns (views: map<string, map<string, Player>>)
      requires Valid()
      ensures views.Keys == set k | k in players && IsValid(players[k])
      ensures forall k :: k in views ==> MaskOutcome(players, players[k], views[k])
    {
      views := map[];
      var rest := players.Keys;
      while rest != {}
        invariant rest <= players.Keys
        invariant views.Keys == set k | k in players.Keys - rest && IsValid(players[k])
        invariant forall k :: k in views ==> MaskOutcome(players, players[k], views[k])
        decreases |rest|
      {
        var k :| k in rest;
        var v := players[k];
        if IsValid(v) {
          var view := MaskPlayers(v);
          views := views[k := view];
        }
        rest := rest - {k};
      }
    }

    /**
     * startDecidingPhase: a `decide` command is registered for each
     * assignee in order; the first invalid one stops the loop with
     * ErrInvalidPlayer, leaving the earlier registrations in place.
     */
    method StartDecidingPhase(ri: int, mi: int) returns (err: Wrappers.Option<GameError>)
      requires 0 <= ri < 5 && 0 <= mi < 5
      requires forall j :: 0 <= j < |rounds[ri].missions[mi].assignees| ==> rounds[ri].missions[mi].assignees[j] in players
      modifies this`deciders
      ensures var a := rounds[ri].missions[mi].assignees;
        var cut := FirstInvalid(players, a);
        (err.None? <==> cut == |a|) && (err.Some? ==> err.value == ErrInvalidPlayer) &&
        deciders == old(deciders) + Registered(players, a[..cut])
    {
      var assignees, ps := rounds[ri].missions[mi].assignees, players;
      for j := 0 to |assignees|
        invariant j <= FirstInvalid(ps, assignees)
        invariant deciders == old(deciders) + Registered(ps, assignees[..j])
      {
        var v := assignees[j];
        var p := ps[v];
        if !IsValid(p) {
          FirstInvalidAt(ps, assignees, j);
          return Some(ErrInvalidPlayer);
        }
        FirstInvalidPast(ps, assignees, j);
        RegisteredStep(old(deciders), ps, assignees, j);
        deciders := deciders[v := p];
      }
      assert assignees[..|assignees|] == assignees;
      return None;
    }

    /**
     * The `decide` callback of the player registered under pid: a Spy or
     * Morgana decides as they say, anyone else always succeeds; the ID goes
     * to the round's failure or success list, the registration is removed,
     * and the phase completes once the lists together reach the team size.
     */
    method Decide(ri: int, pid: string, success: bool) returns (complete: bool)
      requires 0 <= ri < 5 && pid in deciders
      modifies this`rounds, this`deciders
      ensures var p := old(deciders)[pid];
        var ok := DecideOutcome(p.role, success);
        var r := old(rounds)[ri];
        rounds == old(rounds)[ri := if ok then r.(successIds := r.successIds + [p.client.id])
                                   else r.(failureIds := r.failureIds + [p.client.id])]
      ensures deciders == old(deciders) - {pid}
      ensures complete <==> |rounds[ri].successIds| + |rounds[ri].failureIds| == rounds[ri].assignees as int
    {
      var p := deciders[pid];
      var ok := true;
      if p.role == Spy || p.role == Morgana {
        ok := success;
      }
      var r := rounds[ri];
      if !ok {
        r := r.(failureIds := r.failureIds + [p.client.id]);
      } else {
        r := r.(successIds := r.successIds + [p.client.id]);
      }
      rounds := rounds[ri := r];
      var round := rounds[ri];
      var want := round.assignees as int;
      var have := |round.successIds| + |round.failureIds|;
      deciders := deciders - {pid};
      complete := have == want;
    }

    /**
     * The end of runRound: all five proposals rejected (mi == 5) ends the
     * game at once; otherwise the round's failure count becomes the number
     * of failure votes (as a uint8) and the game ends when exactly three
     * rounds are lost or exactly three are won.
     */
    method EndRound(ri: int, mi: int) returns (over: bool)
      requires 0 <= ri < 5 && 0 <= mi <= 5
      modifies this`rounds
      ensures mi == 5 ==> over && rounds == old(rounds)
      ensures mi < 5 ==>
        rounds == old(rounds)[ri := old(rounds)[ri].(failure := (|old(rounds)[ri].failureIds| % 256) as u8)] &&
        (over <==> CountConclusion(rounds, 5, StatusLost) == 3 || CountConclusion(rounds, 5, StatusWon) == 3)
    {
      if mi == 5 {
        return true;
      }
      var r := rounds[ri];
      rounds := rounds[ri := r.(failure := (|r.failureIds| % 256) as u8)];
      var spies, resistance := 0, 0;
      for i := 0 to 5
        invariant spies == CountConclusion(rounds, i, StatusLost)
        invariant resistance == CountConclusion(rounds, i, StatusWon)
      {
        var status := GetConclusion(rounds[i]);
        if status == StatusWon {
          resistance := resistance + 1;
        } else if status == StatusLost {
          spies := spies + 1;
        }
      }
      over := spies == 3 || resistance == 3;
    }
  }

  // ---------------------------------------------------------------------
  // Draw-step lemmas for AssignRoles

  lemma DrawKeeps(ps0: map<string, Player>, ps: map<string, Player>, ids0: seq<string>, ids: seq<string>,
                  n: int, tail: seq<Role>, good: bool, i: int, r: Role)
    requires Drawn(ps0, ps, ids0, ids, n, tail, good) && 0 <= i < n
    ensures Drawn(ps0, ps[ids[i] := ps[ids[i]].(role := r)], ids0, DeleteIndex(ids, n, i), n - 1, [r] + tail, good)
  {
    var ps' := ps[ids[i] := ps[ids[i]].(role := r)];
    var ids' := DeleteIndex(ids, n, i);
    if good {
      DeleteIndexDistinct(ids, n, i);
      forall j | n - 1 <= j < |ids'|
        ensures ps'[ids'[j]].role == ([r] + tail)[j - (n - 1)]
      {
        if j > n - 1 {
          assert ids'[j] == ids[j] && ids[j] != ids[i];
        }
      }
    }
  }

  lemma ResistanceKeeps(ps0: map<string, Player>, ps: map<string, Player>, ids0: seq<string>, ids: seq<string>,
                        n: int, tail: seq<Role>, good: bool, j: int)
    requires Drawn(ps0, ps, ids0, ids, n, tail, good) && 0 <= j < n
    requires good ==> forall j' :: 0 <= j' < j ==> ps[ids[j']].role == Resistance
    ensures Drawn(ps0, ps[ids[j] := ps[ids[j]].(role := Resistance)], ids0, ids, n, tail, good)
    ensures good ==>
      forall j' :: 0 <= j' <= j ==> ps[ids[j] := ps[ids[j]].(role := Resistance)][ids[j']].role == Resistance
  {
  }

  lemma SpecialKeeps(ps0: map<string, Player>, ps: map<string, Player>, ids0: seq<string>, ids: seq<string>,
                     n: int, picked: seq<Role>, s: nat, good: bool, i: int, r: Role)
    requires Stage(ps0, ps, ids0, ids, n, picked, s, good) && 0 <= i < n
    ensures Stage(ps0, ps[ids[i] := ps[ids[i]].(role := r)], ids0, DeleteIndex(ids, n, i), n - 1, picked + [r], s, good)
  {
    DrawKeeps(ps0, ps, ids0, ids, n, Reverse(picked) + Repeat(Spy, s), good, i, r);
    assert [r] + (Reverse(picked) + Repeat(Spy, s)) == Reverse(picked + [r]) + Repeat(Spy, s);
    if good {
      var ids' := DeleteIndex(ids, n, i);
      forall j | 0 <= j < n - 1
        ensures ids'[j] != ids[i]
      {
        var j' := if j == i then n - 1 else j;
        assert ids'[j] == ids[j'] && j' != i;
      }
    }
  }

  /** The end of assignRoles: the players stay keyed and, with distinct IDs, hold the layout along ids. */
  lemma Conclude(ps0: map<string, Player>, ps: map<string, Player>, ids0: seq<string>, ids: seq<string>,
                 n: int, picked: seq<Role>, s: nat, kind: GameType, o: GameOption.Option, good: bool)
    requires Keyed(ps0, ids0) && Stage(ps0, ps, ids0, ids, n, picked, s, good) && s == SpyCount(|ids|)
    requires var sp := Specials(kind, o);
      picked == sp || (n == 0 && |picked| <= |sp| && picked == sp[..|picked|])
    ensures Keyed(ps, ids) && Reassigned(ps0, ps, ids0, ids)
    ensures good ==> Distinct(ids) && RolesAlong(ps, ids) == Layout(|ids|, kind, o)
  {
    Finish(ps0, ps, ids0, ids, n, picked, s, Specials(kind, o), good);
    KeyedKept(ps0, ps, ids0, ids, n, Reverse(picked) + Repeat(Spy, s), good);
  }

  /** The draws keep every player keyed by its ID and every player named. */
  lemma KeyedKept(ps0: map<string, Player>, ps: map<string, Player>, ids0: seq<string>, ids: seq<string>,
                  n: int, tail: seq<Role>, good: bool)
    requires Keyed(ps0, ids0) && Drawn(ps0, ps, ids0, ids, n, tail, good)
    ensures Keyed(ps, ids)
  {
    forall k | k in ps
      ensures k in ids
    {
      assert k in multiset(ids0);
    }
  }

  /** The draws are over: with distinct IDs, the roles along playerids are the arrangement. */
  lemma Finish(ps0: map<string, Player>, ps: map<string, Player>, ids0: seq<string>, ids: seq<string>,
               n: int, picked: seq<Role>, s: nat, sp: seq<Role>, good: bool)
    requires Stage(ps0, ps, ids0, ids, n, picked, s, good)
    requires picked == sp || (n == 0 && |picked| <= |sp| && picked == sp[..|picked|])
    ensures good ==> Distinct(ids) && RolesAlong(ps, ids) == Arrange(|ids|, s, sp)
  {
    if good {
      DrawsArrange(ps, ids, n, picked, s, sp);
    }
  }

  /** The arrangement, from the draw state spelled out. */
  lemma DrawsArrange(ps: map<string, Player>, ids: seq<string>, n: int, picked: seq<Role>, s: nat, sp: seq<Role>)
    requires 0 <= n <= |ids| && |picked| + s == |ids| - n
    requires forall j :: 0 <= j < |ids| ==> ids[j] in ps
    requires forall j :: n <= j < |ids| ==> ps[ids[j]].role == (Reverse(picked) + Repeat(Spy, s))[j - n]
    requires forall j :: 0 <= j < n ==> ps[ids[j]].role == Resistance
    requires picked == sp || (n == 0 && |picked| <= |sp| && picked == sp[..|picked|])
    ensures RolesAlong(ps, ids) == Arrange(|ids|, s, sp)
  {
    var k := |picked|;
    var tail := Reverse(picked) + Repeat(Spy, s);
    assert sp[..|sp|] == sp;
    assert Min(|sp|, |ids| - s) == k;
    assert sp[..k] == picked;
    var l := Repeat(Resistance, n) + Reverse(picked) + Repeat(Spy, s);
    assert Arrange(|ids|, s, sp) == l;
    var a := RolesAlong(ps, ids);
    forall j | 0 <= j < |ids|
      ensures a[j] == l[j]
    {
      if j >= n {
        assert a[j] == tail[j - n] && l[j] == tail[j - n];
      }
    }
  }

  // ---------------------------------------------------------------------
  // Lemmas

  /**
   * With distinct player IDs the role counts follow the table: SpyCount(N)
   * spies, Merlin exactly for Avalon, Percival and Morgana as the option
   * bits ask, no Default.
   */
  lemma NewGameRoleCounts(ps: map<string, Player>, ids: seq<string>, kind: GameType, o: GameOption.Option)
    requires 5 <= |ids| <= 10 && forall j :: 0 <= j < |ids| ==> ids[j] in ps
    requires RolesAlong(ps, ids) == Layout(|ids|, kind, o)
    ensures Count(RolesAlong(ps, ids), Spy) == SpyCount(|ids|)
    ensures Count(RolesAlong(ps, ids), Merlin) == (if kind == TypeAvalon then 1 else 0)
    ensures Count(RolesAlong(ps, ids), Percival) == (if Has(o, OptionPercival) || Has(o, OptionMorgana) then 1 else 0)
    ensures Count(RolesAlong(ps, ids), Morgana) == (if Has(o, OptionMorgana) then 1 else 0)
    ensures Count(RolesAlong(ps, ids), Default) == 0
  {
    LayoutCounts(|ids|, kind, o);
  }

  /** A Percival viewer cannot tell Merlin from Morgana, and sees every other player as Resistance. */
  lemma PercivalSeesTwoMerlins(t: Role)
    ensures MaskRole(Percival, Merlin) == MaskRole(Percival, Morgana) == Merlin
    ensures t != Merlin && t != Morgana ==> MaskRole(Percival, t) == Resistance
  {
  }

  /** A Morgana viewer sees exactly the spies as spies and nobody as Merlin. */
  lemma MorganaSeesSpiesOnly(t: Role)
    ensures MaskRole(Morgana, t) == Spy <==> t == Spy
    ensures MaskRole(Morgana, t) != Merlin
  {
  }

  /** A spy cannot tell Merlin or Percival from Resistance. */
  lemma SpyCannotFindMerlin()
    ensures MaskRole(Spy, Merlin) == MaskRole(Spy, Percival) == MaskRole(Spy, Resistance) == Resistance
    ensures MaskRole(Spy, Spy) == Spy && MaskRole(Spy, Morgana) == Morgana
  {
  }

  /** Merlin sees the plain spies but not Morgana, who shows as Resistance like Percival. */
  lemma MerlinMissesMorgana()
    ensures MaskRole(Merlin, Spy) == Spy
    ensures MaskRole(Merlin, Morgana) == MaskRole(Merlin, Percival) == Resistance
  {
  }

  /** Where the two masks differ: the newer one shows Merlin to Percival, and hides Merlin from Morgana. */
  lemma MaskIterationsDiffer()
    ensures MaskRole(Percival, Merlin) == Merlin
    ensures MaskRole(Morgana, Merlin) == Resistance
  {
  }

  /** In every possible mask outcome the viewer's own entry, when listed, is the viewer's true record. */
  lemma OwnEntryUnmasked(ps: map<string, Player>, viewer: Player, arr: map<string, Player>)
    requires MaskOutcome(ps, viewer, arr) && viewer.client.id in arr
    ensures arr[viewer.client.id] == ps[viewer.client.id]
  {
  }

  /** A Resistance viewer sees every other listed player as Resistance. */
  lemma ResistanceViewerSeesNoRoles(ps: map<string, Player>, viewer: Player, arr: map<string, Player>, k: string)
    requires MaskOutcome(ps, viewer, arr) && viewer.role == Resistance
    requires k in arr && k != viewer.client.id
    ensures arr[k].role == Resistance
  {
  }

  /** When every player is valid, every viewer sees every player. */
  lemma AllValidAllListed(ps: map<string, Player>, viewer: Player, arr: map<string, Player>)
    requires MaskOutcome(ps, viewer, arr) && forall k :: k in ps ==> IsValid(ps[k])
    ensures arr.Keys == ps.Keys
  {
  }
}
