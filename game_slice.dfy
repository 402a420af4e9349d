/**
 * The slice-based game of internal/game/model.go (players in a slice, the
 * captain as an index) and the mission phases of internal/game/mission.go
 * that run on it: captain reselection and rotation, and the `choose` and
 * `vote` callbacks. A callback's call to `cancel` is modelled as a
 * returned "phase complete" flag.
 */
module SliceGame {
  import opened Wrappers
  import opened GamePlayer
  import opened GameOption
  import opened GameRound
  import opened GameRoles
  import opened DrawOrder
  import ClientModel

  datatype GameError = ErrInvalidClients | ErrMinAssignees | ErrInvalidPlayer

  /** The zero value of [5]Round. */
  const ZeroRounds: Rounds := [TableRound(0, 0), TableRound(0, 0), TableRound(0, 0), TableRound(0, 0), TableRound(0, 0)]

  /** The position of the first player with the given ID, or -1. */
  function PlayerIndex(ps: seq<Player>, id: string): (i: int)
    ensures -1 <= i < |ps|
    ensures i >= 0 ==> ps[i].id == id && forall j :: 0 <= j < i ==> ps[j].id != id
    ensures i == -1 ==> forall j :: 0 <= j < |ps| ==> ps[j].id != id
  {
    if |ps| == 0 then -1
    else if ps[0].id == id then 0
    else
      var r := PlayerIndex(ps[1..], id);
      if r == -1 then -1 else r + 1
  }

  /** The first player with the given ID, or the zero Player. */
  function PlayerById(ps: seq<Player>, id: string): (p: Player)
    ensures (exists i :: 0 <= i < |ps| && ps[i].id == id) ==> p in ps && p.id == id
    ensures (forall i :: 0 <= i < |ps| ==> ps[i].id != id) ==> p == ZeroPlayer
  {
    var i := PlayerIndex(ps, id);
    if i >= 0 then ps[i] else ZeroPlayer
  }

  /** The captain after a rejected mission: the one after the old captain's position, wrapping to 0; 0 if not found. */
  function NextCaptain(ps: seq<Player>, id: string): (i: int)
    ensures 0 <= i && (|ps| > 0 ==> i < |ps|)
  {
    var i := PlayerIndex(ps, id) + 1;
    if |ps| <= i then 0 else i
  }

  /**
   * The older mask: how a viewer of role `viewer` sees a player of role
   * `target`. The Percival branch overwrites the role with Resistance before
   * testing it, so a Percival viewer sees Resistance everywhere; Morgana and
   * Default viewers see the truth.
   */
  function OldMaskRole(viewer: Role, target: Role): Role
  {
    match viewer
    case Resistance => Resistance
    case Percival => Resistance
    case Spy => if target == Merlin || target == Percival then Resistance else target
    case Merlin => if target == Percival || target == Morgana then Resistance else target
    case _ => target
  }

  /**
   * The player list a viewer of the given role receives: every player up to
   * the first invalid one, the viewer's own entry included, each masked.
   */
  function MaskedView(ps: seq<Player>, viewer: Role): (view: seq<Player>)
    ensures |view| <= |ps|
  {
    if |ps| == 0 || !IsValid(ps[0]) then []
    else [ps[0].(role := OldMaskRole(viewer, ps[0].role))] + MaskedView(ps[1..], viewer)
  }

  /** The view lists exactly the players before the first invalid one, each masked for the viewer. */
  lemma {:induction false} MaskedViewMeaning(ps: seq<Player>, viewer: Role)
    ensures forall i :: 0 <= i < |MaskedView(ps, viewer)| ==>
              IsValid(ps[i]) && MaskedView(ps, viewer)[i] == ps[i].(role := OldMaskRole(viewer, ps[i].role))
    ensures |MaskedView(ps, viewer)| < |ps| ==> !IsValid(ps[|MaskedView(ps, viewer)|])
  {
    if |ps| > 0 && IsValid(ps[0]) {
      MaskedViewMeaning(ps[1..], viewer);
    }
  }

  /** One step of MaskPlayers' loop: a valid player is masked and added, an invalid one ends the list. */
  lemma MaskedViewAdvance(ps: seq<Player>, viewer: Role, k: int, arr: seq<Player>)
    requires 0 <= k < |ps| && arr + MaskedView(ps[k..], viewer) == MaskedView(ps, viewer)
    ensures IsValid(ps[k]) ==>
      (arr + [ps[k].(role := OldMaskRole(viewer, ps[k].role))]) + MaskedView(ps[k + 1..], viewer) == MaskedView(ps, viewer)
    ensures !IsValid(ps[k]) ==> arr == MaskedView(ps, viewer)
  {
    assert ps[k..][1..] == ps[k + 1..];
  }

  /** One "game get" message: its recipient and the masked player list it carries. */
  datatype View = View(to: string, players: seq<Player>)

  /** The messages Send writes: one per valid player, in slice order. */
  function SendPlan(all: seq<Player>, viewers: seq<Player>): seq<View>
  {
    if |viewers| == 0 then []
    else
      var rest := SendPlan(all, viewers[1..]);
      if IsValid(viewers[0]) then [View(viewers[0].id, MaskedView(all, viewers[0].role))] + rest
      else rest
  }

  /**
   * What the plan sends: every message goes to a valid viewer and carries
   * that viewer's masked list, and every viewer gets one when all are valid.
   */
  lemma {:induction false} SendPlanMeaning(all: seq<Player>, viewers: seq<Player>)
    ensures |SendPlan(all, viewers)| <= |viewers|
    ensures forall m :: m in SendPlan(all, viewers) ==>
              exists v :: v in viewers && IsValid(v) && m == View(v.id, MaskedView(all, v.role))
    ensures (forall v :: v in viewers ==> IsValid(v)) ==> |SendPlan(all, viewers)| == |viewers|
  {
    if |viewers| > 0 {
      SendPlanMeaning(all, viewers[1..]);
      forall m | m in SendPlan(all, viewers[1..])
        ensures exists v :: v in viewers && IsValid(v) && m == View(v.id, MaskedView(all, v.role))
      {
        var v :| v in viewers[1..] && IsValid(v) && m == View(v.id, MaskedView(all, v.role));
        assert v in viewers;
      }
    }
  }

  /** SendPlan unfolded once: the first viewer's message, if any, then the rest. */
  lemma SendPlanStep(all: seq<Player>, vs: seq<Player>)
    requires |vs| > 0
    ensures SendPlan(all, vs) ==
      (if IsValid(vs[0]) then [View(vs[0].id, MaskedView(all, vs[0].role))] else []) + SendPlan(all, vs[1..])
  {
  }

  /** One step of Send's loop: the message for vs[k], if any, moves from the plan's rest to what was sent. */
  lemma SendPlanAdvance(all: seq<Player>, vs: seq<Player>, k: int, msgs: seq<View>)
    requires 0 <= k < |vs| && msgs + SendPlan(all, vs[k..]) == SendPlan(all, vs)
    ensures var sent := if IsValid(vs[k]) then msgs + [View(vs[k].id, MaskedView(all, vs[k].role))] else msgs;
      sent + SendPlan(all, vs[k + 1..]) == SendPlan(all, vs)
  {
    assert vs[k..][1..] == vs[k + 1..];
    SendPlanStep(all, vs[k..]);
  }

  /** The roles are laid out over some permutation of the player positions as the draw rules say. */
  ghost predicate Arranged(ps: seq<Player>, kind: GameType, o: GameOption.Option)
  {
    exists order :: IsPermutation(order, |ps|) && InRange(order, |ps|) &&
      Along(Roles(ps), order) == Layout(|ps|, kind, o)
  }

  /**
   * The draw state: ps is ps0 with only roles changed, idx a permutation of
   * the positions whose first n entries are the pool, and the players past
   * the pool hold the roles in tail.
   */
  ghost predicate Drawn(ps0: seq<Player>, ps: seq<Player>, idx: seq<int>, n: int, tail: seq<Role>)
  {
    |ps| == |ps0| && |idx| == |ps| && 0 <= n <= |idx| && |tail| == |idx| - n &&
    IsPermutation(idx, |ps|) && InRange(idx, |ps|) && Distinct(idx) &&
    (forall i :: 0 <= i < |ps| ==> ps[i] == ps0[i].(role := ps[i].role)) &&
    (forall j :: n <= j < |idx| ==> ps[idx[j]].role == tail[j - n])
  }

  /** Every player still in the pool is Resistance. */
  ghost predicate PoolResistance(ps: seq<Player>, idx: seq<int>, n: int)
    requires 0 <= n <= |idx| && InRange(idx, |ps|)
  {
    forall j :: 0 <= j < n ==> ps[idx[j]].role == Resistance
  }

  /** The draw state once the spies are out: the specials drawn so far sit in front of the spies, the pool is Resistance. */
  ghost predicate Stage(ps0: seq<Player>, ps: seq<Player>, idx: seq<int>, n: int, picked: seq<Role>, s: nat)
  {
    Drawn(ps0, ps, idx, n, Reverse(picked) + Repeat(Spy, s)) && PoolResistance(ps, idx, n)
  }

  /**
   * The rounds after a vote by the player with the given ID: the ID joins
   * the accept or the decline list of this one mission, and nothing else
   * changes.
   */
  function AfterVote(rounds: Rounds, ri: int, mi: int, id: string, accept: bool): (r: Rounds)
    requires 0 <= ri < 5 && 0 <= mi < 5
    ensures forall i :: 0 <= i < 5 && i != ri ==> r[i] == rounds[i]
    ensures r[ri] == rounds[ri].(missions := r[ri].missions)
    ensures forall j :: 0 <= j < 5 && j != mi ==> r[ri].missions[j] == rounds[ri].missions[j]
    ensures var m, m' := rounds[ri].missions[mi], r[ri].missions[mi];
      m'.assignees == m.assignees &&
      (accept ==> m'.accept == m.accept + [id] && m'.decline == m.decline) &&
      (!accept ==> m'.decline == m.decline + [id] && m'.accept == m.accept)
  {
    var r := rounds[ri];
    var m := r.missions[mi];
    var m' := if accept then m.(accept := m.accept + [id]) else m.(decline := m.decline + [id]);
    rounds[ri := r.(missions := r.missions[mi := m'])]
  }

  /**
   * The rounds after a vote as the closure is written: it reads the range
   * variable of the registration loop, which (with Go before 1.22) holds
   * the last player once the loop is over, whoever sent the vote.
   */
  function AfterVoteAsWritten(rounds: Rounds, players: seq<Player>, ri: int, mi: int, accept: bool): Rounds
    requires 0 <= ri < 5 && 0 <= mi < 5 && |players| > 0
  {
    var v := players[|players| - 1];
    AfterVote(rounds, ri, mi, v.id, accept)
  }

  class Game {
    var kind: GameType
    var players: seq<Player>
    var rounds: Rounds
    var option: GameOption.Option
    var captain: int

    /** The Game literal NewGame starts from. */
    constructor (t: GameType, o: GameOption.Option)
      ensures kind == t && option == o && players == [] && rounds == ZeroRounds && captain == 0
    {
      kind := t;
      option := o;
      players := [];
      rounds := ZeroRounds;
      captain := 0;
    }

    /**
     * NewGame: between 5 and 10 clients, one player per client in client
     * order, the round table row for min(N, 8) players, then the roles.
     */
    static method NewGame(clients: seq<ClientModel.Client>, t: GameType, o: GameOption.Option)
      returns (g: Game?, err: Wrappers.Option<GameError>)
      ensures err.Some? <==> g == null
      ensures err.Some? <==> |clients| < 5 || |clients| > 10
      ensures err.Some? ==> err.value == ErrInvalidClients
      ensures g != null ==>
        fresh(g) && g.kind == t && g.option == o && g.captain == 0 &&
        g.rounds == RoundDefaults[if |clients| > 8 then 8 else |clients|] &&
        |g.players| == |clients| &&
        (forall i :: 0 <= i < |clients| ==> g.players[i].client == clients[i] && g.players[i].id == clients[i].id) &&
        Arranged(g.players, t, o)
    {
      g := new Game(t, o);
      if |clients| < 5 || |clients| > 10 {
        return null, Some(ErrInvalidClients);
      }
      for k := 0 to |clients|
        invariant |g.players| == k
        invariant forall i :: 0 <= i < k ==> g.players[i] == NewPlayer(clients[i])
        invariant g.kind == t && g.option == o && g.captain == 0
      {
        g.players := g.players + [NewPlayer(clients[k])];
      }
      var playerLen := |g.players|;
      if playerLen > 8 {
        playerLen := 8;
      }
      g.rounds := RoundDefaults[playerLen];
      ghost var order := g.AssignRoles();
      err := None;
    }

    /**
     * assignRoles: SpyCount(N) spies drawn from a pool of all positions, the
     * rest Resistance, then Merlin (Avalon), Percival and Morgana drawn from
     * what is left, stopping as soon as the pool is empty. Only roles change;
     * the order of the players is kept. The returned draw list is the
     * permutation the pool slice's backing array ends in.
     */
    method AssignRoles() returns (ghost order: seq<int>)
      modifies this`players
      ensures |players| == |old(players)|
      ensures forall i :: 0 <= i < |players| ==> players[i] == old(players)[i].(role := players[i].role)
      ensures IsPermutation(order, |players|) && InRange(order, |players|)
      ensures Along(Roles(players), order) == Layout(|players|, kind, option)
    {
      ghost var ps0 := players;
      ghost var picked: seq<Role>;
      var playerIndex, n, spies := DrawSpies();
      playerIndex, n, picked := DrawSpecials(playerIndex, n, ps0, spies);
      order := playerIndex;
      Finish(ps0, players, playerIndex, n, picked, spies, kind, option);
    }

    /** The second half of assignRoles: Merlin, Percival and Morgana, as far as the pool lasts. */
    method DrawSpecials(idx: seq<int>, n: int, ghost ps0: seq<Player>, ghost s: nat)
      returns (idx': seq<int>, n': int, ghost picked: seq<Role>)
      requires Stage(ps0, players, idx, n, [], s)
      modifies this`players
      ensures Stage(ps0, players, idx', n', picked, s)
      ensures var sp := Specials(kind, option);
        picked == sp || (n' == 0 && |picked| <= |sp| && picked == sp[..|picked|])
    {
      var done: bool;
      ghost var sp := Specials(kind, option);
      SpecialsShape(kind, option);
      idx', n', done, picked := DrawMerlin(idx, n, ps0, s);
      if done {
        assert picked == sp[..0];
        return;
      }
      var percival;
      percival, idx', n', done, picked := DrawPercival(idx', n', ps0, picked, s);
      if done {
        assert picked == sp[..|picked|];
        return;
      }
      idx', n', picked := DrawMorgana(percival, idx', n', ps0, picked, s);
    }

    /**
     * The first half of assignRoles: the pool of all positions, SpyCount(N)
     * spies drawn from it, and every player left in the pool made Resistance.
     */
    method DrawSpies() returns (playerIndex: seq<int>, n: int, spies: nat)
      modifies this`players
      ensures spies == SpyCount(|players|)
      ensures Stage(old(players), players, playerIndex, n, [], spies)
    {
      ghost var ps0 := players;
      var amount;
      amount, playerIndex := PoolIndices();
      PoolStart(players);
      spies := SpyCount(amount);
      n := amount;
      ghost var tail: seq<Role> := [];
      for i := 0 to spies
        invariant n == amount - i && tail == Repeat(Spy, i)
        invariant Drawn(ps0, players, playerIndex, n, tail)
      {
        var spyindex;
        spyindex, playerIndex, n := Draw(Spy, playerIndex, n, ps0, tail);
        RepeatPrepend(Spy, i);
        tail := [Spy] + tail;
      }
      FillResistance(playerIndex, n, ps0, tail);
      NothingPicked(tail);
    }

    /** The first loop of assignRoles: the player count and the list of every position. */
    method PoolIndices() returns (amount: int, playerIndex: seq<int>)
      ensures amount == |players| && playerIndex == Range(|players|)
    {
      amount := 0;
      playerIndex := [];
      for k := 0 to |players|
        invariant amount == k && playerIndex == Range(k)
      {
        amount := amount + 1;
        playerIndex := playerIndex + [k];
      }
    }

    /** The Resistance loop of assignRoles: every player left in the pool becomes Resistance. */
    method FillResistance(playerIndex: seq<int>, n: int, ghost ps0: seq<Player>, ghost tail: seq<Role>)
      requires Drawn(ps0, players, playerIndex, n, tail)
      modifies this`players
      ensures Drawn(ps0, players, playerIndex, n, tail)
      ensures PoolResistance(players, playerIndex, n)
    {
      for j := 0 to n
        invariant Drawn(ps0, players, playerIndex, n, tail)
        invariant forall j' :: 0 <= j' < j ==> players[playerIndex[j']].role == Resistance
      {
        ResistanceKeeps(ps0, players, playerIndex, n, tail, j);
        players := players[playerIndex[j] := players[playerIndex[j]].(role := Resistance)];
      }
    }

    /** The Avalon block of assignRoles: Merlin is drawn, unless the pool is empty, which ends assignRoles. */
    method DrawMerlin(idx: seq<int>, n: int, ghost ps0: seq<Player>, ghost s: nat)
      returns (idx': seq<int>, n': int, done: bool, ghost picked: seq<Role>)
      requires Stage(ps0, players, idx, n, [], s)
      modifies this`players
      ensures done <==> kind == TypeAvalon && n <= 0
      ensures done ==> idx' == idx && n' == n && picked == [] && players == old(players)
      ensures !done ==> picked == MerlinPart(kind)
      ensures Stage(ps0, players, idx', n', picked, s)
    {
      idx', n', done, picked := idx, n, false, [];
      if kind == TypeAvalon {
        if n <= 0 {
          return idx, n, true, [];
        }
        var merlin;
        merlin, idx', n' := DrawSpecial(Merlin, idx, n, ps0, [], s);
        picked := [Merlin];
      }
    }

    /**
     * The Percival block of assignRoles: when the mask shares a bit with
     * OptionPercival, Percival is drawn, unless the pool is empty, which
     * ends assignRoles. The drawn pool index stays -1 otherwise.
     */
    method DrawPercival(idx: seq<int>, n: int, ghost ps0: seq<Player>, ghost picked: seq<Role>, ghost s: nat)
      returns (percival: int, idx': seq<int>, n': int, done: bool, ghost picked': seq<Role>)
      requires Stage(ps0, players, idx, n, picked, s) && picked == MerlinPart(kind)
      modifies this`players
      ensures done <==> Has(option, OptionPercival) && n <= 0
      ensures done ==> n' == 0 && picked' == picked
      ensures !done ==> (percival == -1 <==> !Has(option, OptionPercival))
      ensures !done ==> picked' == picked + (if Has(option, OptionPercival) then [Percival] else [])
      ensures Stage(ps0, players, idx', n', picked', s)
    {
      var op := option;
      percival, idx', n', done, picked' := -1, idx, n, false, picked;
      if Has(op, OptionPercival) {
        if n <= 0 {
          return percival, idx, n, true, picked;
        }
        percival, idx', n' := DrawSpecial(Percival, idx, n, ps0, picked, s);
        picked' := picked + [Percival];
      }
    }

    /**
     * The Morgana block of assignRoles: when the mask shares a bit with
     * OptionMorgana, Percival is drawn if the Percival block did not draw
     * one, then Morgana; an empty pool ends assignRoles at either step.
     */
    method DrawMorgana(percival: int, idx: seq<int>, n: int, ghost ps0: seq<Player>, ghost picked: seq<Role>,
                       ghost s: nat)
      returns (idx': seq<int>, n': int, ghost picked': seq<Role>)
      requires Stage(ps0, players, idx, n, picked, s)
      requires percival == -1 <==> !Has(option, OptionPercival)
      requires picked == MerlinPart(kind) + (if Has(option, OptionPercival) then [Percival] else [])
      modifies this`players
      ensures Stage(ps0, players, idx', n', picked', s)
      ensures var sp := Specials(kind, option);
        picked' == sp || (n' == 0 && |picked'| <= |sp| && picked' == sp[..|picked'|])
    {
      var op := option;
      ghost var sp := Specials(kind, option);
      SpecialsShape(kind, option);
      idx', n', picked' := idx, n, picked;
      if Has(op, OptionMorgana) {
        assert sp == MerlinPart(kind) + [Percival, Morgana];
        if n' <= 0 {
          assert picked' == sp[..|picked'|];
          return;
        }
        if percival == -1 {
          var p;
          p, idx', n' := DrawSpecial(Percival, idx', n', ps0, picked', s);
          picked' := picked' + [Percival];
        }
        if n' <= 0 {
          assert picked' == sp[..|picked'|];
          return;
        }
        var morgana;
        morgana, idx', n' := DrawSpecial(Morgana, idx', n', ps0, picked', s);
        assert picked' + [Morgana] == sp;
        picked' := picked' + [Morgana];
      } else {
        assert picked' == sp;
      }
    }

    /** One special draw of assignRoles: a random pool entry gets role r and leaves the pool. */
    method DrawSpecial(r: Role, idx: seq<int>, n: int, ghost ps0: seq<Player>, ghost picked: seq<Role>, ghost s: nat)
      returns (i: int, idx': seq<int>, n': int)
      requires Stage(ps0, players, idx, n, picked, s) && n > 0
      modifies this`players
      ensures 0 <= i < n && n' == n - 1 && idx' == DeleteIndex(idx, n, i)
      ensures players == old(players)[idx[i] := old(players)[idx[i]].(role := r)]
      ensures Stage(ps0, players, idx', n', picked + [r], s)
    {
      i :| 0 <= i < n;
      SpecialKeeps(ps0, players, idx, n, picked, s, i, r);
      players := players[idx[i] := players[idx[i]].(role := r)];
      idx' := DeleteIndex(idx, n, i);
      n' := n - 1;
    }

    /** One draw: a random pool entry gets role r and is swapped to the end of the shrinking pool. */
    method Draw(r: Role, idx: seq<int>, n: int, ghost ps0: seq<Player>, ghost tail: seq<Role>)
      returns (i: int, idx': seq<int>, n': int)
      requires Drawn(ps0, players, idx, n, tail) && n > 0
      modifies this`players
      ensures 0 <= i < n && n' == n - 1 && idx' == DeleteIndex(idx, n, i)
      ensures players == old(players)[idx[i] := old(players)[idx[i]].(role := r)]
      ensures Drawn(ps0, players, idx', n', [r] + tail)
    {
      i :| 0 <= i < n;
      DrawKeeps(ps0, players, idx, n, tail, i, r);
      players := players[idx[i] := players[idx[i]].(role := r)];
      idx' := DeleteIndex(idx, n, i);
      n' := n - 1;
    }

    /** SetCaptain: any index below the player count is accepted, negative ones included. */
    method SetCaptain(i: int) returns (ok: bool)
      modifies this`captain
      ensures ok <==> i < |players|
      ensures captain == if ok then i else old(captain)
    {
      if |players| > i {
        captain := i;
        return true;
      }
      return false;
    }

    /** GetCaptain: the player at the captain index, or the zero Player past the end. */
    function Captain(): (p: Player)
      reads this
      requires captain >= 0
      ensures captain < |players| ==> p == players[captain]
      ensures captain >= |players| ==> p == ZeroPlayer
    {
      if |players| > captain then players[captain] else ZeroPlayer
    }

    /** GetPlayerIndex: the first index whose ID matches, or -1. */
    method GetPlayerIndex(id: string) returns (i: int)
      ensures i == PlayerIndex(players, id)
    {
      for k := 0 to |players|
        invariant forall j :: 0 <= j < k ==> players[j].id != id
      {
        if players[k].id == id {
          return k;
        }
      }
      return -1;
    }

    /** GetPlayer: the first player with the given ID, or the zero Player. */
    method GetPlayer(id: string) returns (p: Player)
      ensures p == PlayerById(players, id)
    {
      var i := GetPlayerIndex(id);
      if i >= 0 {
        return players[i];
      }
      return ZeroPlayer;
    }

    /** maskPlayers inside Send: the masked list for one viewer, stopping at the first invalid player. */
    method MaskPlayers(p: Player) returns (arr: seq<Player>)
      ensures arr == MaskedView(players, p.role)
    {
      arr := [];
      var k := 0;
      while k < |players|
        invariant 0 <= k <= |players|
        invariant arr + MaskedView(players[k..], p.role) == MaskedView(players, p.role)
      {
        var v := players[k];
        MaskedViewAdvance(players, p.role, k, arr);
        if !IsValid(v) {
          return;
        }
        arr := arr + [v.(role := OldMaskRole(p.role, v.role))];
        k := k + 1;
      }
      assert players[k..] == [];
    }

    /** Send: one masked copy of the player list per valid player; the game itself is not changed. */
    method Send() returns (msgs: seq<View>)
      ensures msgs == SendPlan(players, players)
    {
      msgs := [];
      for k := 0 to |players|
        invariant msgs + SendPlan(players, players[k..]) == SendPlan(players, players)
      {
        var v := players[k];
        SendPlanAdvance(players, players, k, msgs);
        if IsValid(v) {
          var view := MaskPlayers(v);
          msgs := msgs + [View(v.id, view)];
        }
      }
      assert players[|players|..] == [];
    }

    /**
     * The start of runMission: an invalid captain is replaced by a random
     * index below the player count. The captain read at the start is
     * returned, since the rotation after a rejected vote starts from it.
     */
    method StartMission() returns (start: Player)
      requires captain >= 0 && |players| > 0
      modifies this`captain
      ensures start == old(Captain())
      ensures IsValid(start) ==> captain == old(captain)
      ensures !IsValid(start) ==> 0 <= captain < |players|
    {
      start := Captain();
      if !IsValid(start) {
        var c :| 0 <= c < |players|;
        captain := c;
      }
    }

    /**
     * The `choose` callback: the submitted IDs must number exactly the
     * round's team size and all name valid players; then they become the
     * mission's assignees, in submission order, duplicates kept, and the
     * phase completes. On an error nothing changes.
     */
    method Choose(ri: int, mi: int, arr: seq<string>) returns (err: Wrappers.Option<GameError>, complete: bool)
      requires 0 <= ri < 5 && 0 <= mi < 5
      modifies this`rounds
      ensures complete <==> err.None?
      ensures |arr| != old(rounds[ri].assignees) as int ==> err == Some(ErrMinAssignees)
      ensures |arr| == old(rounds[ri].assignees) as int ==>
        (err.None? <==> forall k :: 0 <= k < |arr| ==> IsValid(PlayerById(players, arr[k])))
      ensures |arr| == old(rounds[ri].assignees) as int && err.Some? ==> err == Some(ErrInvalidPlayer)
      ensures err.Some? ==> rounds == old(rounds)
      ensures err.None? ==>
        rounds == old(rounds)[ri := old(rounds[ri]).(missions :=
          old(rounds[ri]).missions[mi := old(rounds[ri]).missions[mi].(assignees := arr)])]
    {
      var want := rounds[ri].assignees as int;
      var have := |arr|;
      if have != want {
        return Some(ErrMinAssignees), false;
      }
      var ids: seq<string> := [];
      for k := 0 to |arr|
        invariant ids == arr[..k]
        invariant forall j :: 0 <= j < k ==> IsValid(PlayerById(players, arr[j]))
        invariant rounds == old(rounds)
      {
        var p := GetPlayer(arr[k]);
        if !IsValid(p) {
          return Some(ErrInvalidPlayer), false;
        }
        ids := ids + [arr[k]];
      }
      assert ids == arr;
      var r := rounds[ri];
      rounds := rounds[ri := r.(missions := r.missions[mi := r.missions[mi].(assignees := ids)])];
      return None, true;
    }

    /**
     * The `vote` callback as it should behave: the voter's ID goes to the
     * accept or the decline list of this mission only (repeat votes are
     * kept), and the phase completes once the lists together are as long as
     * the player list.
     */
    method Vote(ri: int, mi: int, voter: int, accept: bool) returns (complete: bool)
      requires 0 <= ri < 5 && 0 <= mi < 5 && 0 <= voter < |players|
      modifies this`rounds
      ensures rounds == AfterVote(old(rounds), ri, mi, players[voter].id, accept)
      ensures complete <==>
        |rounds[ri].missions[mi].accept| + |rounds[ri].missions[mi].decline| == |players|
    {
      var id := players[voter].id;
      var r := rounds[ri];
      var m := r.missions[mi];
      if accept {
        m := m.(accept := m.accept + [id]);
      } else {
        m := m.(decline := m.decline + [id]);
      }
      rounds := rounds[ri := r.(missions := r.missions[mi := m])];
      var mission := rounds[ri].missions[mi];
      complete := |mission.accept| + |mission.decline| == |players|;
    }

    /**
     * The `vote` callback as written, sent through the command of player
     * `voter`: the closure reads the range variable of the registration
     * loop, which (with Go before 1.22) holds the last player of the slice
     * once the loop is over, so the vote is recorded under the last
     * player's ID whoever sent it.
     */
    method VoteAsWritten(ri: int, mi: int, voter: int, accept: bool) returns (complete: bool)
      requires 0 <= ri < 5 && 0 <= mi < 5 && 0 <= voter < |players|
      modifies this`rounds
      ensures rounds == AfterVoteAsWritten(old(rounds), players, ri, mi, accept)
      ensures complete <==>
        |rounds[ri].missions[mi].accept| + |rounds[ri].missions[mi].decline| == |players|
    {
      var v := players[|players| - 1];
      var r := rounds[ri];
      var m := r.missions[mi];
      if accept {
        m := m.(accept := m.accept + [v.id]);
      } else {
        m := m.(decline := m.decline + [v.id]);
      }
      rounds := rounds[ri := r.(missions := r.missions[mi := m])];
      var mission := rounds[ri].missions[mi];
      complete := |mission.accept| + |mission.decline| == |players|;
    }

    /**
     * The end of runMission: an accepted mission ends the mission loop;
     * otherwise the captain moves to the position after the captain read at
     * the start, wrapping to 0 (SetCaptain refuses only when there are no
     * players).
     */
    method EndMission(ri: int, mi: int, start: Player) returns (accepted: bool)
      requires 0 <= ri < 5 && 0 <= mi < 5
      modifies this`captain
      ensures accepted <==> IsAccepted(rounds[ri].missions[mi])
      ensures accepted || |players| == 0 ==> captain == old(captain)
      ensures !accepted && |players| > 0 ==> captain == NextCaptain(players, start.id)
    {
      var msh := rounds[ri].missions[mi];
      if IsAccepted(msh) {
        accepted := true;
      } else {
        accepted := false;
        var i := GetPlayerIndex(start.id);
        i := i + 1;
        if |players| <= i {
          i := 0;
        }
        var ok := SetCaptain(i);
      }
    }
  }

  // ---------------------------------------------------------------------
  // Draw-step lemmas for AssignRoles

  lemma DrawKeeps(ps0: seq<Player>, ps: seq<Player>, idx: seq<int>, n: int, tail: seq<Role>, i: int, r: Role)
    requires Drawn(ps0, ps, idx, n, tail) && 0 <= i < n
    ensures Drawn(ps0, ps[idx[i] := ps[idx[i]].(role := r)], DeleteIndex(idx, n, i), n - 1, [r] + tail)
  {
    DeleteIndexDistinct(idx, n, i);
    var ps' := ps[idx[i] := ps[idx[i]].(role := r)];
    var idx' := DeleteIndex(idx, n, i);
    forall j | n - 1 <= j < |idx'|
      ensures ps'[idx'[j]].role == ([r] + tail)[j - (n - 1)]
    {
      if j > n - 1 {
        assert idx'[j] == idx[j] && idx[j] != idx[i];
      }
    }
  }

  /** Before any draw the pool is every position in order. */
  lemma PoolStart(ps: seq<Player>)
    ensures Drawn(ps, ps, Range(|ps|), |ps|, [])
  {
  }

  lemma ResistanceKeeps(ps0: seq<Player>, ps: seq<Player>, idx: seq<int>, n: int, tail: seq<Role>, j: int)
    requires Drawn(ps0, ps, idx, n, tail) && 0 <= j < n
    requires forall j' :: 0 <= j' < j ==> ps[idx[j']].role == Resistance
    ensures Drawn(ps0, ps[idx[j] := ps[idx[j]].(role := Resistance)], idx, n, tail)
    ensures forall j' :: 0 <= j' <= j ==> ps[idx[j] := ps[idx[j]].(role := Resistance)][idx[j']].role == Resistance
  {
  }

  lemma SpecialKeeps(ps0: seq<Player>, ps: seq<Player>, idx: seq<int>, n: int, picked: seq<Role>,
                     s: nat, i: int, r: Role)
    requires Drawn(ps0, ps, idx, n, Reverse(picked) + Repeat(Spy, s)) && 0 <= i < n
    requires PoolResistance(ps, idx, n)
    ensures Drawn(ps0, ps[idx[i] := ps[idx[i]].(role := r)], DeleteIndex(idx, n, i), n - 1,
                  Reverse(picked + [r]) + Repeat(Spy, s))
    ensures PoolResistance(ps[idx[i] := ps[idx[i]].(role := r)], DeleteIndex(idx, n, i), n - 1)
  {
    SpecialDrawn(ps0, ps, idx, n, picked, s, i, r);
    PoolKept(ps, idx, n, i, r);
  }

  /** A special drawn from the pool goes in front of the specials drawn before it. */
  lemma SpecialDrawn(ps0: seq<Player>, ps: seq<Player>, idx: seq<int>, n: int, picked: seq<Role>,
                     s: nat, i: int, r: Role)
    requires Drawn(ps0, ps, idx, n, Reverse(picked) + Repeat(Spy, s)) && 0 <= i < n
    ensures Drawn(ps0, ps[idx[i] := ps[idx[i]].(role := r)], DeleteIndex(idx, n, i), n - 1,
                  Reverse(picked + [r]) + Repeat(Spy, s))
  {
    DrawKeeps(ps0, ps, idx, n, Reverse(picked) + Repeat(Spy, s), i, r);
    ReverseSnoc(picked, r);
    assert [r] + (Reverse(picked) + Repeat(Spy, s)) == Reverse(picked + [r]) + Repeat(Spy, s);
  }

  /** Drawing entry i out of an all-Resistance pool leaves the rest of the pool Resistance. */
  lemma PoolKept(ps: seq<Player>, idx: seq<int>, n: int, i: int, r: Role)
    requires 0 <= i < n <= |idx| && InRange(idx, |ps|) && Distinct(idx) && PoolResistance(ps, idx, n)
    ensures InRange(DeleteIndex(idx, n, i), |ps|)
    ensures PoolResistance(ps[idx[i] := ps[idx[i]].(role := r)], DeleteIndex(idx, n, i), n - 1)
  {
    var ps' := ps[idx[i] := ps[idx[i]].(role := r)];
    var idx' := DeleteIndex(idx, n, i);
    forall j | 0 <= j < |idx'|
      ensures 0 <= idx'[j] < |ps|
    {
      var j' := if j == i then n - 1 else if j == n - 1 then i else j;
      assert idx'[j] == idx[j'];
    }
    forall j | 0 <= j < n - 1
      ensures ps'[idx'[j]].role == Resistance
    {
      var j' := if j == i then n - 1 else j;
      assert idx'[j] == idx[j'] && j' != i && idx[j'] != idx[i];
    }
  }

  /** The draws are over: only roles changed, the draw list is a permutation, and the roles along it are the layout. */
  lemma Finish(ps0: seq<Player>, ps: seq<Player>, idx: seq<int>, n: int, picked: seq<Role>,
               s: nat, kind: GameType, o: GameOption.Option)
    requires Stage(ps0, ps, idx, n, picked, s) && s == SpyCount(|ps0|)
    requires var sp := Specials(kind, o);
      picked == sp || (n == 0 && |picked| <= |sp| && picked == sp[..|picked|])
    ensures |ps| == |ps0|
    ensures forall i :: 0 <= i < |ps| ==> ps[i] == ps0[i].(role := ps[i].role)
    ensures IsPermutation(idx, |ps|) && InRange(idx, |ps|)
    ensures Along(Roles(ps), idx) == Layout(|ps|, kind, o)
  {
    DrawsArrange(ps, idx, n, picked, s, Specials(kind, o));
  }

  /** The arrangement, from the draw state spelled out. */
  lemma DrawsArrange(ps: seq<Player>, idx: seq<int>, n: int, picked: seq<Role>,
               s: nat, sp: seq<Role>)
    requires |idx| == |ps| && 0 <= n <= |idx| && InRange(idx, |ps|)
    requires |picked| + s == |idx| - n
    requires forall j :: n <= j < |idx| ==> ps[idx[j]].role == (Reverse(picked) + Repeat(Spy, s))[j - n]
    requires PoolResistance(ps, idx, n)
    requires picked == sp || (n == 0 && |picked| <= |sp| && picked == sp[..|picked|])
    ensures Along(Roles(ps), idx) == Arrange(|ps|, s, sp)
  {
    var k := |picked|;
    var tail := Reverse(picked) + Repeat(Spy, s);
    assert sp[..|sp|] == sp;
    assert Min(|sp|, |ps| - s) == k;
    assert sp[..k] == picked;
    var l := Repeat(Resistance, n) + Reverse(picked) + Repeat(Spy, s);
    assert Arrange(|ps|, s, sp) == l;
    var a := Along(Roles(ps), idx);
    forall j | 0 <= j < |ps|
      ensures a[j] == l[j]
    {
      if j >= n {
        assert a[j] == tail[j - n] && l[j] == tail[j - n];
      }
    }
  }

  // ---------------------------------------------------------------------
  // Lemmas

  /**
   * A game made by NewGame has exactly the role counts of the table for its
   * player count: SpyCount(N) spies, one Merlin for Avalon, Percival and
   * Morgana as the option bits ask, no Default.
   */
  lemma NewGameRoleCounts(ps: seq<Player>, kind: GameType, o: GameOption.Option)
    requires 5 <= |ps| <= 10 && Arranged(ps, kind, o)
    ensures Count(Roles(ps), Spy) == SpyCount(|ps|)
    ensures Count(Roles(ps), Merlin) == (if kind == TypeAvalon then 1 else 0)
    ensures Count(Roles(ps), Percival) == (if Has(o, OptionPercival) || Has(o, OptionMorgana) then 1 else 0)
    ensures Count(Roles(ps), Morgana) == (if Has(o, OptionMorgana) then 1 else 0)
    ensures Count(Roles(ps), Default) == 0
  {
    var order :| IsPermutation(order, |ps|) && InRange(order, |ps|) &&
      Along(Roles(ps), order) == Layout(|ps|, kind, o);
    AlongPermutes(Roles(ps), order);
    LayoutCounts(|ps|, kind, o);
  }

  /** Under the older mask a Percival viewer sees every listed player, itself included, as Resistance. */
  lemma PercivalSeesOnlyResistance(ps: seq<Player>, i: int)
    requires 0 <= i < |MaskedView(ps, Percival)|
    ensures MaskedView(ps, Percival)[i].role == Resistance
  {
    MaskedViewMeaning(ps, Percival);
  }

  /** Under the older mask a Morgana viewer sees the listed players as they are. */
  lemma MorganaSeesTruth(ps: seq<Player>, i: int)
    requires 0 <= i < |MaskedView(ps, Morgana)|
    ensures MaskedView(ps, Morgana)[i] == ps[i]
  {
    MaskedViewMeaning(ps, Morgana);
  }

  /** A spy sees fellow spies and Morgana, but never Merlin or Percival. */
  lemma SpySeesSpies(ps: seq<Player>, i: int)
    requires 0 <= i < |MaskedView(ps, Spy)|
    ensures ps[i].role == Spy ==> MaskedView(ps, Spy)[i].role == Spy
    ensures MaskedView(ps, Spy)[i].role != Merlin && MaskedView(ps, Spy)[i].role != Percival
  {
    MaskedViewMeaning(ps, Spy);
  }

  /** A Resistance viewer learns nothing: every listed player shows as Resistance. */
  lemma ResistanceSeesNoRoles(ps: seq<Player>, i: int)
    requires 0 <= i < |MaskedView(ps, Resistance)|
    ensures MaskedView(ps, Resistance)[i].role == Resistance
  {
    MaskedViewMeaning(ps, Resistance);
  }

  /** Merlin sees the spies as they are and Percival and Morgana as Resistance. */
  lemma MerlinSeesSpies(ps: seq<Player>, i: int)
    requires 0 <= i < |MaskedView(ps, Merlin)|
    ensures ps[i].role == Spy ==> MaskedView(ps, Merlin)[i].role == Spy
    ensures ps[i].role == Morgana ==> MaskedView(ps, Merlin)[i].role == Resistance
  {
    MaskedViewMeaning(ps, Merlin);
  }

  /** The list stops at the first invalid player: everything before it is listed, nothing after. */
  lemma MaskStopsAtInvalid(ps: seq<Player>, viewer: Role, k: int)
    requires 0 <= k < |ps| && !IsValid(ps[k])
    requires forall j :: 0 <= j < k ==> IsValid(ps[j])
    ensures |MaskedView(ps, viewer)| == k
  {
    MaskedViewMeaning(ps, viewer);
  }

  /** Rotation: the next position after the captain, the first after the last, the first when unknown. */
  lemma RotationSteps(ps: seq<Player>, k: int)
    requires 0 <= k < |ps| && forall j :: 0 <= j < |ps| && j != k ==> ps[j].id != ps[k].id
    ensures NextCaptain(ps, ps[k].id) == if k == |ps| - 1 then 0 else k + 1
  {
  }

  lemma RotationUnknownCaptain(ps: seq<Player>, id: string)
    requires forall j :: 0 <= j < |ps| ==> ps[j].id != id
    ensures NextCaptain(ps, id) == 0
  {
  }

  /** An ID no player has looks up the zero Player, which fails choose's validity check. */
  lemma ZeroPlayerNeverChosen(ps: seq<Player>, id: string)
    requires forall j :: 0 <= j < |ps| ==> ps[j].id != id
    ensures !IsValid(PlayerById(ps, id))
  {
  }

  /**
   * The vote closure bug: a vote sent through the command of any player
   * whose ID differs from the last player's is not recorded as the intended
   * vote, and the ID it ends with is the last player's, not the voter's.
   */
  lemma VoteRecordsLastPlayer(rounds: Rounds, players: seq<Player>, voter: int, ri: int, mi: int, accept: bool)
    requires 0 <= ri < 5 && 0 <= mi < 5 && 0 <= voter < |players|
    requires players[voter].id != players[|players| - 1].id
    ensures AfterVoteAsWritten(rounds, players, ri, mi, accept) != AfterVote(rounds, ri, mi, players[voter].id, accept)
    ensures var m := AfterVoteAsWritten(rounds, players, ri, mi, accept)[ri].missions[mi];
      var l := if accept then m.accept else m.decline;
      |l| > 0 && l[|l| - 1] == players[|players| - 1].id != players[voter].id
  {
    var m0 := rounds[ri].missions[mi];
    var n := if accept then |m0.accept| else |m0.decline|;
    var w := AfterVoteAsWritten(rounds, players, ri, mi, accept)[ri].missions[mi];
    var v := AfterVote(rounds, ri, mi, players[voter].id, accept)[ri].missions[mi];
    assert (if accept then w.accept else w.decline)[n] != (if accept then v.accept else v.decline)[n];
  }
}
