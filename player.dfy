/**
 * Players and their secret roles (internal/game/player.go).
 */
module GamePlayer {
  import opened Wrappers
  import ClientModel

  /** PlayerType; Default marks a player whose role is not assigned yet. */
  datatype Role = Default | Resistance | Spy | Merlin | Percival | Morgana

  /** The uint8 value of each PlayerType constant (iota order). */
  function RoleCode(r: Role): (code: nat)
    ensures code <= 5
    ensures code == 0 <==> r == Default
  {
    match r
    case Default => 0
    case Resistance => 1
    case Spy => 2
    case Merlin => 3
    case Percival => 4
    case Morgana => 5
  }

  /** The PlayerType for a uint8 value; values above 5 name no type. */
  function RoleOfCode(code: nat): (r: Option<Role>)
    ensures r.Some? <==> code <= 5
  {
    if code == 0 then Some(Default)
    else if code == 1 then Some(Resistance)
    else if code == 2 then Some(Spy)
    else if code == 3 then Some(Merlin)
    else if code == 4 then Some(Percival)
    else if code == 5 then Some(Morgana)
    else None
  }

  /** A player: the client it plays through, its ID and its role. */
  datatype Player = Player(client: ClientModel.Client, id: string, role: Role)

  const ZeroPlayer: Player := Player(ClientModel.ZeroClient, "", Default)

  /** newPlayer: copies the client's ID, role not yet assigned. */
  function NewPlayer(c: ClientModel.Client): (p: Player)
    ensures p.client == c && p.id == c.id && p.role == Default
  {
    Player(c, c.id, Default)
  }

  /** Player.IsValid: a valid client and an assigned role. */
  predicate IsValid(p: Player)
    ensures IsValid(p) ==> p.client.conn.Some? && p != ZeroPlayer
  {
    ClientModel.IsValid(p.client) && p.role != Default
  }

  // ---------------------------------------------------------------------
  // Lemmas

  /** The codes and the types correspond one to one. */
  lemma RoleCodeRoundTrip(r: Role, code: nat)
    ensures RoleOfCode(RoleCode(r)) == Some(r)
    ensures code <= 5 ==> RoleCode(RoleOfCode(code).value) == code
  {
  }

  /** A freshly created player is never valid: it still has the Default role. */
  lemma NewPlayerInvalid(c: ClientModel.Client)
    ensures !IsValid(NewPlayer(c))
  {
  }

  /** Giving a connected client's player any role other than Default makes it valid. */
  lemma AssignedPlayerValid(c: ClientModel.Client, r: Role)
    requires c.conn.Some? && r != Default
    ensures IsValid(NewPlayer(c).(role := r))
  {
  }

  /** The zero Player is invalid. */
  lemma ZeroPlayerInvalid()
    ensures !IsValid(ZeroPlayer)
  {
  }
}
