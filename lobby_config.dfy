/**
 * The lobby service's configuration (internal/lobby/config.go): the
 * length of a lobby ID in digits and the largest number of clients.
 */
module LobbyConfig {
  import opened Wrappers

  datatype Config = Config(idLen: int, maxClient: int)

  datatype ConfigError = ErrMaxClientZero | ErrIDLengthZero

  /** IDs of four digits, at most ten clients. */
  const DefaultConfig := Config(4, 10)

  /** Config.Validate: the client bound is checked before the ID length. */
  function Validate(c: Config): (e: Option<ConfigError>)
    ensures e == Some(ErrMaxClientZero) <==> c.maxClient <= 0
    ensures e == Some(ErrIDLengthZero) <==> c.maxClient > 0 && c.idLen <= 0
    ensures e.None? <==> c.maxClient > 0 && c.idLen > 0
  {
    if c.maxClient <= 0 then Some(ErrMaxClientZero)
    else if c.idLen <= 0 then Some(ErrIDLengthZero)
    else None
  }

  /** The default configuration is accepted. */
  lemma DefaultConfigValid()
    ensures Validate(DefaultConfig).None?
  {
  }
}
