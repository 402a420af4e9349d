/**
 * The client record (internal/client/model.go): an identity, its provider
 * profile, the live connection it talks through, and the lobby it is in.
 */
module ClientModel {
  import opened Wrappers
  import Discord

  /**
   * An opaque reference to a live connection. In the source the client holds
   * the connection interface itself; only whether it is nil matters here.
   */
  type ConnHandle = nat

  datatype Client = Client(
    id: string,
    user: Discord.User,
    conn: Option<ConnHandle>,
    lobbyId: string)

  const ZeroClient: Client := Client("", Discord.ZeroUser, None, "")

  /** Client.IsValid: not the zero Client, and holding a connection. */
  predicate IsValid(c: Client) { c != ZeroClient && c.conn.Some? }

  /** Since the zero Client has no connection, validity is exactly having one. */
  lemma ValidIffConnected(c: Client)
    ensures IsValid(c) <==> c.conn.Some?
  {
  }
}
