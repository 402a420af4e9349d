/**
 * The sentinel errors shared by the repositories and the lobby
 * (internal/repo/errors.go).
 */
module RepoErrors {
  datatype RepoError =
    | ClientExists   // "Client already exists"
    | Client404      // "Client does not exist"
    | ClientInvalid  // "Client has not been initialized"
    | LobbyExists    // "Lobby already exists"
    | Lobby404       // "Lobby does not exist"
    | LobbyInvalid   // "Lobby has not been initialized"
}
