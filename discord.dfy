/**
 * The identity-provider user record and its helpers (internal/discord/model.go):
 * validity, the e-mail accessor and the CDN avatar URL.
 */
module Discord {
  import opened GoStrconv

  /** A user profile; `email` is the field the JSON decoder never fills directly. */
  datatype User = User(
    id: string,
    email: string,
    username: string,
    discriminator: string,
    avatar: string)

  const ZeroUser: User := User("", "", "", "", "")

  const CdnBase: string := "https://cdn.discordapp.com/"

  /** A user is valid when it differs from the zero User. */
  predicate IsValid(u: User) { u != ZeroUser }

  function GetEmail(u: User): string { u.email }

  /** The file extension of an uploaded avatar: animated hashes start with 'a'. */
  function AvatarExt(avatar: string): string
    requires |avatar| > 0
  {
    if avatar[0] == 'a' then "gif" else "png"
  }

  /** The default-avatar slot: the discriminator parsed by Atoi (its value even on error), Go's % 5. */
  function DefaultAvatarIndex(discriminator: string): (i: int)
    ensures -5 < i < 5
  {
    GoRem(Atoi(discriminator).0, 5)
  }

  function GetAvatar(u: User): (url: string)
    ensures |url| > |CdnBase| && url[..|CdnBase|] == CdnBase
  {
    CdnBase +
      (if |u.avatar| > 0 then "avatars/" + u.id + "/" + u.avatar + "." + AvatarExt(u.avatar)
       else "embed/avatars/" + Itoa(DefaultAvatarIndex(u.discriminator)) + ".png")
  }

  // ---------------------------------------------------------------------
  // Lemmas

  /** A user with an avatar hash gets `avatars/<id>/<hash>.gif` exactly when the hash starts with 'a'. */
  lemma UploadedAvatar(u: User)
    requires |u.avatar| > 0
    ensures GetAvatar(u) == CdnBase + "avatars/" + u.id + "/" + u.avatar + "." + AvatarExt(u.avatar)
    ensures AvatarExt(u.avatar) == "gif" <==> u.avatar[0] == 'a'
  {
  }

  /**
   * Without an avatar hash, a discriminator written as a plain decimal number d
   * (as the provider issues them) selects embed/avatars/<d mod 5>.png, a one-digit slot.
   */
  lemma DefaultAvatarOfNumber(u: User, d: nat)
    requires u.avatar == "" && d <= MaxInt64 && u.discriminator == Digits(d)
    ensures DefaultAvatarIndex(u.discriminator) == d % 5
    ensures GetAvatar(u) == CdnBase + "embed/avatars/" + [DigitChar(d % 5)] + ".png"
  {
    AtoiItoa(d);
  }

  /** A discriminator that is not a number falls back to slot 0. */
  lemma DefaultAvatarOfGarbage(u: User)
    requires u.avatar == "" && |u.discriminator| > 0 && !IsDigit(u.discriminator[0])
    requires u.discriminator[0] != '-' && u.discriminator[0] != '+'
    ensures GetAvatar(u) == CdnBase + "embed/avatars/0.png"
  {
  }

  /** A negative discriminator selects a non-positive slot, rendered with a minus sign unless it is 0. */
  lemma DefaultAvatarOfNegative(u: User, d: nat)
    requires u.avatar == "" && 0 < d <= MaxInt64 && u.discriminator == "-" + Digits(d)
    ensures DefaultAvatarIndex(u.discriminator) == -(d % 5)
  {
    var n: int := -(d as int);
    AtoiItoa(n);
    assert Itoa(n) == u.discriminator;
  }
}
