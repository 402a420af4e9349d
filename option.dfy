/**
 * Game options as a 16-bit mask (internal/game/option.go).
 */
module GameOption {

  /** Option is a uint16 bit mask. */
  type Option = bv16

  const OptionNone: Option := 0
  /** Declared as `1 << iota` on the second line of the const block, so iota is 1. */
  const OptionPercival: Option := 1 << 1
  /** (1 << 0) | (1 << 1): shares the Percival bit. */
  const OptionMorgana: Option := (1 << 0) | (1 << 1)

  /** Add: bitwise or; the result holds every bit of both masks and nothing else. */
  function Add(o: Option, x: Option): (r: Option)
    ensures r & x == x && r & o == o
  {
    o | x
  }

  /** Remove: and-not; the result keeps exactly the bits of o that x lacks. */
  function Remove(o: Option, x: Option): (r: Option)
    ensures r & x == 0
    ensures r & !x == o & !x
  {
    o & !x
  }

  /** Toggle: exclusive or; toggling the result by the same mask gives o back. */
  function Toggle(o: Option, x: Option): (r: Option)
    ensures r ^ x == o
  {
    o ^ x
  }

  /** Has: the two masks share at least one bit (not "contains all bits of x"). */
  predicate Has(o: Option, x: Option)
    ensures Has(o, x) ==> o != 0 && x != 0
    ensures Has(o, x) == (x & o != 0)
  {
    o & x != 0
  }

  lemma Constants()
    ensures OptionNone == 0 && OptionPercival == 2 && OptionMorgana == 3
  {
  }

  lemma AddHas(o: Option, x: Option)
    requires x != 0
    ensures Has(Add(o, x), x)
  {
  }

  lemma RemoveNotHas(o: Option, x: Option)
    ensures !Has(Remove(o, x), x)
  {
  }

  lemma ToggleInvolution(o: Option, x: Option)
    ensures Toggle(Toggle(o, x), x) == o
  {
  }

  /** Percival and Morgana each "have" the other, since they share bit 1. */
  lemma PercivalMorganaOverlap()
    ensures Has(OptionPercival, OptionMorgana) && Has(OptionMorgana, OptionPercival)
    ensures OptionPercival != OptionMorgana
  {
  }

  lemma NoneNeverHeld(o: Option)
    ensures !Has(o, OptionNone)
  {
  }
}
