/**
 * The role-assignment rules that both assignRoles variants
 * (internal/game/model.go and internal/game/game.go) implement: the spy-count
 * table, the special roles an option mask and a game type call for, and the
 * arrangement of roles over the final order of the draw pool.
 *
 * Both variants draw from a pool held at the front of an index list: a drawn
 * entry is swapped with the last pool entry and the pool shrinks by one, so
 * after all draws position j of the list holds the player who received
 * Layout(n, kind, option)[j]: the spies at the back (the last drawn at the
 * lowest position), the specials in front of them (Merlin nearest the
 * spies), and Resistance everywhere else.
 */
module GameRoles {
  import opened GamePlayer
  import opened GameOption
  import opened GameRound

  /** The spy-count table: 2 for 5..6 players, 3 for 7..9, 4 for 10, none otherwise. */
  function SpyCount(n: int): (s: nat)
    ensures s > 0 <==> 5 <= n <= 10
    ensures s > 0 ==> 2 <= s <= 4 && s + 3 <= n
  {
    if 5 <= n <= 6 then 2
    else if 7 <= n <= 9 then 3
    else if n == 10 then 4
    else 0
  }

  /**
   * The special roles to draw after the spies, in draw order: Merlin for an
   * Avalon game, Percival when the mask shares a bit with OptionPercival or
   * OptionMorgana, Morgana when it shares a bit with OptionMorgana.
   */
  function Specials(kind: GameType, o: Option): (sp: seq<Role>)
    ensures |sp| <= 3
  {
    MerlinPart(kind) +
    (if Has(o, OptionPercival) || Has(o, OptionMorgana) then [Percival] else []) +
    (if Has(o, OptionMorgana) then [Morgana] else [])
  }

  /** Merlin, for an Avalon game only. */
  function MerlinPart(kind: GameType): seq<Role>
  {
    if kind == TypeAvalon then [Merlin] else []
  }

  function Repeat(r: Role, k: nat): (s: seq<Role>)
    ensures |s| == k && forall i :: 0 <= i < k ==> s[i] == r
  {
    if k == 0 then [] else Repeat(r, k - 1) + [r]
  }

  function Reverse(s: seq<Role>): (t: seq<Role>)
    ensures |t| == |s| && forall i :: 0 <= i < |s| ==> t[i] == s[|s| - 1 - i]
  {
    if s == [] then [] else Reverse(s[1..]) + [s[0]]
  }

  function Min(a: nat, b: nat): nat { if a <= b then a else b }

  /**
   * The final role of the player at each position of the draw list. A
   * special is drawn only while the pool is non-empty; once it is empty the
   * remaining specials are skipped (the early returns).
   */
  function Layout(n: nat, kind: GameType, o: Option): (l: seq<Role>)
    ensures |l| == n
  {
    Arrange(n, SpyCount(n), Specials(kind, o))
  }

  /** n positions: s spies at the back, then as many of sp as fit in the rest, drawn from the back forwards. */
  function Arrange(n: nat, s: nat, sp: seq<Role>): (l: seq<Role>)
    ensures |l| == n
  {
    var s' := if s <= n then s else n;
    var k := Min(|sp|, n - s');
    Repeat(Resistance, n - s' - k) + Reverse(sp[..k]) + Repeat(Spy, s')
  }

  /** How many times role r appears in l. */
  function Count(l: seq<Role>, r: Role): nat
  {
    multiset(l)[r]
  }

  // ---------------------------------------------------------------------
  // Lemmas

  /** One more copy of r in front. */
  lemma RepeatPrepend(r: Role, k: nat)
    ensures [r] + Repeat(r, k) == Repeat(r, k + 1)
  {
  }

  /** With no specials picked, the drawn tail is just the spies. */
  lemma NothingPicked(tail: seq<Role>)
    ensures Reverse([]) + tail == tail
  {
  }

  lemma {:induction false} RepeatCount(r: Role, k: nat, q: Role)
    ensures Count(Repeat(r, k), q) == if q == r then k else 0
  {
    if k > 0 {
      RepeatCount(r, k - 1, q);
      assert Repeat(r, k) == Repeat(r, k - 1) + [r];
    }
  }

  lemma {:induction false} ReversePermutes(s: seq<Role>)
    ensures multiset(Reverse(s)) == multiset(s)
  {
    if s != [] {
      ReversePermutes(s[1..]);
      assert s == [s[0]] + s[1..];
    }
  }

  /** Reversing after appending r puts r in front. */
  lemma ReverseSnoc(s: seq<Role>, r: Role)
    ensures Reverse(s + [r]) == [r] + Reverse(s)
  {
    assert forall i :: 0 <= i <= |s| ==> Reverse(s + [r])[i] == ([r] + Reverse(s))[i];
  }

  /** Every bit pattern that can hold Percival brings Morgana too: Has means "shares a bit". */
  lemma PercivalBringsMorgana(kind: GameType, o: Option)
    requires Has(o, OptionPercival)
    ensures Percival in Specials(kind, o) && Morgana in Specials(kind, o)
  {
  }

  /** The specials list has two shapes: Percival and Morgana after Merlin's part, or Merlin's part alone. */
  lemma SpecialsShape(kind: GameType, o: Option)
    ensures Has(o, OptionPercival) ==> Has(o, OptionMorgana)
    ensures Has(o, OptionMorgana) ==> Specials(kind, o) == MerlinPart(kind) + [Percival, Morgana]
    ensures !Has(o, OptionMorgana) ==> Specials(kind, o) == MerlinPart(kind)
  {
  }

  /** No position of the layout is left with the Default role. */
  lemma LayoutNoDefault(n: nat, kind: GameType, o: Option, j: int)
    requires 0 <= j < n
    ensures Layout(n, kind, o)[j] != Default
  {
  }

  /** How often each role appears among the specials. */
  lemma SpecialsCount(kind: GameType, o: Option)
    ensures Count(Specials(kind, o), Merlin) == (if kind == TypeAvalon then 1 else 0)
    ensures Count(Specials(kind, o), Percival) == (if Has(o, OptionPercival) || Has(o, OptionMorgana) then 1 else 0)
    ensures Count(Specials(kind, o), Morgana) == (if Has(o, OptionMorgana) then 1 else 0)
    ensures Count(Specials(kind, o), Spy) == 0 && Count(Specials(kind, o), Resistance) == 0
    ensures Count(Specials(kind, o), Default) == 0
  {
    var hp := Has(o, OptionPercival) || Has(o, OptionMorgana);
    var hm := Has(o, OptionMorgana);
    var a: seq<Role> := MerlinPart(kind);
    var b: seq<Role> := if hp then [Percival] else [];
    var c: seq<Role> := if hm then [Morgana] else [];
    assert Specials(kind, o) == a + b + c;
    assert multiset(Specials(kind, o)) == multiset(a) + multiset(b) + multiset(c);
  }

  /** When the pool has room for every special, the arrangement is a permutation of its three parts. */
  lemma ArrangeParts(n: nat, s: nat, sp: seq<Role>, q: Role)
    requires s + |sp| <= n
    ensures Count(Arrange(n, s, sp), q) ==
      Count(Repeat(Resistance, n - s - |sp|), q) + Count(sp, q) + Count(Repeat(Spy, s), q)
  {
    assert sp[..|sp|] == sp;
    var res := Repeat(Resistance, n - s - |sp|);
    var spies := Repeat(Spy, s);
    assert Arrange(n, s, sp) == res + Reverse(sp) + spies;
    ReversePermutes(sp);
    assert multiset(Arrange(n, s, sp)) == multiset(res) + multiset(sp) + multiset(spies);
  }

  /** Role counts of an arrangement whose pool has room for every special. */
  lemma ArrangeCounts(n: nat, s: nat, sp: seq<Role>)
    requires s + |sp| <= n
    ensures forall q: Role ::
              Count(Arrange(n, s, sp), q) ==
              (if q == Resistance then n - s - |sp| else 0) + Count(sp, q) + (if q == Spy then s else 0)
  {
    forall q: Role
      ensures Count(Arrange(n, s, sp), q) ==
        (if q == Resistance then n - s - |sp| else 0) + Count(sp, q) + (if q == Spy then s else 0)
    {
      ArrangeParts(n, s, sp, q);
      RepeatCount(Resistance, n - s - |sp|, q);
      RepeatCount(Spy, s, q);
    }
  }

  /**
   * For every legal player count (5..10) the pool is large enough for every
   * special, so the role counts are exact: SpyCount(n) spies, Merlin exactly
   * for Avalon, Percival when either option bit is present, Morgana with the
   * Morgana bit, the rest Resistance, and no Default.
   */
  lemma LayoutCounts(n: nat, kind: GameType, o: Option)
    requires 5 <= n <= 10
    ensures Count(Layout(n, kind, o), Spy) == SpyCount(n)
    ensures Count(Layout(n, kind, o), Merlin) == (if kind == TypeAvalon then 1 else 0)
    ensures Count(Layout(n, kind, o), Percival) ==
      (if Has(o, OptionPercival) || Has(o, OptionMorgana) then 1 else 0)
    ensures Count(Layout(n, kind, o), Morgana) == (if Has(o, OptionMorgana) then 1 else 0)
    ensures Count(Layout(n, kind, o), Resistance) == n - SpyCount(n) - |Specials(kind, o)|
    ensures Count(Layout(n, kind, o), Default) == 0
  {
    ArrangeCounts(n, SpyCount(n), Specials(kind, o));
    SpecialsCount(kind, o);
  }
}
