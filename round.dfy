/**
 * The game schedule: missions, rounds, the per-player-count round table,
 * round conclusion and the game status tally (the data of
 * internal/game/model.go, mission.go's IsAccepted/IsEmpty, round.go's
 * RoundDefaults/GetConculsion, and getStatus, written identically in
 * game.go and model.go).
 */
module GameRound {

  /** uint8 */
  newtype u8 = x: int | 0 <= x < 256

  /** The ruleset variant; the named values are Basic(0) .. Trumpmode(4). */
  type GameType = u8
  const TypeBasic: GameType := 0
  const TypeOriginal: GameType := 1
  const TypeAvalon: GameType := 2
  const TypeHunter: GameType := 3
  const TypeTrumpmode: GameType := 4

  datatype Status = StatusDefault | StatusLost | StatusWon

  /** One team proposal: who accepted, who declined, who was proposed (all by player ID). */
  datatype Mission = Mission(accept: seq<string>, decline: seq<string>, assignees: seq<string>)

  const EmptyMission: Mission := Mission([], [], [])

  /** [5]Mission */
  type Missions = s: seq<Mission> | |s| == 5
    witness [EmptyMission, EmptyMission, EmptyMission, EmptyMission, EmptyMission]

  /**
   * A round: its five missions, the team size, the failure threshold, the
   * failure count, and the private lists of who decided failure / success.
   */
  datatype Round = Round(
    missions: Missions,
    assignees: u8,
    minFailure: u8,
    failure: u8,
    failureIds: seq<string>,
    successIds: seq<string>)

  /** A round as the table declares it: only Assignees and MinFailure set. */
  function TableRound(assignees: u8, minFailure: u8): Round
  {
    Round([EmptyMission, EmptyMission, EmptyMission, EmptyMission, EmptyMission],
          assignees, minFailure, 0, [], [])
  }

  /** [5]Round */
  type Rounds = s: seq<Round> | |s| == 5
    witness [TableRound(0, 0), TableRound(0, 0), TableRound(0, 0), TableRound(0, 0), TableRound(0, 0)]

  /** Mission.IsAccepted: strictly more accepts than declines. */
  predicate IsAccepted(m: Mission)
    ensures IsAccepted(m) ==> |m.accept| >= 1
  {
    |m.accept| > |m.decline|
  }

  /** Mission.IsEmpty: no votes and no assignees. */
  predicate IsEmpty(m: Mission)
    ensures IsEmpty(m) ==> !IsAccepted(m)
  {
    |m.accept| == 0 && |m.decline| == 0 && |m.assignees| == 0
  }

  function Row(a0: u8, a1: u8, a2: u8, a3: u8, a4: u8, critical: u8): Rounds
  {
    [TableRound(a0, 1), TableRound(a1, 1), TableRound(a2, 1), TableRound(a3, critical), TableRound(a4, 1)]
  }

  /** RoundDefaults: team sizes per round for 5..8 players; the 4th round of 7+ players needs two failures. */
  const RoundDefaults: map<int, Rounds> := map[
    5 := Row(2, 3, 2, 3, 3, 1),
    6 := Row(2, 3, 4, 3, 4, 1),
    7 := Row(2, 3, 3, 4, 4, 2),
    8 := Row(3, 4, 4, 5, 5, 2)
  ]

  /** The number of missions among m[..k] that were proposed (non-empty) and not accepted. */
  function Declined(m: Missions, k: nat): (n: nat)
    requires k <= 5
    ensures n <= k
  {
    if k == 0 then 0
    else Declined(m, k - 1) + (if !IsEmpty(m[k - 1]) && !IsAccepted(m[k - 1]) then 1 else 0)
  }

  /** Every one of the five missions was proposed and turned down. */
  predicate AllRejected(m: Missions)
  {
    forall i :: 0 <= i < 5 ==> !IsEmpty(m[i]) && !IsAccepted(m[i])
  }

  /** Round.GetConculsion */
  function GetConclusion(r: Round): (s: Status)
    ensures s == StatusDefault <==> IsEmpty(r.missions[0])
    ensures s == StatusLost <==>
      !IsEmpty(r.missions[0]) && (AllRejected(r.missions) || r.failure >= r.minFailure)
  {
    DeclinedAll(r.missions, 5);
    if IsEmpty(r.missions[0]) then StatusDefault
    else if Declined(r.missions, 5) == 5 then StatusLost
    else if r.failure >= r.minFailure then StatusLost
    else StatusWon
  }

  /** How many of rounds[..k] conclude with status s. */
  function CountConclusion(rounds: Rounds, k: nat, s: Status): (n: nat)
    requires k <= 5
    ensures n <= k
  {
    if k == 0 then 0
    else CountConclusion(rounds, k - 1, s) + (if GetConclusion(rounds[k - 1]) == s then 1 else 0)
  }

  /** A lost round whose 5th proposal was not accepted: the round was lost by rejections. */
  predicate LostByRejection(r: Round)
  {
    GetConclusion(r) == StatusLost && !IsAccepted(r.missions[4])
  }

  /**
   * getStatus, as a specification: any round lost by rejection loses the
   * game outright; otherwise exactly three lost rounds lose it and exactly
   * three won rounds win it.
   */
  function StatusOf(rounds: Rounds): Status
  {
    if exists i :: 0 <= i < 5 && LostByRejection(rounds[i]) then StatusLost
    else if CountConclusion(rounds, 5, StatusLost) == 3 then StatusLost
    else if CountConclusion(rounds, 5, StatusWon) == 3 then StatusWon
    else StatusDefault
  }

  /** getStatus: the tally loop over the five rounds with its early return. */
  method GetStatus(rounds: Rounds) returns (s: Status)
    ensures s == StatusOf(rounds)
  {
    var resistance, spies := 0, 0;
    for i := 0 to 5
      invariant spies == CountConclusion(rounds, i, StatusLost)
      invariant resistance == CountConclusion(rounds, i, StatusWon)
      invariant forall j :: 0 <= j < i ==> !LostByRejection(rounds[j])
    {
      var concl := GetConclusion(rounds[i]);
      if concl == StatusLost {
        if !IsAccepted(rounds[i].missions[4]) {
          return StatusLost;
        }
        spies := spies + 1;
      } else if concl == StatusWon {
        resistance := resistance + 1;
      }
    }
    if spies == 3 {
      s := StatusLost;
    } else if resistance == 3 {
      s := StatusWon;
    } else {
      s := StatusDefault;
    }
  }

  // ---------------------------------------------------------------------
  // Lemmas

  /** Declined counts to k exactly when every one of the first k missions was proposed and turned down. */
  lemma {:induction false} DeclinedAll(m: Missions, k: nat)
    requires k <= 5
    ensures Declined(m, k) == k <==> forall i :: 0 <= i < k ==> !IsEmpty(m[i]) && !IsAccepted(m[i])
  {
    if k > 0 {
      DeclinedAll(m, k - 1);
    }
  }

  /** A mission nobody voted on is not accepted; a tie is not accepted either. */
  lemma AcceptNeedsMajority(m: Mission)
    ensures |m.accept| == |m.decline| ==> !IsAccepted(m)
    ensures IsEmpty(m) ==> !IsAccepted(m)
  {
  }

  /** The table has rows for exactly 5, 6, 7 and 8 players. */
  lemma RoundDefaultsRows()
    ensures RoundDefaults.Keys == {5, 6, 7, 8}
  {
  }

  /**
   * In every row, no team is larger than the row's player count, and the
   * failure threshold is 1 except for the 4th round with 7 or 8 players,
   * where it is 2. Every table round starts unplayed.
   */
  lemma RoundDefaultsShape(n: int, i: int)
    requires n in RoundDefaults && 0 <= i < 5
    ensures 1 <= RoundDefaults[n][i].assignees as int <= n
    ensures RoundDefaults[n][i].minFailure == (if i == 3 && n >= 7 then 2 else 1)
    ensures GetConclusion(RoundDefaults[n][i]) == StatusDefault
  {
  }

  /** Later missions do not matter while the first is empty. */
  lemma ConclusionIgnoresLaterMissions(r: Round, m: Mission, j: int)
    requires IsEmpty(r.missions[0]) && 1 <= j < 5
    ensures GetConclusion(r.(missions := r.missions[j := m])) == StatusDefault
  {
  }

  /** A played round (first mission non-empty) is always decided: Won or Lost. */
  lemma PlayedRoundDecided(r: Round)
    requires !IsEmpty(r.missions[0])
    ensures GetConclusion(r) == StatusLost <==> AllRejected(r.missions) || r.failure >= r.minFailure
    ensures GetConclusion(r) == StatusWon <==> !AllRejected(r.missions) && r.failure < r.minFailure
  {
  }

  /** The two counts never exceed five together. */
  lemma {:induction false} CountsBounded(rounds: Rounds, k: nat)
    requires k <= 5
    ensures CountConclusion(rounds, k, StatusLost) + CountConclusion(rounds, k, StatusWon) <= k
  {
    if k > 0 {
      CountsBounded(rounds, k - 1);
    }
  }

  /** A game status of Won means exactly three rounds were won, and none was lost by rejection. */
  lemma WonMeansThreeWins(rounds: Rounds)
    requires StatusOf(rounds) == StatusWon
    ensures CountConclusion(rounds, 5, StatusWon) == 3
    ensures CountConclusion(rounds, 5, StatusLost) != 3
    ensures forall i :: 0 <= i < 5 ==> !LostByRejection(rounds[i])
  {
  }

  /** Four won rounds do not make a winner: the tally asks for exactly three. */
  lemma FourWinsNoWinner(rounds: Rounds)
    requires CountConclusion(rounds, 5, StatusWon) == 4
    ensures StatusOf(rounds) != StatusWon
    ensures (forall i :: 0 <= i < 5 ==> !LostByRejection(rounds[i])) ==> StatusOf(rounds) == StatusDefault
  {
    CountsBounded(rounds, 5);
  }
}
