/** Day 2, part 2: the second column of the strategy guide is the outcome
    the player must reach; the player's move is derived from it. */
module Day02Part2 {
  import opened Day02Part1

  /** `lose_against`: the move that beats `m`. */
  function LoseAgainst(m: Move): Move
  {
    match m
    case Rock => Paper
    case Paper => Scissors
    case Scissors => Rock
  }

  /** `lose_against` undoes `win_against`, in both orders. */
  lemma LoseAgainstInverse(m: Move)
    ensures LoseAgainst(WinAgainst(m)) == m
    ensures WinAgainst(LoseAgainst(m)) == m
  {
  }

  /** `move_from_letter` of this part: only `A`, `B` and `C` are moves. */
  function OpponentMove(c: char): (m: Move)
    requires c in "ABC"
    ensures MoveValue(m) == c as int - 'A' as int + 1
  {
    if c == 'A' then Rock else if c == 'B' then Paper else Scissors
  }

  /** `outcome_from_letter`: `X` loses, `Y` draws, `Z` wins. */
  function OutcomeFromLetter(c: char): (o: Outcome)
    requires c in "XYZ"
    ensures OutcomeValue(o) == 3 * (c as int - 'X' as int)
  {
    if c == 'X' then Lose else if c == 'Y' then Draw else Win
  }

  /** `get_move_for_outcome`: the move the opponent beats to lose, the same
      move to draw, the move that beats the opponent to win. */
  function MoveForOutcome(opponent: Move, outcome: Outcome): Move
  {
    match outcome
    case Lose => WinAgainst(opponent)
    case Draw => opponent
    case Win => LoseAgainst(opponent)
  }

  /** The chosen move reaches the requested outcome, and it is the only
      move that does. */
  lemma MoveForOutcomeReaches(opponent: Move, outcome: Outcome, m: Move)
    ensures GetOutcome(opponent, MoveForOutcome(opponent, outcome)) == outcome
    ensures GetOutcome(opponent, m) == outcome ==> m == MoveForOutcome(opponent, outcome)
  {
  }

  /** The score of one round: the chosen move plus the requested outcome,
      which is the score part 1 gives the chosen move. */
  function RoundScore(letter1: char, letter2: char): (r: int)
    requires letter1 in "ABC" && letter2 in "XYZ"
    ensures 1 <= r <= 9
    ensures var m := MoveForOutcome(OpponentMove(letter1), OutcomeFromLetter(letter2));
            r == MoveValue(m) + OutcomeValue(GetOutcome(OpponentMove(letter1), m))
  {
    var move1 := OpponentMove(letter1);
    var outcome := OutcomeFromLetter(letter2);
    var move2 := MoveForOutcome(move1, outcome);
    MoveForOutcomeReaches(move1, outcome, move2);
    MoveValue(move2) + OutcomeValue(outcome)
  }

  predicate ValidGuide(rounds: seq<(char, char)>)
  {
    forall i | 0 <= i < |rounds| :: rounds[i].0 in "ABC" && rounds[i].1 in "XYZ"
  }

  function TotalScore(rounds: seq<(char, char)>): int
    requires ValidGuide(rounds)
  {
    if rounds == [] then 0 else RoundScore(rounds[0].0, rounds[0].1) + TotalScore(rounds[1..])
  }

  /** The total lies between the number of rounds and nine times it. */
  lemma {:induction false} TotalScoreBounds(rounds: seq<(char, char)>)
    requires ValidGuide(rounds)
    ensures |rounds| <= TotalScore(rounds) <= 9 * |rounds|
  {
    if rounds != [] {
      TotalScoreBounds(rounds[1..]);
    }
  }
}
