/** Day 2, part 1: rock, paper, scissors scored from a strategy guide whose
    second column is read as the player's own move. */
module Day02Part1 {
  import opened Common

  datatype Move = Rock | Paper | Scissors

  datatype Outcome = Lose | Draw | Win

  /** The move's discriminant, which is also its score. */
  function MoveValue(m: Move): int
  {
    match m
    case Rock => 1
    case Paper => 2
    case Scissors => 3
  }

  /** The outcome's discriminant, which is also its score. */
  function OutcomeValue(o: Outcome): int
  {
    match o
    case Lose => 0
    case Draw => 3
    case Win => 6
  }

  /** `win_against`: the move `m` beats. */
  function WinAgainst(m: Move): Move
  {
    match m
    case Rock => Scissors
    case Paper => Rock
    case Scissors => Paper
  }

  /** A move beats the move one below it, counting modulo 3. */
  lemma WinAgainstIsOneBelow(m: Move, n: Move)
    ensures WinAgainst(m) == n <==> (MoveValue(m) - MoveValue(n)) % 3 == 1
  {
  }

  /** `win_against` is a 3-cycle: no move beats itself, none is beaten by
      the move it beats, and three steps come back to the start. */
  lemma WinAgainstCycle(m: Move)
    ensures WinAgainst(m) != m
    ensures WinAgainst(WinAgainst(m)) != m
    ensures WinAgainst(WinAgainst(WinAgainst(m))) == m
  {
  }

  predicate IsLetter(c: char)
  {
    c in "ABCXYZ"
  }

  /** `move_from_letter`: `A`/`X` is rock, `B`/`Y` paper, `C`/`Z`
      scissors; any other letter is unreachable. */
  function MoveFromLetter(c: char): (m: Move)
    requires IsLetter(c)
    ensures m == Rock <==> c == 'A' || c == 'X'
    ensures m == Paper <==> c == 'B' || c == 'Y'
    ensures m == Scissors <==> c == 'C' || c == 'Z'
  {
    if c == 'A' || c == 'X' then Rock
    else if c == 'B' || c == 'Y' then Paper
    else Scissors
  }

  /** `get_outcome`: the outcome for the player of `move2` against `move1`. */
  function GetOutcome(move1: Move, move2: Move): Outcome
  {
    if WinAgainst(move1) == move2 then Lose
    else if WinAgainst(move2) == move1 then Win
    else Draw
  }

  /** The player loses exactly when the opponent's move beats theirs, wins
      exactly when their move beats the opponent's, and draws exactly on
      equal moves. */
  lemma GetOutcomeMeaning(move1: Move, move2: Move)
    ensures GetOutcome(move1, move2) == Lose <==> WinAgainst(move1) == move2
    ensures GetOutcome(move1, move2) == Win <==> WinAgainst(move2) == move1
    ensures GetOutcome(move1, move2) == Draw <==> move1 == move2
  {
  }

  function Flip(o: Outcome): Outcome
  {
    match o
    case Lose => Win
    case Draw => Draw
    case Win => Lose
  }

  /** Swapping the two moves swaps winning and losing. */
  lemma GetOutcomeSwap(move1: Move, move2: Move)
    ensures GetOutcome(move2, move1) == Flip(GetOutcome(move1, move2))
  {
  }

  /** The score of one round: the player's move plus the outcome. */
  function RoundScore(letter1: char, letter2: char): (r: int)
    requires IsLetter(letter1) && IsLetter(letter2)
    ensures 1 <= r <= 9
  {
    var move1 := MoveFromLetter(letter1);
    var move2 := MoveFromLetter(letter2);
    MoveValue(move2) + OutcomeValue(GetOutcome(move1, move2))
  }

  predicate ValidGuide(rounds: seq<(char, char)>)
  {
    forall i | 0 <= i < |rounds| :: IsLetter(rounds[i].0) && IsLetter(rounds[i].1)
  }

  /** The total score: the sum of the round scores. */
  function TotalScore(rounds: seq<(char, char)>): (r: int)
    requires ValidGuide(rounds)
  {
    if rounds == [] then 0 else RoundScore(rounds[0].0, rounds[0].1) + TotalScore(rounds[1..])
  }

  /** Every round scores between 1 and 9, so the total lies between
      the number of rounds and nine times it. */
  lemma {:induction false} TotalScoreBounds(rounds: seq<(char, char)>)
    requires ValidGuide(rounds)
    ensures |rounds| <= TotalScore(rounds) <= 9 * |rounds|
  {
    if rounds != [] {
      TotalScoreBounds(rounds[1..]);
    }
  }

  /** The total of a guide is the total of its two parts. */
  lemma {:induction false} TotalScoreAppend(a: seq<(char, char)>, b: seq<(char, char)>)
    requires ValidGuide(a) && ValidGuide(b)
    ensures ValidGuide(a + b) && TotalScore(a + b) == TotalScore(a) + TotalScore(b)
  {
    if a == [] {
      assert a + b == b;
    } else {
      assert (a + b)[1..] == a[1..] + b;
      TotalScoreAppend(a[1..], b);
    }
  }
}
