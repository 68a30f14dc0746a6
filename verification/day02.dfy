/**
 * Day 2 (src/Day02.kt): rock-paper-scissors strategy guide. Each line holds the
 * opponent's hand and a second token, read as our hand in part 1 and as the
 * requested round result in part 2.
 */
module Day02 {
  import opened Utils
  import opened Text

  datatype Hand = Rock | Paper | Scissor

  datatype RoundResult = Win | Draw | Lose

  function HandScore(h: Hand): (s: int)
    ensures 1 <= s <= 3
  {
    match h
    case Rock => 1
    case Paper => 2
    case Scissor => 3
  }

  function ResultScore(r: RoundResult): (s: int)
    ensures s == 0 || s == 3 || s == 6
  {
    match r
    case Win => 6
    case Draw => 3
    case Lose => 0
  }

  /** `Hand.values()`, in declaration order. */
  const AllHands: seq<Hand> := [Rock, Paper, Scissor]

  /** `toHand`: A/X, B/Y, C/Z name rock, paper, scissors; any other token is an error. */
  function ToHand(s: string): Option<Hand>
  {
    if s == "A" || s == "X" then Some(Rock)
    else if s == "B" || s == "Y" then Some(Paper)
    else if s == "C" || s == "Z" then Some(Scissor)
    else None
  }

  /** `toRoundResult`: X/Y/Z request a loss, a draw, a win; any other token is an error. */
  function ToRoundResult(s: string): Option<RoundResult>
  {
    if s == "X" then Some(Lose)
    else if s == "Y" then Some(Draw)
    else if s == "Z" then Some(Win)
    else None
  }

  predicate Beats(a: Hand, b: Hand)
  {
    (a == Scissor && b == Paper) || (a == Rock && b == Scissor) || (a == Paper && b == Rock)
  }

  /** The opponent's column writes a hand as A, B or C. */
  function OpponentCode(h: Hand): string
  {
    match h
    case Rock => "A"
    case Paper => "B"
    case Scissor => "C"
  }

  /** The second column of part 1 writes a hand as X, Y or Z. */
  function ResponseCode(h: Hand): string
  {
    match h
    case Rock => "X"
    case Paper => "Y"
    case Scissor => "Z"
  }

  /** The second column of part 2 writes a result as X, Y or Z. */
  function ResultCode(r: RoundResult): string
  {
    match r
    case Lose => "X"
    case Draw => "Y"
    case Win => "Z"
  }

  /** `toHand` reads back both ways of writing a hand, and nothing else. */
  lemma ToHandCodes(s: string, h: Hand)
    ensures ToHand(OpponentCode(h)) == Some(h) && ToHand(ResponseCode(h)) == Some(h)
    ensures ToHand(s) == Some(h) <==> s == OpponentCode(h) || s == ResponseCode(h)
  {
  }

  /** `toRoundResult` reads back the written result, and nothing else. */
  lemma ToRoundResultCodes(s: string, r: RoundResult)
    ensures ToRoundResult(ResultCode(r)) == Some(r)
    ensures ToRoundResult(s) == Some(r) <==> s == ResultCode(r)
  {
  }

  /** The three hands form a cycle in score order: a hand beats the one whose score is one
      less, counting around from Rock back to Scissor. */
  lemma BeatsByScore(a: Hand, b: Hand)
    ensures Beats(a, b) <==> HandScore(a) % 3 == (HandScore(b) + 1) % 3
  {
  }

  /** No hand beats itself, and of two different hands exactly one beats the other. */
  lemma BeatsIsTournament(a: Hand, b: Hand)
    ensures !Beats(a, a)
    ensures a != b ==> (Beats(a, b) <==> !Beats(b, a))
    ensures !(Beats(a, b) && Beats(b, a))
  {
  }

  /** Part 1: the result of playing `recommendation` against `opponent`. */
  function Outcome(opponent: Hand, recommendation: Hand): (r: RoundResult)
    ensures r == Draw <==> recommendation == opponent
    ensures r == Win <==> Beats(recommendation, opponent)
    ensures r == Lose <==> Beats(opponent, recommendation)
  {
    if recommendation == opponent then Draw
    else if Beats(recommendation, opponent) then Win
    else Lose
  }

  /** `first { pred }` over the hands: the first hand in declaration order that beats `h`. */
  function FirstBeating(hands: seq<Hand>, h: Hand): (r: Option<Hand>)
    ensures r.Some? ==> r.value in hands && Beats(r.value, h)
    ensures r.None? ==> forall x :: x in hands ==> !Beats(x, h)
  {
    if hands == [] then None
    else if Beats(hands[0], h) then Some(hands[0])
    else FirstBeating(hands[1..], h)
  }

  /** `first { opponent beats it }`: the first hand in declaration order that `h` beats. */
  function FirstBeatenBy(hands: seq<Hand>, h: Hand): (r: Option<Hand>)
    ensures r.Some? ==> r.value in hands && Beats(h, r.value)
    ensures r.None? ==> forall x :: x in hands ==> !Beats(h, x)
  {
    if hands == [] then None
    else if Beats(h, hands[0]) then Some(hands[0])
    else FirstBeatenBy(hands[1..], h)
  }

  /** Part 2: the hand to play so that the round ends with `result`. */
  function Choose(opponent: Hand, result: RoundResult): Option<Hand>
  {
    match result
    case Draw => Some(opponent)
    case Win => FirstBeating(AllHands, opponent)
    case Lose => FirstBeatenBy(AllHands, opponent)
  }

  /** `first` never fails, since every hand beats one hand and is beaten by another,
      and the chosen hand produces the requested result. */
  lemma ChooseRealises(opponent: Hand, result: RoundResult)
    ensures Choose(opponent, result).Some?
    ensures Outcome(opponent, Choose(opponent, result).value) == result
  {
    var witnessWin := match opponent case Rock => Paper case Paper => Scissor case Scissor => Rock;
    var witnessLose := match opponent case Rock => Scissor case Paper => Rock case Scissor => Paper;
    assert witnessWin in AllHands && Beats(witnessWin, opponent);
    assert witnessLose in AllHands && Beats(opponent, witnessLose);
  }

  function RoundScore(result: RoundResult, hand: Hand): (s: int)
    ensures 1 <= s <= 9
  {
    ResultScore(result) + HandScore(hand)
  }

  /** `toHand` on every token of a line. */
  function ToHands(tokens: seq<string>): (r: Option<seq<Hand>>)
    ensures r.Some? <==> forall i :: 0 <= i < |tokens| ==> ToHand(tokens[i]).Some?
    ensures r.Some? ==> |r.value| == |tokens|
    ensures r.Some? ==> forall i :: 0 <= i < |tokens| ==> Some(r.value[i]) == ToHand(tokens[i])
  {
    MapAll(ToHand, tokens)
  }

  /** One round of part 1: every token must be a hand, and there must be at least two. */
  function ScoreRound1(line: string): (s: Option<int>)
    ensures s.Some? ==> 1 <= s.value <= 9
  {
    match ToHands(SplitOn(line, ' '))
    case None => None
    case Some(hands) =>
      if |hands| < 2 then None
      else Some(RoundScore(Outcome(hands[0], hands[1]), hands[1]))
  }

  /** One round of part 2: only the first two tokens are read. */
  function ScoreRound2(line: string): (s: Option<int>)
    ensures s.Some? ==> 1 <= s.value <= 9
  {
    var tokens := SplitOn(line, ' ');
    if |tokens| < 2 then None
    else match (ToHand(tokens[0]), ToRoundResult(tokens[1]))
      case (Some(opponent), Some(result)) =>
        (match Choose(opponent, result)
         case Some(hand) => Some(RoundScore(result, hand))
         case None => None)
      case _ => None
  }

  function Scores1(input: seq<string>): (r: seq<Option<int>>)
    ensures |r| == |input|
    ensures forall i :: 0 <= i < |input| ==> r[i] == ScoreRound1(input[i])
  {
    if input == [] then [] else Scores1(input[..|input| - 1]) + [ScoreRound1(input[|input| - 1])]
  }

  function Scores2(input: seq<string>): (r: seq<Option<int>>)
    ensures |r| == |input|
    ensures forall i :: 0 <= i < |input| ==> r[i] == ScoreRound2(input[i])
  {
    if input == [] then [] else Scores2(input[..|input| - 1]) + [ScoreRound2(input[|input| - 1])]
  }

  function Part1(input: seq<string>): (r: Option<int>)
    ensures r.Some? ==> |input| <= r.value <= 9 * |input|
  {
    var scores := Scores1(input);
    var r := SumOptions(scores);
    if r.Some? then SumOptionsBounds(scores, 1, 9); r else r
  }

  function Part2(input: seq<string>): (r: Option<int>)
    ensures r.Some? ==> |input| <= r.value <= 9 * |input|
  {
    var scores := Scores2(input);
    var r := SumOptions(scores);
    if r.Some? then SumOptionsBounds(scores, 1, 9); r else r
  }

  /** A well-formed line "a b" of part 1 scores the round `b` plays against `a`. */
  lemma Round1Defined(a: string, b: string)
    requires ToHand(a).Some? && ToHand(b).Some?
    ensures var opponent := ToHand(a).value; var hand := ToHand(b).value;
      ScoreRound1(a + " " + b) == Some(RoundScore(Outcome(opponent, hand), hand))
  {
    assert a + " " + b == a + [' '] + b;
    SplitOnTwo(a, ' ', b);
    var tokens := [a, b];
    assert ToHand(tokens[0]).Some? && ToHand(tokens[1]).Some?;
    assert ToHands(tokens).Some?;
  }

  /** A well-formed line "a b" of part 2 always scores: `first` cannot fail. */
  lemma Round2Defined(a: string, b: string)
    requires ToHand(a).Some? && ToRoundResult(b).Some?
    ensures var result := ToRoundResult(b).value;
      ScoreRound2(a + " " + b) ==
        Some(RoundScore(result, Choose(ToHand(a).value, result).value))
  {
    assert a + " " + b == a + [' '] + b;
    SplitOnTwo(a, ' ', b);
    ChooseRealises(ToHand(a).value, ToRoundResult(b).value);
  }
}
