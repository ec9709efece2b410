/**
  One line of input and the program's answer to it: `ProcessCards`
  (Program.cs lines 53-61) reads the line, answers "Error Input" when it is
  not five cards, and otherwise the line for the hand the cards make.
 */
module Poker {
  import opened Strings
  import opened Cards
  import opened Parser
  import opened Classifier
  import opened Sequences

  /** The answer to a line that is not five cards (Program.cs line 58). */
  const ErrorInput: string := "Error Input"

  /** ProcessCards: the answer to one line, or the exception `Substring`
      throws out of the parser on an empty token. The answer is
      "Error Input" exactly when the parser refuses the line, and otherwise
      the line for the hand the rules give the parsed cards. */
  function ProcessCards(input: string): (r: Result<string>)
    ensures r == Ok(ErrorInput) <==> Parse(input) == Err(InvalidInput)
    ensures r.Err? <==> Parse(input) == Err(EmptyTokenException)
    ensures r.Err? ==> r.error == EmptyTokenException
    ensures Parse(input).Ok? ==> r == Ok(Label(ReferenceOf(Parse(input).value)))
  {
    match Parse(input)
    case Err(InvalidInput) => Ok(ErrorInput)
    case Err(EmptyTokenException) => Err(EmptyTokenException)
    case Ok(cards) => Ok(GetHandType(cards))
  }

  /** Five different cards with numbers in [0, 13], typed as their tokens
      joined by commas, get the line for the hand they make, in whatever
      order they are typed. */
  lemma ShownHand(cs: seq<Card>)
    requires |cs| == 5 && NoDuplicates(cs)
    requires forall i :: 0 <= i < 5 ==> 0 <= cs[i].number <= 13
    ensures ProcessCards(Join(ShowAll(cs), ',')) == Ok(Label(ReferenceOf(cs)))
  {
    ParseShown(cs);
    ReferenceOrderFree(SortByNumber(cs), cs);
  }

  /** Reordering the tokens of a line of five cards does not change the
      answer: the cards are the same, and so is the hand they make. */
  lemma ReorderedLine(x: string, y: string)
    requires multiset(Tokens(x)) == multiset(Tokens(y))
    requires Parse(x).Ok?
    ensures ProcessCards(y) == ProcessCards(x)
  {
    var ts, us := Tokens(x), Tokens(y);
    assert |us| == |multiset(us)| == |multiset(ts)| == 5;
    ReorderTokens(ts, us);
    var a, b := Parse(x).value, Parse(y).value;
    assert multiset(a) == multiset(b);
    ClassifyOrderFree(a, b);
  }

  /** Tokens are compared as strings before they are read: a card typed
      twice the same way counts once, and four tokens are an error. */
  lemma RepeatedToken()
    ensures ProcessCards("S5,S5,H3,H4,D6") == Ok(ErrorInput)
  {
    RepeatedTokenCounts();
  }

  lemma RepeatedTokenCounts()
    ensures |Tokens("S5,S5,H3,H4,D6")| < 5
  {
    var pieces := ["S5", "S5", "H3", "H4", "D6"];
    RepeatedTokenPieces();
    CleanLine(pieces);
    SplitJoin(pieces, ',');
    DistinctShrinks(pieces, 0, 1);
  }

  lemma RepeatedTokenPieces()
    ensures Join(["S5", "S5", "H3", "H4", "D6"], ',') == "S5,S5,H3,H4,D6"
    ensures forall i, k :: 0 <= i < 5 && 0 <= k < 2 ==> IsTokenChar(["S5", "S5", "H3", "H4", "D6"][i][k])
  {
  }
}
