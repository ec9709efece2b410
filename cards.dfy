/**
  Cards as the program builds them (the `clsCard` record, Program.cs
  lines 123-127): a suit and a number. The suit is kept as the one-letter
  name the input uses; the number is whatever the parser accepted.
 */
module Cards {
  import opened Strings

  datatype Suit = Spade | Heart | Diamond | Club

  /** The accepted suit names (the `Suits` set, Program.cs line 3). The
      source holds them as one-letter strings and looks up the first
      character of a token as such a string; here they are the letters. */
  const SuitLetters: set<char> := {'S', 'H', 'D', 'C'}

  /** The letter that names a suit. */
  function Letter(s: Suit): char
  {
    match s
    case Spade => 'S'
    case Heart => 'H'
    case Diamond => 'D'
    case Club => 'C'
  }

  /** The suit a letter names: exactly the letters in `SuitLetters` name
      one, and that suit's letter is the letter looked up. */
  function SuitNamed(c: char): (r: Option<Suit>)
    ensures r.Some? <==> c in SuitLetters
    ensures r.Some? ==> Letter(r.value) == c
  {
    if c == 'S' then Some(Spade)
    else if c == 'H' then Some(Heart)
    else if c == 'D' then Some(Diamond)
    else if c == 'C' then Some(Club)
    else None
  }

  datatype Card = Card(suit: Suit, number: int)

  /** Ordered by number, as the comparison delegate of Program.cs line 85 orders. */
  predicate SortedByNumber(s: seq<Card>) {
    forall i, j :: 0 <= i < j < |s| ==> s[i].number <= s[j].number
  }

  /** The token a user types for a card: its suit's letter, then its number. */
  function Show(c: Card): string
    requires c.number >= 0
  {
    [Letter(c.suit)] + Decimal(c.number)
  }
}
