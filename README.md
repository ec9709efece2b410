# Poker Result Checker, modelled in Dafny

The program reads lines such as `H5,S13,C7,C1,D11`. Each line holds five
cards, each written as a suit letter (`S`, `H`, `D`, `C`) followed by a
number from 0 to 13. For each line it prints which of ten poker hands the
cards make, or `Error Input`. All of its logic is in `Program.cs`, and it
works in two stages:

- **Parsing and validation** (`ValidateInputAndParseCards`, lines 63-88).
  The line is trimmed and every space is removed. It is then split at
  commas, and repeated tokens are dropped. There must be exactly five
  tokens left. In each token, the first character must name a suit. The
  rest of the token must be an integer in [0, 13] as `int.TryParse` reads
  integers. The cards are then sorted by number in place.
- **Classification** (`GetHandType`, lines 90-118). This stage computes:
  - the size of the largest group of equal numbers;
  - the number of distinct numbers;
  - whether all the cards have one suit;
  - a royal-flush test and a straight test, both on sorted positions.

  The first hand in a fixed ten-step chain that applies is the answer.

`ProcessCards` (lines 53-61) joins the two stages.

The Dafny modules follow that structure:

- `Strings` states the .NET string operations the parser calls:
  `Trim`, `Replace(" ", "")`, `Split(",")`, `Distinct` and `int.TryParse`
  with `NumberStyles.Integer`.
- `Cards` holds the suit set and the card record (`Suits`, line 3;
  `clsCard`, lines 123-127).
- `Parser` has two halves:
  - a specification written as functions (`Parse`);
  - the source's imperative method `ValidateInputAndParseCards`. It fills
    an array of five cards in a loop, leaves early at the first bad token,
    and sorts the array in place by insertion (`SortInPlace`). It is
    proved to compute `Parse`.
- `Classifier` has two halves:
  - the source's tests, step by step (`Classify`, `Chain`, `Label`);
  - an order-free statement of the hands in the terms of the program's
    help text (lines 25-34) (`Reference`, built on the multiset of numbers
    and the set of suits). The two are proved to agree on every sorted
    hand. `Reference` departs from the help text on two points, where it
    follows the code: a run of five from the ace is not continuous, and
    "four of a kind" means exactly four cards of one number, not five.
- `Poker` holds `ProcessCards` and its end-to-end properties.

The model follows the code where the program's help text suggests
something else:

- The help text's examples write numbers as `J`, `Q`, `K` and `A`. The
  parser accepts digits only, so such a line gets `Error Input`.
- "Continuous" numbers do not include ace-2-3-4-5, which is classified a
  flush or nothing (`AceToFiveIsNoStraight`). 10 to ace counts as
  continuous (`TenToAce`).
- Tokens are compared as strings before they are read. A card typed twice
  the same way counts once and leaves four tokens, so the line is refused
  (`RepeatedToken`). A repeated token keeps the place of its first
  occurrence, so the first piece of the line is always read first
  (`FirstPieceDecides`). For example, `X1,,X1,S2,S3,S4` has the five tokens
  `X1`, the empty token, `S2`, `S3` and `S4`. The bad token `X1` is read
  before the empty one, and the answer is `Error Input`.
- `S5` and `S05` are different tokens for one card. Five cards of one
  number are therefore possible. The help text's "four out of five cards"
  would call them four of a kind, but they make a flush or nothing
  (`FiveOfANumber`).
- A number 0 is accepted (`ZeroToFourIsStraight`).

An empty token, as in `S1,,S2,S3,S4`, makes `Substring(0, 1)` throw at
line 76, and nothing up the call chain catches the exception. The model
makes this an explicit result, `EmptyTokenException`. Tokens are checked in
order: a bad token before the empty one gives `Error Input`, and the empty
token reached first gives the exception. `ProcessCards` returns
`Err(EmptyTokenException)` for such a line and `Ok(text)` for every line
the program answers.

## Model

| member | source | states |
|---|---|---|
| Strings.Trim | Program.cs:65 | the result neither starts nor ends with white space; a string that neither starts nor ends with white space is left as it is |
| Strings.TrimWithKeeps | Program.cs:65 | trimming brings in no character and keeps every character that is not white space |
| Strings.Remove | Program.cs:65 | no removed character is left; a string without it is unchanged; the first and last characters stay when they are not the removed one |
| Strings.RemoveCounts | Program.cs:65 | every other character keeps its number of occurrences |
| Strings.Split | Program.cs:67 | at least one piece; no piece holds the separator; joining the pieces with the separator gives back the input |
| Strings.SplitJoin | Program.cs:67 | splitting a join of separator-free pieces gives back those pieces |
| Strings.FirstIndex | Program.cs:67 | the index found holds the element and no earlier index does |
| Strings.Distinct | Program.cs:67 | no duplicates; exactly the same elements as the input, ordered by where each first occurs in it; never longer |
| Strings.DistinctHead | Program.cs:67 | the first element of the input comes first in the result |
| Strings.DistinctKeepsUnique | Program.cs:67 | a sequence without duplicates is left as it is |
| Strings.DistinctShrinks | Program.cs:67 | a sequence holding some element twice loses at least one element |
| Strings.ParseInt32 | Program.cs:79 | every number read fits in 32 bits |
| Strings.ParseDecimal | Program.cs:79 | the decimal notation of a number, with leading zeros, a `+` or `-` sign and white space around it, reads as that number (negated behind `-`) |
| Strings.TrimWithSplits | Program.cs:79 | trimming takes off only white space in front and behind: the input is that white space around the result |
| Strings.ParseInt32Shape | Program.cs:79 | every string accepted is white space, an optional single `+` or `-`, one or more digits and white space, and reads as the value of the digits, negated behind `-` |
| Strings.SignTwiceRefused | Program.cs:79 | two signs in a row are refused |
| Strings.ParseInt32Refuses | Program.cs:79 | a string holding a character that is not a digit, a sign or white space, or holding no digit, is refused |
| Cards.SuitNamed | Program.cs:76-77 | a character names a suit exactly when it is one of the four letters of the suit set, and the suit's letter is that character |
| Parser.Strip | Program.cs:65 | the cleaned line holds no space and neither starts nor ends with white space |
| Parser.StripIdempotent | Program.cs:65 | cleaning a cleaned line changes nothing |
| Parser.Tokens | Program.cs:65-67 | the tokens have no duplicates, are exactly the comma-separated pieces of the cleaned line, ordered by where each first occurs, start with the line's first piece, and hold no comma or space |
| Parser.ReadToken | Program.cs:76-81 | an empty token throws; a token whose first character names no suit is invalid; a token reads as a card exactly when its first character names a suit and the rest reads as an integer in [0, 13], and then the card has that suit and that number |
| Parser.ReadShow | Program.cs:76-81 | the token a card shows reads back as that card, for every number in [0, 13] |
| Parser.ReadPadded | Program.cs:79-81 | leading zeros in the number give the same card |
| Parser.ReadSigned | Program.cs:79-81 | a `+` sign, and for 0 also a `-` sign, gives the same card |
| Parser.ShowInjective | Program.cs:76-81 | different cards show different tokens |
| Parser.ReadTokens | Program.cs:74-82 | all the tokens read exactly when each one does, and then card `i` is what token `i` denotes |
| Parser.FirstFailure | Program.cs:74-82 | the error is that of the first token that does not read |
| Parser.FirstFailureExists | Program.cs:74-82 | when reading fails, some token fails with that error and every token before it reads |
| Parser.EmptyTokenFirst | Program.cs:74-82 | reading throws exactly when an empty token comes before any other failing token |
| Parser.ReorderTokens | Program.cs:74-82 | a permutation of tokens that all read gives a permutation of the cards |
| Parser.Insert | Program.cs:85 | inserting adds the card: one more element, multiset grows by that card |
| Parser.InsertSorted | Program.cs:85 | inserting into a sorted sequence keeps it sorted by number |
| Parser.SortByNumber | Program.cs:85 | the sorted cards are a permutation of the input |
| Parser.SortByNumberSorted | Program.cs:85 | the sorted cards are in ascending order of number |
| Parser.InsertAt | Program.cs:85 | the card goes behind every card whose number does not exceed its own and in front of those that do |
| Parser.InsertLast | Program.cs:85 | the inner loop turns the first `i + 1` array cells into card `i` inserted into the first `i`, and leaves the rest alone |
| Parser.SortInPlace | Program.cs:85 | the array afterwards holds the sorted permutation of its old contents |
| Parser.Parse | Program.cs:63-88 | refused unless exactly five tokens; succeeds exactly when all five tokens read; then five cards, sorted by number, a permutation of the cards the tokens denote, numbers in [0, 13]; throws exactly when an empty token comes before any other bad token |
| Parser.ValidateInputAndParseCards | Program.cs:63-88 | the loop over the array with its early exits, then the in-place sort, computes exactly `Parse` |
| Parser.FirstPieceDecides | Program.cs:67-79 | of a line with five tokens whose first piece does not denote a card, that piece's reason is the parser's answer, whatever follows, repeats and empty tokens included |
| Parser.Stopped | Program.cs:74-79 | the first bad token decides the error that the early exit returns |
| Parser.Completed | Program.cs:74-87 | when all five tokens read, the result is their cards sorted by number |
| Parser.ParseShown | Program.cs:63-88 | five different cards written as their tokens joined by commas parse back to those cards sorted by number |
| Classifier.Label | Program.cs:99-117 | each printed line starts with its hand's rank "1. " to "10. " |
| Classifier.LabelStartsWithDigit | Program.cs:99-117 | every printed line starts with a digit, so none is "Error Input" |
| Classifier.LabelInjective | Program.cs:99-117 | different hands print different lines |
| Classifier.MaxGroup | Program.cs:92 | no group of equal numbers is larger, and one group has that size |
| Classifier.GroupProfile | Program.cs:92-93 | on five sorted numbers, largest group 4 means four of a number; 3 means three of a number; with 3, two distinct numbers mean the other two pair; without 3 or 4, three distinct numbers mean two pairs and four mean one pair |
| Classifier.StrictIff | Program.cs:93 | five sorted numbers are all different exactly when they rise strictly |
| Classifier.AceHighOfSorted | Program.cs:95 | the position test of line 95 holds on sorted numbers exactly when they are 10, J, Q, K and ace |
| Classifier.RunOfSorted | Program.cs:96 | the ace-free test of line 96 holds on sorted numbers exactly when they are five consecutive numbers not starting at the ace |
| Classifier.FlushIff | Program.cs:94 | `IsFlush`, one suit among the cards, holds exactly when every card has the first card's suit |
| Classifier.RoyalFlushIff | Program.cs:94-95 | on a sorted hand, `IsRoyalFlush` (line 95's position test) holds exactly when the suits agree and the numbers are 10, J, Q, K and ace |
| Classifier.RoyalFlushExactly | Program.cs:94-99 | a sorted hand is classified a royal flush exactly when its suits agree and its numbers are 10, J, Q, K and ace |
| Classifier.StraightIff | Program.cs:96 | on a sorted hand that is no royal flush, `IsStraight` (line 96's test) holds exactly when the numbers are continuous (10 to ace, or five consecutive numbers not starting at the ace) |
| Classifier.ClassifyIsReference | Program.cs:90-118 | on every sorted hand of five cards, `Classify` (the quantities of lines 92-96 fed to `Chain`, the chain of lines 98-117) equals `Reference`, the hand the rules describe from the multiset of numbers and the set of suits alone |
| Classifier.GetHandType | Program.cs:90-118 | the line printed starts with a digit, so it is never "Error Input"; on a sorted hand it is the `Label` of the `Reference` hand |
| Classifier.ReferenceOrderFree | Program.cs:92-94 | the rules depend on the cards and not their order |
| Classifier.ClassifyOrderFree | Program.cs:85-118 | two sorted arrangements of the same cards, which may order equal-number cards differently, are classified alike |
| Classifier.AllDifferent | Program.cs:92-93 | five strictly rising numbers: five distinct numbers, largest group 1 |
| Classifier.AllEqual | Program.cs:92-93 | five equal numbers: one distinct number, largest group 5 |
| Classifier.AceToFiveIsNoStraight | Program.cs:96-117 | ace to five is classified a flush when the suits agree and nothing otherwise |
| Classifier.NoPattern | Program.cs:98-117 | five different numbers that fail both position tests make a flush or nothing |
| Classifier.TenToAce | Program.cs:95-109 | 10 to ace is a royal flush in one suit and a straight otherwise |
| Classifier.ZeroToFourIsStraight | Program.cs:96-109 | 0 to 4 is a straight flush in one suit and a straight otherwise |
| Classifier.FiveOfANumber | Program.cs:102-117 | five cards of one number make a flush or nothing, never four of a kind |
| Poker.ProcessCards | Program.cs:53-61 | the answer is "Error Input" exactly when the parser refuses the line; it throws exactly when the parser throws; otherwise it is the line for the hand the rules give the parsed cards |
| Poker.ShownHand | Program.cs:53-61 | five different cards typed as their tokens joined by commas get the line for the hand they make |
| Poker.ReorderedLine | Program.cs:53-61 | reordering the tokens of a line of five cards does not change the answer |
| Poker.RepeatedToken | Program.cs:65-69 | "S5,S5,H3,H4,D6" leaves four tokens and is answered "Error Input" |

## Left out

- `Main` (lines 5-51) is not modelled: the console loop, the help banner, the `X` sentinel and `Console.ReadLine`/`WriteLine` are I/O. The `ToUpper` at line 44 is the caller's job. `ProcessCards` takes the line as it arrives, already upper-cased, so the suit test here is case-sensitive.
- `Array.Sort` (line 85) is an unstable sort, and its internal order among cards of equal number is unspecified. The model sorts stably by insertion. The `Parser.ValidateInputAndParseCards` result can therefore order equal-number cards differently from .NET. `Classifier.ClassifyOrderFree` shows that this never changes the hand.
- Strings.ParseInt32: the model does not cover culture-specific sign symbols or the trailing NUL characters that .NET tolerates. It reads the invariant culture's `+` and `-`, ASCII digits and the white space U+0009 to U+000D and U+0020.
- The exception that `Substring(0, 1)` throws on an empty token is a result value, `EmptyTokenException`, not an exception. Where the program would end with an unhandled exception, the model returns it from `Poker.ProcessCards`.
- The suit set holds one-letter strings, and line 77 looks up a one-letter substring. The model holds the letters themselves; the two tests accept the same characters.
- Classifier.Label: its contract states how each printed line begins (its rank) and that the ten lines differ. The full wording of lines 99-117 is in `Rule`, written as concatenated phrases. No contract states the wording character by character.
- Strings.Remove: the contracts state that the character is gone and that every other character keeps its count and its first and last place. They do not state that the remaining characters keep their order.
- Strings are sequences of Unicode scalar values, while .NET strings are UTF-16 code units, and `Substring(0, 1)` at line 76 takes one code unit. The answers agree on every line the model can express, because a first character outside the Basic Multilingual Plane names no suit either way. A line holding a lone surrogate cannot be expressed in the model at all.
- Card numbers are unbounded integers. Only values in [0, 13] ever leave the parser, and the 32-bit range is enforced by the `int.TryParse` model.
