/**
  The parser and validator, `ValidateInputAndParseCards` (Program.cs lines
  63-88): clean the line, split it into distinct tokens, require five of
  them, read each as a suit name and a number in [0, 13], and sort the cards
  by number.

  `Parse` is the specification, written as functions; the method
  `ValidateInputAndParseCards` keeps the source's loop over an array with its
  early exits and its in-place sort, and is proved to compute `Parse`.
 */
module Parser {
  import opened Strings
  import opened Cards
  import opened Sequences

  /** Why no hand came out. `InvalidInput` is the source's `null` result;
      `EmptyTokenException` is the exception `Substring(0, 1)` throws on an
      empty token (line 76), which the source does not catch. */
  datatype ParseError = InvalidInput | EmptyTokenException

  datatype Result<T> = Ok(value: T) | Err(error: ParseError)

  // ---------------------------------------------------------------------
  // Tokens (lines 65-67)
  // ---------------------------------------------------------------------

  /** `input.Trim().Replace(" ", "")`: no space left, and the result neither
      starts nor ends with white space. */
  function Strip(input: string): (r: string)
    ensures ' ' !in r
    ensures r != [] ==> !IsWhiteSpace(r[0]) && !IsWhiteSpace(r[|r| - 1])
  {
    Remove(Trim(input), ' ')
  }

  /** Cleaning a cleaned line changes nothing. */
  lemma StripIdempotent(input: string)
    ensures Strip(Strip(input)) == Strip(input)
  {
    var s := Strip(input);
    assert Trim(s) == s;
  }

  /** `input.Split(",").Distinct()`: the comma-separated pieces of the
      cleaned line, each kept once, in the order of their first
      occurrences, none holding a comma or a space. */
  function Tokens(input: string): (r: seq<string>)
    ensures NoDuplicates(r)
    ensures forall t :: t in r <==> t in Split(Strip(input), ',')
    ensures forall i, j :: 0 <= i < j < |r| ==>
              FirstIndex(Split(Strip(input), ','), r[i]) < FirstIndex(Split(Strip(input), ','), r[j])
    ensures r != [] && r[0] == Split(Strip(input), ',')[0]
    ensures forall i :: 0 <= i < |r| ==> ',' !in r[i] && ' ' !in r[i]
  {
    var pieces := Split(Strip(input), ',');
    var r := Distinct(pieces);
    DistinctHead(pieces);
    forall i | 0 <= i < |r| ensures ',' !in r[i] && ' ' !in r[i] {
      assert r[i] in pieces;
      var j :| 0 <= j < |pieces| && pieces[j] == r[i];
      JoinHasPiece(pieces, ',', j, ' ');
    }
    r
  }

  /** A character missing from a join is missing from each of its pieces. */
  lemma {:induction false} JoinHasPiece(ts: seq<string>, sep: char, j: nat, c: char)
    requires j < |ts|
    requires c !in Join(ts, sep)
    ensures c !in ts[j]
  {
    if |ts| > 1 {
      assert Join(ts, sep) == ts[0] + [sep] + Join(ts[1..], sep);
      if j > 0 {
        JoinHasPiece(ts[1..], sep, j - 1, c);
      }
    }
  }

  // ---------------------------------------------------------------------
  // One token (lines 76-81)
  // ---------------------------------------------------------------------

  /** The card one token denotes: its first character must name a suit, case
      sensitively, and the rest must be what int.TryParse reads as a number in
      [0, 13]. An empty token makes `Substring(0, 1)` throw. */
  function ReadToken(t: string): (r: Result<Card>)
    ensures r == Err(EmptyTokenException) <==> t == []
    ensures t != [] && t[0] !in SuitLetters ==> r == Err(InvalidInput)
    ensures r.Ok? <==> t != [] && t[0] in SuitLetters && ParseInt32(t[1..]).Some? && 0 <= ParseInt32(t[1..]).value <= 13
    ensures r.Ok? ==> Letter(r.value.suit) == t[0] && ParseInt32(t[1..]) == Some(r.value.number)
  {
    if t == [] then Err(EmptyTokenException)
    else
      match SuitNamed(t[0])
      case None => Err(InvalidInput)
      case Some(suit) =>
        match ParseInt32(t[1..])
        case None => Err(InvalidInput)
        case Some(n) => if 0 <= n <= 13 then Ok(Card(suit, n)) else Err(InvalidInput)
  }

  /** Reading the token a card shows gives the card back. */
  lemma ReadShow(c: Card)
    requires 0 <= c.number <= 13
    ensures ReadToken(Show(c)) == Ok(c)
  {
    ReadPadded(c, 0);
  }

  /** A card has many tokens: its number may carry leading zeros and a plus
      sign, so "S5", "S05" and "S+5" are different strings for one card. */
  lemma ReadPadded(c: Card, zeros: nat)
    requires 0 <= c.number <= 13
    ensures ReadToken([Letter(c.suit)] + Padded(Decimal(c.number), zeros)) == Ok(c)
  {
    ParsePadded(c.number, zeros);
    ReadSuitAndNumber(c, Padded(Decimal(c.number), zeros));
  }

  /** The same behind a plus sign, and for zero also behind a minus sign:
      "S+05" is the card S5 and "S-0" the card S0. */
  lemma ReadSigned(c: Card, sign: char, zeros: nat)
    requires 0 <= c.number <= 13
    requires sign == '+' || (sign == '-' && c.number == 0)
    ensures ReadToken([Letter(c.suit), sign] + Padded(Decimal(c.number), zeros)) == Ok(c)
  {
    var rest := [sign] + Padded(Decimal(c.number), zeros);
    ParseSignedPadded(sign, c.number, zeros);
    ReadSuitAndNumber(c, rest);
    assert [Letter(c.suit), sign] + Padded(Decimal(c.number), zeros) == [Letter(c.suit)] + rest;
  }

  lemma ReadSuitAndNumber(c: Card, rest: string)
    requires 0 <= c.number <= 13 && ParseInt32(rest) == Some(c.number)
    ensures ReadToken([Letter(c.suit)] + rest) == Ok(c)
  {
    var t := [Letter(c.suit)] + rest;
    assert t[1..] == rest;
  }

  // ---------------------------------------------------------------------
  // All tokens, in order (the loop of lines 74-82)
  // ---------------------------------------------------------------------

  /** The cards the tokens denote, read in order; the first token that does
      not denote one decides the error. */
  function ReadTokens(ts: seq<string>): (r: Result<seq<Card>>)
    ensures r.Ok? <==> forall i :: 0 <= i < |ts| ==> ReadToken(ts[i]).Ok?
    ensures r.Ok? ==> |r.value| == |ts| && forall i :: 0 <= i < |ts| ==> ReadToken(ts[i]) == Ok(r.value[i])
  {
    if ts == [] then Ok([])
    else
      match ReadToken(ts[0])
      case Err(e) => Err(e)
      case Ok(c) =>
        match ReadTokens(ts[1..])
        case Err(e) => Err(e)
        case Ok(cs) => Ok([c] + cs)
  }

  /** The error of ReadTokens is that of the first token that fails. */
  lemma {:induction false} FirstFailure(ts: seq<string>, k: nat)
    requires k < |ts|
    requires forall j :: 0 <= j < k ==> ReadToken(ts[j]).Ok?
    requires ReadToken(ts[k]).Err?
    ensures ReadTokens(ts) == Err(ReadToken(ts[k]).error)
  {
    if k > 0 {
      assert ReadToken(ts[0]).Ok?;
      forall j | 0 <= j < k - 1 ensures ReadToken(ts[1..][j]).Ok? {
        assert ts[1..][j] == ts[j + 1];
      }
      FirstFailure(ts[1..], k - 1);
    }
  }

  /** Tokens that are a permutation of tokens that all denote cards denote a
      permutation of those cards. */
  lemma ReorderTokens(ts: seq<string>, us: seq<string>)
    requires multiset(ts) == multiset(us)
    requires ReadTokens(ts).Ok?
    ensures ReadTokens(us).Ok?
    ensures multiset(ReadTokens(ts).value) == multiset(ReadTokens(us).value)
  {
    forall i | 0 <= i < |us| ensures ReadToken(us[i]).Ok? {
      assert us[i] in multiset(ts);
      var j :| 0 <= j < |ts| && ts[j] == us[i];
    }
    ReadTokensAsMap(ts);
    ReadTokensAsMap(us);
    MapPermutes(CardOf, ts, us);
  }

  /** The card a token denotes, or an arbitrary one when it denotes none. */
  function CardOf(t: string): Card {
    match ReadToken(t)
    case Ok(c) => c
    case Err(_) => Card(Spade, 0)
  }

  lemma ReadTokensAsMap(ts: seq<string>)
    requires ReadTokens(ts).Ok?
    ensures ReadTokens(ts).value == MapSeq(CardOf, ts)
  {
    var cs := ReadTokens(ts).value;
    assert forall i :: 0 <= i < |ts| ==> cs[i] == CardOf(ts[i]);
  }

  // ---------------------------------------------------------------------
  // Sorting (line 85)
  // ---------------------------------------------------------------------

  /** `x` put into `s` behind the last card whose number does not exceed
      its own (at the front when there is none). */
  function Insert(s: seq<Card>, x: Card): (r: seq<Card>)
    ensures |r| == |s| + 1
    ensures multiset(r) == multiset(s) + multiset{x}
  {
    if s == [] || s[|s| - 1].number <= x.number then s + [x]
    else
      var init := s[..|s| - 1];
      assert s == init + [s[|s| - 1]];
      Insert(init, x) + [s[|s| - 1]]
  }

  /** Inserting into a sorted sequence keeps it sorted. */
  lemma {:induction false} InsertSorted(s: seq<Card>, x: Card)
    requires SortedByNumber(s)
    ensures SortedByNumber(Insert(s, x))
    decreases |s|
  {
    if !(s == [] || s[|s| - 1].number <= x.number) {
      var init := s[..|s| - 1];
      var last := s[|s| - 1];
      InsertSorted(init, x);
      var ins := Insert(init, x);
      forall i | 0 <= i < |ins| ensures ins[i].number <= last.number {
        assert ins[i] in multiset(init) + multiset{x};
      }
      assert Insert(s, x) == ins + [last];
    }
  }

  /** The cards sorted by number, by insertion from the left: a permutation
      of them. */
  function SortByNumber(s: seq<Card>): (r: seq<Card>)
    ensures |r| == |s|
    ensures multiset(r) == multiset(s)
  {
    if s == [] then []
    else
      assert s == s[..|s| - 1] + [s[|s| - 1]];
      Insert(SortByNumber(s[..|s| - 1]), s[|s| - 1])
  }

  /** ... and sorted. */
  lemma {:induction false} SortByNumberSorted(s: seq<Card>)
    ensures SortedByNumber(SortByNumber(s))
    decreases |s|
  {
    if s != [] {
      SortByNumberSorted(s[..|s| - 1]);
      InsertSorted(SortByNumber(s[..|s| - 1]), s[|s| - 1]);
    }
  }

  /** Where Insert puts `x`: behind the cards whose numbers do not exceed
      its own, in front of those whose numbers do. */
  lemma {:induction false} InsertAt(s: seq<Card>, j: nat, x: Card)
    requires j <= |s|
    requires j == 0 || s[j - 1].number <= x.number
    requires forall k :: j <= k < |s| ==> s[k].number > x.number
    ensures Insert(s, x) == s[..j] + [x] + s[j..]
    decreases |s|
  {
    if j < |s| {
      var init, last := s[..|s| - 1], s[|s| - 1];
      assert Insert(s, x) == Insert(init, x) + [last];
      InsertAt(init, j, x);
      PutBeforeLast(s, j, x);
    } else {
      assert s[..j] == s;
    }
  }

  lemma PutBeforeLast<T>(s: seq<T>, j: nat, x: T)
    requires j < |s|
    ensures s[..|s| - 1][..j] + [x] + s[..|s| - 1][j..] + [s[|s| - 1]] == s[..j] + [x] + s[j..]
  {
    var init := s[..|s| - 1];
    assert init[..j] == s[..j];
    assert init[j..] + [s[|s| - 1]] == s[j..];
  }

  /** Sorting one more card is inserting it into the sorted rest. */
  lemma SortOneMore(s: seq<Card>, i: nat)
    requires i < |s|
    ensures SortByNumber(s[..i + 1]) == Insert(SortByNumber(s[..i]), s[i])
  {
    assert s[..i + 1][..i] == s[..i];
  }

  /** Array.Sort with the number comparison, done in place by insertion. */
  method SortInPlace(a: array<Card>)
    modifies a
    ensures a[..] == SortByNumber(old(a[..]))
  {
    ghost var a0 := a[..];
    for i := 0 to a.Length
      invariant a[..i] == SortByNumber(a0[..i])
      invariant a[i..] == a0[i..]
    {
      ghost var before := a[..];
      assert before[i] == a0[i] by {
        assert a[i..][0] == a0[i..][0];
      }
      InsertLast(a, i);
      SortOneMore(a0, i);
      assert a[i + 1..] == a0[i + 1..] by {
        assert a0[i + 1..] == a0[i..][1..];
        assert before[i + 1..] == before[i..][1..];
      }
    }
    assert a[..] == a[..a.Length];
    assert a0 == a0[..a.Length];
  }

  /** Moves `a[i]` down past the cards in front of it with larger numbers:
      the first `i + 1` cards become `a[i]` inserted into the first `i`. */
  method InsertLast(a: array<Card>, i: nat)
    requires i < a.Length
    modifies a
    ensures a[..i + 1] == Insert(old(a[..i]), old(a[i]))
    ensures a[i + 1..] == old(a[i + 1..])
  {
    var x := a[i];
    ghost var a0 := a[..];
    var j := i;
    while j > 0 && a[j - 1].number > x.number
      invariant 0 <= j <= i
      invariant forall k :: 0 <= k < j ==> a[k] == a0[k]
      invariant forall k :: j < k <= i ==> a[k] == a0[k - 1]
      invariant forall k :: i < k < a.Length ==> a[k] == a0[k]
      invariant forall k :: j <= k < i ==> a0[k].number > x.number
    {
      a[j] := a[j - 1];
      j := j - 1;
    }
    a[j] := x;
    InsertedInArray(a[..], a0, i, j);
  }

  /** The array after the inner loop holds the first `i` cards with `a0[i]`
      put in at `j`, which is where Insert puts it. */
  lemma InsertedInArray(now: seq<Card>, a0: seq<Card>, i: nat, j: nat)
    requires j <= i < |a0| == |now|
    requires forall k :: 0 <= k < j ==> now[k] == a0[k]
    requires now[j] == a0[i]
    requires forall k :: j < k <= i ==> now[k] == a0[k - 1]
    requires forall k :: i < k < |now| ==> now[k] == a0[k]
    requires j == 0 || a0[j - 1].number <= a0[i].number
    requires forall k :: j <= k < i ==> a0[k].number > a0[i].number
    ensures now[..i + 1] == Insert(a0[..i], a0[i])
    ensures now[i + 1..] == a0[i + 1..]
  {
    var sorted, x := a0[..i], a0[i];
    InsertAt(sorted, j, x);
    var r := sorted[..j] + [x] + sorted[j..];
    forall k | 0 <= k <= i ensures now[k] == r[k] {
      if k < j {
        assert r[k] == sorted[k];
      } else if k == j {
        assert r[k] == x;
      } else {
        assert r[k] == sorted[k - 1];
      }
    }
    SameAfter(now, a0, i);
  }

  lemma SameAfter(now: seq<Card>, before: seq<Card>, i: nat)
    requires |now| == |before| && i < |now|
    requires forall k :: i < k < |now| ==> now[k] == before[k]
    ensures now[i + 1..] == before[i + 1..]
  {
    var rest := now[i + 1..];
    assert forall k :: 0 <= k < |rest| ==> rest[k] == now[i + 1 + k];
  }

  // ---------------------------------------------------------------------
  // The whole parser (lines 63-88)
  // ---------------------------------------------------------------------

  /** The five cards of the line, sorted by number, or why there are none. */
  function Parse(input: string): (r: Result<seq<Card>>)
    ensures |Tokens(input)| != 5 ==> r == Err(InvalidInput)
    ensures r.Ok? <==> |Tokens(input)| == 5 && forall i :: 0 <= i < 5 ==> ReadToken(Tokens(input)[i]).Ok?
    ensures r.Ok? ==> |r.value| == 5 && SortedByNumber(r.value)
    ensures r.Ok? ==> multiset(r.value) == multiset(ReadTokens(Tokens(input)).value)
    ensures r.Ok? ==> forall i :: 0 <= i < 5 ==> 0 <= r.value[i].number <= 13
    ensures r == Err(EmptyTokenException) <==>
              |Tokens(input)| == 5 && exists k :: 0 <= k < 5 && Tokens(input)[k] == [] &&
                                                 forall j :: 0 <= j < k ==> ReadToken(Tokens(input)[j]).Ok?
  {
    var tokens := Tokens(input);
    if |tokens| != 5 then Err(InvalidInput)
    else
      match ReadTokens(tokens)
      case Err(e) =>
        EmptyTokenFirst(tokens);
        Err(e)
      case Ok(cards) =>
        SortByNumberSorted(cards);
        SortedInRange(tokens);
        Ok(SortByNumber(cards))
  }

  /** ReadTokens throws exactly when an empty token comes before any token
      that does not denote a card. */
  lemma EmptyTokenFirst(ts: seq<string>)
    requires ReadTokens(ts).Err?
    ensures ReadTokens(ts).error == EmptyTokenException <==>
            exists k :: 0 <= k < |ts| && ts[k] == [] && forall j :: 0 <= j < k ==> ReadToken(ts[j]).Ok?
  {
    FirstFailureExists(ts);
    if exists k :: 0 <= k < |ts| && ts[k] == [] && forall j :: 0 <= j < k ==> ReadToken(ts[j]).Ok? {
      var k :| 0 <= k < |ts| && ts[k] == [] && forall j :: 0 <= j < k ==> ReadToken(ts[j]).Ok?;
      FirstFailure(ts, k);
    }
  }

  /** The numbers of the cards read, once sorted, are still in [0, 13]. */
  lemma SortedInRange(ts: seq<string>)
    requires ReadTokens(ts).Ok?
    ensures forall i :: 0 <= i < |ts| ==> 0 <= SortByNumber(ReadTokens(ts).value)[i].number <= 13
  {
    var cards := ReadTokens(ts).value;
    var sorted := SortByNumber(cards);
    forall i | 0 <= i < |ts| ensures 0 <= sorted[i].number <= 13 {
      assert sorted[i] in multiset(cards);
      var j :| 0 <= j < |cards| && cards[j] == sorted[i];
      assert ReadToken(ts[j]) == Ok(cards[j]);
    }
  }

  /** When ReadTokens fails, some token fails and every one before it reads. */
  lemma {:induction false} FirstFailureExists(ts: seq<string>)
    requires ReadTokens(ts).Err?
    ensures exists k :: 0 <= k < |ts| && ReadToken(ts[k]) == Err(ReadTokens(ts).error) &&
                        forall j :: 0 <= j < k ==> ReadToken(ts[j]).Ok?
  {
    if ReadToken(ts[0]).Err? {
      assert ReadToken(ts[0]) == Err(ReadTokens(ts).error);
    } else {
      FirstFailureExists(ts[1..]);
      var k :| 0 <= k < |ts[1..]| && ReadToken(ts[1..][k]) == Err(ReadTokens(ts[1..]).error) &&
               forall j :: 0 <= j < k ==> ReadToken(ts[1..][j]).Ok?;
      assert ReadToken(ts[k + 1]) == Err(ReadTokens(ts).error);
      assert forall j :: 0 <= j < k + 1 ==> ReadToken(ts[j]).Ok? by {
        forall j | 0 <= j < k + 1 ensures ReadToken(ts[j]).Ok? {
          if j > 0 {
            assert ts[j] == ts[1..][j - 1];
          }
        }
      }
    }
  }

  /** The source's parser. It fills an array of five cards token by token,
      leaving at the first bad token, and sorts the array in place. */
  method ValidateInputAndParseCards(input: string) returns (r: Result<seq<Card>>)
    ensures r == Parse(input)
  {
    var cleaned := Remove(Trim(input), ' ');
    var tokens := Distinct(Split(cleaned, ','));
    assert tokens == Tokens(input);
    if |tokens| != 5 {
      return Err(InvalidInput);
    }
    var cards := new Card[5];
    for i := 0 to |tokens|
      invariant forall j :: 0 <= j < i ==> ReadToken(tokens[j]) == Ok(cards[j])
    {
      if tokens[i] == [] {
        Stopped(input, i);
        return Err(EmptyTokenException);
      }
      var suit := SuitNamed(tokens[i][0]);
      if suit.None? {
        Stopped(input, i);
        return Err(InvalidInput);
      }
      var number := ParseInt32(tokens[i][1..]);
      if number.None? || number.value < 0 || number.value > 13 {
        Stopped(input, i);
        return Err(InvalidInput);
      }
      cards[i] := Card(suit.value, number.value);
    }
    Completed(input, cards[..]);
    SortInPlace(cards);
    return Ok(cards[..]);
  }

  /** A line of five tokens whose token `i` is the first not to denote a
      card is refused for that token's reason. */
  lemma Stopped(input: string, i: nat)
    requires |Tokens(input)| == 5 && i < 5
    requires forall j :: 0 <= j < i ==> ReadToken(Tokens(input)[j]).Ok?
    requires ReadToken(Tokens(input)[i]).Err?
    ensures Parse(input) == Err(ReadToken(Tokens(input)[i]).error)
  {
    FirstFailure(Tokens(input), i);
  }

  /** The first piece of the line is the first token read: when it does
      not denote a card, its reason decides, whatever follows. */
  lemma FirstPieceDecides(input: string)
    requires |Tokens(input)| == 5
    requires ReadToken(Split(Strip(input), ',')[0]).Err?
    ensures Parse(input) == Err(ReadToken(Split(Strip(input), ',')[0]).error)
  {
    Stopped(input, 0);
  }

  /** A line of five tokens that denote the cards `cs` parses to those
      cards sorted by number. */
  lemma Completed(input: string, cs: seq<Card>)
    requires |Tokens(input)| == 5 && |cs| == 5
    requires forall j :: 0 <= j < 5 ==> ReadToken(Tokens(input)[j]) == Ok(cs[j])
    ensures Parse(input) == Ok(SortByNumber(cs))
  {
    ReadAll(Tokens(input), cs);
  }

  lemma ReadAll(ts: seq<string>, cs: seq<Card>)
    requires |ts| == |cs|
    requires forall j :: 0 <= j < |ts| ==> ReadToken(ts[j]) == Ok(cs[j])
    ensures ReadTokens(ts) == Ok(cs)
  {
    assert ReadTokens(ts).value == cs;
  }

  // ---------------------------------------------------------------------
  // Round trip
  // ---------------------------------------------------------------------

  /** The tokens the cards show, in order. */
  function ShowAll(cs: seq<Card>): (r: seq<string>)
    requires forall i :: 0 <= i < |cs| ==> cs[i].number >= 0
    ensures |r| == |cs| && forall i :: 0 <= i < |cs| ==> r[i] == Show(cs[i])
  {
    if cs == [] then [] else [Show(cs[0])] + ShowAll(cs[1..])
  }

  /** The characters a card's token is made of. */
  predicate IsTokenChar(c: char) {
    IsDigit(c) || c in SuitLetters
  }

  predicate IsShownChar(c: char) {
    c == ',' || IsTokenChar(c)
  }

  /** A card's token is a suit letter and digits: no comma, no space. */
  lemma ShowChars(c: Card)
    requires c.number >= 0
    ensures Show(c) != []
    ensures forall k :: 0 <= k < |Show(c)| ==> IsTokenChar(Show(c)[k])
    ensures ',' !in Show(c) && ' ' !in Show(c)
  {
    var ds := Decimal(c.number);
    forall k | 0 <= k < |Show(c)| ensures IsTokenChar(Show(c)[k]) {
      if k > 0 {
        assert Show(c)[k] == ds[k - 1];
      }
    }
  }

  /** Different cards show different tokens. */
  lemma ShowInjective(c: Card, d: Card)
    requires 0 <= c.number <= 13 && 0 <= d.number <= 13
    requires Show(c) == Show(d)
    ensures c == d
  {
    ReadShow(c);
    ReadShow(d);
  }

  /** Tokens joined by commas are a line that cleaning leaves alone. */
  lemma CleanLine(shows: seq<string>)
    requires shows != [] && shows[0] != []
    requires forall i, k :: 0 <= i < |shows| && 0 <= k < |shows[i]| ==> IsTokenChar(shows[i][k])
    ensures Strip(Join(shows, ',')) == Join(shows, ',')
  {
    var line := Join(shows, ',');
    JoinChars(shows, ',', IsShownChar);
    assert line != [] by {
      assert |line| >= |shows[0]|;
    }
    assert Trim(line) == line;
    assert ' ' !in line;
  }

  /** Five different cards with numbers in [0, 13], written as their tokens
      joined by commas, parse back to those cards sorted by number. */
  lemma ParseShown(cs: seq<Card>)
    requires |cs| == 5 && NoDuplicates(cs)
    requires forall i :: 0 <= i < 5 ==> 0 <= cs[i].number <= 13
    ensures Parse(Join(ShowAll(cs), ',')) == Ok(SortByNumber(cs))
  {
    TokensOfShown(cs);
    ReadShownAll(cs);
  }

  /** The tokens of such a line are the cards' tokens, in order. */
  lemma TokensOfShown(cs: seq<Card>)
    requires cs != [] && NoDuplicates(cs)
    requires forall i :: 0 <= i < |cs| ==> 0 <= cs[i].number <= 13
    ensures Tokens(Join(ShowAll(cs), ',')) == ShowAll(cs)
  {
    var shows := ShowAll(cs);
    ShownPieces(cs);
    ShowChars(cs[0]);
    CleanLine(shows);
    SplitJoin(shows, ',');
    ShownDistinct(cs);
    DistinctKeepsUnique(shows);
  }

  /** The cards' tokens hold token characters only. */
  lemma ShownPieces(cs: seq<Card>)
    requires forall i :: 0 <= i < |cs| ==> 0 <= cs[i].number <= 13
    ensures forall i :: 0 <= i < |cs| ==> ',' !in ShowAll(cs)[i]
    ensures forall i, k :: 0 <= i < |cs| && 0 <= k < |ShowAll(cs)[i]| ==> IsTokenChar(ShowAll(cs)[i][k])
  {
    var shows := ShowAll(cs);
    forall i | 0 <= i < |cs|
      ensures ',' !in shows[i] && forall k :: 0 <= k < |shows[i]| ==> IsTokenChar(shows[i][k])
    {
      ShowChars(cs[i]);
    }
  }

  /** Different cards have different tokens. */
  lemma ShownDistinct(cs: seq<Card>)
    requires NoDuplicates(cs)
    requires forall i :: 0 <= i < |cs| ==> 0 <= cs[i].number <= 13
    ensures NoDuplicates(ShowAll(cs))
  {
    var shows := ShowAll(cs);
    forall i, j | 0 <= i < j < |cs| ensures shows[i] != shows[j] {
      if shows[i] == shows[j] {
        ShowInjective(cs[i], cs[j]);
      }
    }
  }

  /** Each card's token reads back as that card. */
  lemma ReadShownAll(cs: seq<Card>)
    requires forall i :: 0 <= i < |cs| ==> 0 <= cs[i].number <= 13
    ensures ReadTokens(ShowAll(cs)) == Ok(cs)
  {
    var shows := ShowAll(cs);
    forall i | 0 <= i < |cs| ensures ReadToken(shows[i]) == Ok(cs[i]) {
      ReadShow(cs[i]);
    }
    assert ReadTokens(shows).value == cs;
  }
}
