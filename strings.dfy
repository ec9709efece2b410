/**
  The .NET string operations the poker program relies on: String.Trim,
  String.Replace of a single character by nothing, String.Split on one
  separator, Enumerable.Distinct, and int.TryParse with its default
  NumberStyles.Integer.
 */
module Strings {

  datatype Option<T> = None | Some(value: T)

  /** Char.IsWhiteSpace: the Unicode space, line and paragraph separators,
      U+0009 to U+000D and U+0085. String.Trim removes these. */
  predicate IsWhiteSpace(c: char) {
    var k := c as int;
    (0x09 <= k <= 0x0D) || k == 0x20 || k == 0x85 || k == 0xA0 || k == 0x1680
    || (0x2000 <= k <= 0x200A) || k == 0x2028 || k == 0x2029 || k == 0x202F
    || k == 0x205F || k == 0x3000
  }

  /** The white space NumberStyles.AllowLeadingWhite and AllowTrailingWhite
      let int.TryParse skip: U+0009 to U+000D and U+0020. */
  predicate IsNumberWhite(c: char) {
    c == ' ' || '\t' <= c <= '\r'
  }

  predicate IsDigit(c: char) {
    '0' <= c <= '9'
  }

  predicate AllDigits(s: string) {
    forall k :: 0 <= k < |s| ==> IsDigit(s[k])
  }

  // ---------------------------------------------------------------------
  // Trim
  // ---------------------------------------------------------------------

  /** `s` without its leading and trailing `white` characters: the leading
      ones go first, then the trailing ones. */
  function TrimWith(s: string, white: char -> bool): (r: string)
    ensures |r| <= |s|
    ensures r != [] ==> !white(r[0]) && !white(r[|r| - 1])
    decreases |s|
  {
    if s != [] && white(s[0]) then TrimWith(s[1..], white)
    else if s != [] && white(s[|s| - 1]) then TrimWith(s[..|s| - 1], white)
    else s
  }

  /** Trimming brings in no character and loses none that is not `white`. */
  lemma {:induction false} TrimWithKeeps(s: string, white: char -> bool)
    ensures forall c :: c in TrimWith(s, white) ==> c in s
    ensures forall k :: 0 <= k < |s| && !white(s[k]) ==> s[k] in TrimWith(s, white)
    decreases |s|
  {
    if s != [] && white(s[0]) {
      TrimWithKeeps(s[1..], white);
      forall k | 0 <= k < |s| && !white(s[k]) ensures s[k] in TrimWith(s, white) {
        assert s[k] == s[1..][k - 1];
      }
    } else if s != [] && white(s[|s| - 1]) {
      var init := s[..|s| - 1];
      TrimWithKeeps(init, white);
      forall k | 0 <= k < |s| && !white(s[k]) ensures s[k] in TrimWith(s, white) {
        assert s[k] == init[k];
      }
      forall c | c in TrimWith(s, white) ensures c in s {
        assert c in init;
      }
    }
  }

  /** `white` characters around a string that neither starts nor ends with
      one are exactly what trimming takes off. */
  lemma {:induction false} TrimWithAround(before: string, t: string, after: string, white: char -> bool)
    requires t != [] && !white(t[0]) && !white(t[|t| - 1])
    requires forall k :: 0 <= k < |before| ==> white(before[k])
    requires forall k :: 0 <= k < |after| ==> white(after[k])
    ensures TrimWith(before + t + after, white) == t
    decreases |before|
  {
    var s := before + t + after;
    if before != [] {
      assert s[0] == before[0];
      assert s[1..] == before[1..] + t + after;
      TrimWithAround(before[1..], t, after, white);
    } else {
      assert s == t + after;
      TrimWithAfter(t, after, white);
    }
  }

  lemma {:induction false} TrimWithAfter(t: string, after: string, white: char -> bool)
    requires t != [] && !white(t[0]) && !white(t[|t| - 1])
    requires forall k :: 0 <= k < |after| ==> white(after[k])
    ensures TrimWith(t + after, white) == t
    decreases |after|
  {
    var s := t + after;
    if after != [] {
      assert s[0] == t[0];
      assert s[|s| - 1] == after[|after| - 1];
      assert s[..|s| - 1] == t + after[..|after| - 1];
      TrimWithAfter(t, after[..|after| - 1], white);
    } else {
      assert s == t;
    }
  }

  /** A string that neither starts nor ends with a `white` character is its
      own trimming. */
  lemma TrimWithNothingToTrim(s: string, white: char -> bool)
    requires s != [] ==> !white(s[0]) && !white(s[|s| - 1])
    ensures TrimWith(s, white) == s
  {
  }

  /** String.Trim(). */
  function Trim(s: string): (r: string)
    ensures r != [] ==> !IsWhiteSpace(r[0]) && !IsWhiteSpace(r[|r| - 1])
    ensures (s != [] ==> !IsWhiteSpace(s[0]) && !IsWhiteSpace(s[|s| - 1])) ==> r == s
  {
    var r := TrimWith(s, IsWhiteSpace);
    assert (s != [] ==> !IsWhiteSpace(s[0]) && !IsWhiteSpace(s[|s| - 1])) ==> r == s by {
      if s != [] ==> !IsWhiteSpace(s[0]) && !IsWhiteSpace(s[|s| - 1]) {
        TrimWithNothingToTrim(s, IsWhiteSpace);
      }
    }
    r
  }

  // ---------------------------------------------------------------------
  // Replace(c, "")
  // ---------------------------------------------------------------------

  /** String.Replace of the one-character string `c` by the empty string:
      every `c` goes, the rest stays (`RemoveCounts`). */
  function Remove(s: string, c: char): (r: string)
    ensures c !in r
    ensures c !in s ==> r == s
    ensures s != [] && s[0] != c ==> r != [] && r[0] == s[0]
    ensures s != [] && s[|s| - 1] != c ==> r != [] && r[|r| - 1] == s[|s| - 1]
  {
    if s == [] then []
    else
      assert s == [s[0]] + s[1..];
      var rest := Remove(s[1..], c);
      if s[0] == c then rest else [s[0]] + rest
  }

  /** Every character other than `c` keeps its multiplicity. */
  lemma {:induction false} RemoveCounts(s: string, c: char)
    ensures forall x :: x != c ==> multiset(Remove(s, c))[x] == multiset(s)[x]
  {
    if s != [] {
      RemoveCounts(s[1..], c);
      assert s == [s[0]] + s[1..];
    }
  }

  // ---------------------------------------------------------------------
  // Split and Join
  // ---------------------------------------------------------------------

  /** The pieces of `ts` glued with `sep` in between: the inverse of Split. */
  function Join(ts: seq<string>, sep: char): string
  {
    if ts == [] then []
    else if |ts| == 1 then ts[0]
    else ts[0] + [sep] + Join(ts[1..], sep)
  }

  /** String.Split(sep): the maximal `sep`-free pieces of `s`, empty pieces
      included, so that gluing them back with `sep` gives `s` again. */
  function Split(s: string, sep: char): (r: seq<string>)
    ensures |r| >= 1
    ensures forall i :: 0 <= i < |r| ==> sep !in r[i]
    ensures Join(r, sep) == s
  {
    if s == [] then [[]]
    else
      var rest := Split(s[1..], sep);
      if s[0] == sep then
        assert ([[]] + rest)[1..] == rest;
        [[]] + rest
      else
        var r := [[s[0]] + rest[0]] + rest[1..];
        assert r[1..] == rest[1..];
        assert s == [s[0]] + s[1..];
        r
  }

  lemma {:induction false} SplitSingle(t: string, sep: char)
    requires sep !in t
    ensures Split(t, sep) == [t]
  {
    if t != [] {
      SplitSingle(t[1..], sep);
      assert [t[0]] + t[1..] == t;
    }
  }

  lemma {:induction false} SplitFirst(t: string, sep: char, u: string)
    requires sep !in t
    ensures Split(t + [sep] + u, sep) == [t] + Split(u, sep)
  {
    if t == [] {
      assert (t + [sep] + u)[1..] == u;
    } else {
      var s := t + [sep] + u;
      assert s[0] == t[0] && s[1..] == t[1..] + [sep] + u;
      SplitFirst(t[1..], sep, u);
      var rest := Split(s[1..], sep);
      assert rest == [t[1..]] + Split(u, sep);
      assert rest[0] == t[1..] && rest[1..] == Split(u, sep);
      assert [t[0]] + t[1..] == t;
    }
  }

  /** Splitting what Join glued gives back the pieces, provided none of
      them holds the separator. */
  lemma {:induction false} SplitJoin(ts: seq<string>, sep: char)
    requires ts != []
    requires forall i :: 0 <= i < |ts| ==> sep !in ts[i]
    ensures Split(Join(ts, sep), sep) == ts
  {
    if |ts| == 1 {
      SplitSingle(ts[0], sep);
    } else {
      SplitJoin(ts[1..], sep);
      SplitFirst(ts[0], sep, Join(ts[1..], sep));
      assert [ts[0]] + ts[1..] == ts;
    }
  }

  /** Every character of a join is the separator or a character of a piece. */
  lemma {:induction false} JoinChars(ts: seq<string>, sep: char, p: char -> bool)
    requires p(sep)
    requires forall i, k :: 0 <= i < |ts| && 0 <= k < |ts[i]| ==> p(ts[i][k])
    ensures forall k :: 0 <= k < |Join(ts, sep)| ==> p(Join(ts, sep)[k])
  {
    if |ts| > 1 {
      JoinChars(ts[1..], sep, p);
      var j := Join(ts, sep);
      var rest := Join(ts[1..], sep);
      assert j == ts[0] + [sep] + rest;
      forall k | 0 <= k < |j| ensures p(j[k]) {
        if k < |ts[0]| {
          assert j[k] == ts[0][k];
        } else if k == |ts[0]| {
          assert j[k] == sep;
        } else {
          assert j[k] == rest[k - |ts[0]| - 1];
        }
      }
    } else if |ts| == 1 {
      assert Join(ts, sep) == ts[0];
    }
  }

  // ---------------------------------------------------------------------
  // Distinct
  // ---------------------------------------------------------------------

  predicate NoDuplicates<T(==)>(s: seq<T>) {
    forall i, j :: 0 <= i < j < |s| ==> s[i] != s[j]
  }

  /** Where `x` first occurs in `s`. */
  function FirstIndex<T(==)>(s: seq<T>, x: T): (k: nat)
    requires x in s
    ensures k < |s| && s[k] == x
    ensures forall q :: 0 <= q < k ==> s[q] != x
  {
    if s[0] == x then 0 else 1 + FirstIndex(s[1..], x)
  }

  /** An element first occurs in `s` where it first occurs in `s` with one
      more element added at the end. */
  lemma FirstIndexInPrefix<T>(s: seq<T>, x: T)
    requires s != [] && x in s[..|s| - 1]
    ensures FirstIndex(s[..|s| - 1], x) == FirstIndex(s, x)
  {
    var p := s[..|s| - 1];
    var k := FirstIndex(p, x);
    assert forall q :: 0 <= q <= k ==> s[q] == p[q];
    FirstIndexIs(s, x, k);
  }

  /** The first occurrence is the one with no occurrence before it. */
  lemma FirstIndexIs<T>(s: seq<T>, x: T, k: nat)
    requires k < |s| && s[k] == x
    requires forall q :: 0 <= q < k ==> s[q] != x
    ensures FirstIndex(s, x) == k
  {
  }

  /** Enumerable.Distinct: the first occurrence of every element, in the
      order of those first occurrences. */
  function Distinct(s: seq<string>): (r: seq<string>)
    ensures NoDuplicates(r)
    ensures forall x :: x in r <==> x in s
    ensures forall i, j :: 0 <= i < j < |r| ==> FirstIndex(s, r[i]) < FirstIndex(s, r[j])
    ensures |r| <= |s|
  {
    if s == [] then []
    else
      var p := s[..|s| - 1];
      var d := Distinct(p);
      assert s == p + [s[|s| - 1]];
      forall x | x in d ensures FirstIndex(p, x) == FirstIndex(s, x) {
        FirstIndexInPrefix(s, x);
      }
      if s[|s| - 1] in p then d
      else
        assert FirstIndex(s, s[|s| - 1]) == |s| - 1;
        d + [s[|s| - 1]]
  }

  /** The first element of a sequence comes first in its Distinct. */
  lemma DistinctHead(s: seq<string>)
    requires s != []
    ensures Distinct(s) != [] && Distinct(s)[0] == s[0]
  {
    var r := Distinct(s);
    assert s[0] in r;
    var m :| 0 <= m < |r| && r[m] == s[0];
    assert FirstIndex(s, s[0]) == 0;
  }

  /** A repeated element counts once: Distinct drops at least one element. */
  lemma {:induction false} DistinctShrinks(s: seq<string>, i: nat, j: nat)
    requires i < j < |s| && s[i] == s[j]
    ensures |Distinct(s)| < |s|
  {
    var p := s[..|s| - 1];
    if j == |s| - 1 {
      assert s[|s| - 1] == p[i];
    } else {
      DistinctShrinks(p, i, j);
    }
  }

  /** Distinct leaves a sequence without duplicates as it is. */
  lemma {:induction false} DistinctKeepsUnique(s: seq<string>)
    requires NoDuplicates(s)
    ensures Distinct(s) == s
  {
    if s != [] {
      var p := s[..|s| - 1];
      assert NoDuplicates(p);
      DistinctKeepsUnique(p);
      assert p + [s[|s| - 1]] == s;
    }
  }

  // ---------------------------------------------------------------------
  // int.TryParse
  // ---------------------------------------------------------------------

  const Int32Min: int := -0x8000_0000
  const Int32Max: int := 0x7FFF_FFFF

  /** The value of a string of decimal digits, most significant first. */
  function DigitsValue(ds: string): nat
    requires AllDigits(ds)
  {
    if ds == [] then 0
    else 10 * DigitsValue(ds[..|ds| - 1]) + (ds[|ds| - 1] as int - '0' as int)
  }

  /** The canonical decimal notation of `n`, as Int32.ToString writes it. */
  function Decimal(n: nat): (s: string)
    ensures |s| >= 1 && AllDigits(s)
    ensures DigitsValue(s) == n
    ensures s[0] == '0' ==> n == 0
  {
    var last := [(n % 10 + '0' as int) as char];
    if n < 10 then last
    else
      var s := Decimal(n / 10) + last;
      assert s[..|s| - 1] == Decimal(n / 10);
      s
  }

  /** int.TryParse(s, out v) with NumberStyles.Integer: optional white space,
      an optional sign, one or more ASCII digits, optional white space, and a
      value that fits in 32 bits. */
  function ParseInt32(s: string): (r: Option<int>)
    ensures r.Some? ==> Int32Min <= r.value <= Int32Max
  {
    ParseSignedDigits(TrimWith(s, IsNumberWhite))
  }

  /** The number an optional sign and one or more digits denote, if it fits
      in 32 bits. */
  function ParseSignedDigits(body: string): (r: Option<int>)
    ensures r.Some? ==> Int32Min <= r.value <= Int32Max
  {
    var signed := |body| > 0 && (body[0] == '+' || body[0] == '-');
    var digits := if signed then body[1..] else body;
    if digits == [] || !AllDigits(digits) then None
    else
      var magnitude: int := DigitsValue(digits);
      var v: int := if signed && body[0] == '-' then -magnitude else magnitude;
      if Int32Min <= v <= Int32Max then Some(v) else None
  }

  lemma {:induction false} LeadingZeroValue(ds: string)
    requires AllDigits(ds)
    ensures AllDigits("0" + ds) && DigitsValue("0" + ds) == DigitsValue(ds)
  {
    if ds != [] {
      var z := "0" + ds;
      assert z[..|z| - 1] == "0" + ds[..|ds| - 1];
      LeadingZeroValue(ds[..|ds| - 1]);
    }
  }

  /** TryParse reads back what Decimal writes, also behind a sign, leading
      zeros and surrounding number white space. */
  lemma ParseDecimal(n: nat, zeros: nat, before: string, after: string)
    requires n <= Int32Max
    requires forall k :: 0 <= k < |before| ==> IsNumberWhite(before[k])
    requires forall k :: 0 <= k < |after| ==> IsNumberWhite(after[k])
    ensures ParseInt32(before + Padded(Decimal(n), zeros) + after) == Some(n)
    ensures ParseInt32(before + "+" + Padded(Decimal(n), zeros) + after) == Some(n)
    ensures ParseInt32(before + "-" + Padded(Decimal(n), zeros) + after) == Some(-(n as int))
  {
    var ds := Padded(Decimal(n), zeros);
    PaddedValue(Decimal(n), zeros);
    ParseUnsigned(before, ds, after);
    ParseSigned(before, '+', ds, after);
    ParseSigned(before, '-', ds, after);
    assert DigitsValue(ds) == n;
  }

  /** The same with nothing around: the number alone, or behind a sign. */
  lemma ParsePadded(n: nat, zeros: nat)
    requires n <= Int32Max
    ensures ParseInt32(Padded(Decimal(n), zeros)) == Some(n)
  {
    var ds := Padded(Decimal(n), zeros);
    PaddedValue(Decimal(n), zeros);
    TrimWithNothingToTrim(ds, IsNumberWhite);
    assert !(ds[0] == '+' || ds[0] == '-');
  }

  lemma ParseSignedPadded(sign: char, n: nat, zeros: nat)
    requires sign == '+' || sign == '-'
    requires n <= Int32Max
    ensures ParseInt32([sign] + Padded(Decimal(n), zeros)) == Some(if sign == '-' then -(n as int) else n)
  {
    var ds := Padded(Decimal(n), zeros);
    PaddedValue(Decimal(n), zeros);
    var t := [sign] + ds;
    assert t[|t| - 1] == ds[|ds| - 1];
    TrimWithNothingToTrim(t, IsNumberWhite);
    SignedDigitsValue(sign, ds);
  }

  lemma ParseUnsigned(before: string, ds: string, after: string)
    requires |ds| >= 1 && AllDigits(ds) && DigitsValue(ds) <= Int32Max
    requires forall k :: 0 <= k < |before| ==> IsNumberWhite(before[k])
    requires forall k :: 0 <= k < |after| ==> IsNumberWhite(after[k])
    ensures ParseInt32(before + ds + after) == Some(DigitsValue(ds))
  {
    ParseAround(before, ds, after);
    assert !(ds[0] == '+' || ds[0] == '-');
    assert ParseSignedDigits(ds) == Some(DigitsValue(ds));
  }

  lemma ParseSigned(before: string, sign: char, ds: string, after: string)
    requires sign == '+' || sign == '-'
    requires |ds| >= 1 && AllDigits(ds) && DigitsValue(ds) <= Int32Max
    requires forall k :: 0 <= k < |before| ==> IsNumberWhite(before[k])
    requires forall k :: 0 <= k < |after| ==> IsNumberWhite(after[k])
    ensures ParseInt32(before + [sign] + ds + after) == Some(if sign == '-' then -(DigitsValue(ds) as int) else DigitsValue(ds))
  {
    var t := [sign] + ds;
    SignedDigitsValue(sign, ds);
    assert t[|t| - 1] == ds[|ds| - 1];
    ParseAround(before, t, after);
    ConcatAssociates(before, [sign], ds, after);
  }

  lemma ConcatAssociates(a: string, b: string, c: string, d: string)
    ensures a + b + c + d == a + (b + c) + d
  {
  }

  /** Number white space around `t` does not change what TryParse reads. */
  lemma ParseAround(before: string, t: string, after: string)
    requires |t| >= 1 && !IsNumberWhite(t[0]) && !IsNumberWhite(t[|t| - 1])
    requires forall k :: 0 <= k < |before| ==> IsNumberWhite(before[k])
    requires forall k :: 0 <= k < |after| ==> IsNumberWhite(after[k])
    ensures ParseInt32(before + t + after) == ParseSignedDigits(t)
  {
    TrimWithAround(before, t, after, IsNumberWhite);
  }

  lemma SignedDigitsValue(sign: char, ds: string)
    requires sign == '+' || sign == '-'
    requires |ds| >= 1 && AllDigits(ds) && DigitsValue(ds) <= Int32Max
    ensures ParseSignedDigits([sign] + ds) == Some(if sign == '-' then -(DigitsValue(ds) as int) else DigitsValue(ds))
  {
    var t := [sign] + ds;
    assert t[1..] == ds;
    SignedBody(t);
  }

  lemma SignedBody(t: string)
    requires |t| >= 2 && (t[0] == '+' || t[0] == '-')
    requires AllDigits(t[1..]) && DigitsValue(t[1..]) <= Int32Max
    ensures ParseSignedDigits(t) == Some(if t[0] == '-' then -(DigitsValue(t[1..]) as int) else DigitsValue(t[1..]))
  {
  }

  /** `ds` behind `zeros` leading zeros. */
  function Padded(ds: string, zeros: nat): string
  {
    if zeros == 0 then ds else "0" + Padded(ds, zeros - 1)
  }

  lemma {:induction false} PaddedValue(ds: string, zeros: nat)
    requires |ds| >= 1 && AllDigits(ds)
    ensures |Padded(ds, zeros)| >= 1 && AllDigits(Padded(ds, zeros))
    ensures DigitsValue(Padded(ds, zeros)) == DigitsValue(ds)
    ensures Padded(ds, zeros)[0] == if zeros == 0 then ds[0] else '0'
  {
    if zeros > 0 {
      PaddedValue(ds, zeros - 1);
      LeadingZeroValue(Padded(ds, zeros - 1));
    }
  }

  /** TryParse refuses a string holding a character that is neither a digit,
      a sign nor number white space, and a string with no digit at all. */
  lemma ParseInt32Refuses(s: string)
    requires (exists k :: 0 <= k < |s| && !IsDigit(s[k]) && !IsNumberWhite(s[k]) && s[k] != '+' && s[k] != '-')
             || (forall k :: 0 <= k < |s| ==> !IsDigit(s[k]))
    ensures ParseInt32(s) == None
  {
    var body := TrimWith(s, IsNumberWhite);
    TrimWithKeeps(s, IsNumberWhite);
    var signed := |body| > 0 && (body[0] == '+' || body[0] == '-');
    var digits := if signed then body[1..] else body;
    if exists k :: 0 <= k < |s| && !IsDigit(s[k]) && !IsNumberWhite(s[k]) && s[k] != '+' && s[k] != '-' {
      var k :| 0 <= k < |s| && !IsDigit(s[k]) && !IsNumberWhite(s[k]) && s[k] != '+' && s[k] != '-';
      var m :| 0 <= m < |body| && body[m] == s[k];
      if signed {
        NotAllDigits(digits, m - 1);
      } else {
        NotAllDigits(digits, m);
      }
    } else if digits != [] {
      assert digits[0] in s;
      NotAllDigits(digits, 0);
    }
  }

  /** What trimming took off: `white` characters in front and behind. */
  lemma {:induction false} TrimWithSplits(s: string, white: char -> bool) returns (before: string, after: string)
    ensures s == before + TrimWith(s, white) + after
    ensures forall k :: 0 <= k < |before| ==> white(before[k])
    ensures forall k :: 0 <= k < |after| ==> white(after[k])
    decreases |s|
  {
    if s != [] && white(s[0]) {
      var b, a := TrimWithSplits(s[1..], white);
      assert s == [s[0]] + s[1..];
      WhiteInFront(s[0], b, TrimWith(s[1..], white), a, white);
      before, after := [s[0]] + b, a;
    } else if s != [] && white(s[|s| - 1]) {
      var b, a := TrimWithSplits(s[..|s| - 1], white);
      assert s == s[..|s| - 1] + [s[|s| - 1]];
      WhiteBehind(b, TrimWith(s[..|s| - 1], white), a, s[|s| - 1], white);
      before, after := b, a + [s[|s| - 1]];
    } else {
      before, after := [], [];
    }
  }

  lemma WhiteInFront(c: char, b: string, t: string, a: string, white: char -> bool)
    requires white(c) && forall k :: 0 <= k < |b| ==> white(b[k])
    ensures [c] + (b + t + a) == ([c] + b) + t + a
    ensures forall k :: 0 <= k < |[c] + b| ==> white(([c] + b)[k])
  {
  }

  lemma WhiteBehind(b: string, t: string, a: string, c: char, white: char -> bool)
    requires white(c) && forall k :: 0 <= k < |a| ==> white(a[k])
    ensures (b + t + a) + [c] == b + t + (a + [c])
    ensures forall k :: 0 <= k < |a + [c]| ==> white((a + [c])[k])
  {
  }

  /** Every string TryParse accepts is number white space, an optional
      sign, one or more digits and number white space again, and reads as
      the value of its digits, negated behind a minus sign. A second sign,
      or white space among the digits, is refused. */
  lemma ParseInt32Shape(s: string) returns (before: string, sign: string, ds: string, after: string)
    requires ParseInt32(s).Some?
    ensures s == before + sign + ds + after
    ensures forall k :: 0 <= k < |before| ==> IsNumberWhite(before[k])
    ensures forall k :: 0 <= k < |after| ==> IsNumberWhite(after[k])
    ensures sign == "" || sign == "+" || sign == "-"
    ensures ds != [] && AllDigits(ds)
    ensures ParseInt32(s).value == if sign == "-" then -(DigitsValue(ds) as int) else DigitsValue(ds)
  {
    var body := TrimWith(s, IsNumberWhite);
    before, after := TrimWithSplits(s, IsNumberWhite);
    if |body| > 0 && (body[0] == '+' || body[0] == '-') {
      sign, ds := body[..1], body[1..];
      assert body == sign + ds;
    } else {
      sign, ds := "", body;
    }
  }

  /** Two signs in a row are refused: "++5" and "+-0" are no numbers. */
  lemma SignTwiceRefused(t: string)
    requires |t| >= 2 && (t[0] == '+' || t[0] == '-') && (t[1] == '+' || t[1] == '-')
    ensures ParseInt32(t) == None
  {
    if ParseInt32(t).Some? {
      var before, sign, ds, after := ParseInt32Shape(t);
      assert false;
    }
  }

  lemma NotAllDigits(ds: string, m: int)
    requires 0 <= m < |ds| && !IsDigit(ds[m])
    ensures !AllDigits(ds)
  {
  }
}
