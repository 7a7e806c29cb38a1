/**
 * The text form of a selection list, "[a, b, c]", as
 * UnboundedKnapsack::selectedElements_toString produces it, with the
 * decimal form of each index as std::to_string writes an int, and a reader
 * for that text that undoes it.
 */
module Rendering {

  datatype Option<T> = None | Some(value: T)

  function DigitChar(d: int): char
    requires 0 <= d <= 9
  {
    "0123456789"[d]
  }

  predicate IsDigit(ch: char)
  {
    '0' <= ch <= '9'
  }

  /** The value of a digit character; anything else reads as 0. */
  function DigitValue(ch: char): int
  {
    if IsDigit(ch) then ch as int - '0' as int else 0
  }

  /** Decimal digits of n, most significant first, no leading zero. */
  function NatDecimal(n: nat): (s: string)
    ensures |s| >= 1 && IsDigit(s[0])
    decreases n
  {
    if n < 10 then [DigitChar(n)] else NatDecimal(n / 10) + [DigitChar(n % 10)]
  }

  /** std::to_string of an int: a minus sign for a negative number, then the
    * digits of its magnitude. */
  function Decimal(i: int): (s: string)
    ensures |s| >= 1 && (s[0] == '-' <==> i < 0)
  {
    if i < 0 then "-" + NatDecimal(-i) else NatDecimal(i)
  }

  /** The number a string of digits stands for. */
  function DigitsValue(s: string): nat
  {
    if s == [] then 0 else DigitsValue(s[..|s| - 1]) * 10 + (if IsDigit(s[|s| - 1]) then DigitValue(s[|s| - 1]) else 0)
  }

  /** The number an optionally signed numeral stands for. */
  function ParseInt(s: string): int
  {
    if s != [] && s[0] == '-' then 0 - DigitsValue(s[1..]) else DigitsValue(s)
  }

  /** The elements of l joined by ", ", with no separator at the end. */
  function Items(l: seq<int>): (r: string)
    ensures r == [] <==> l == []
  {
    if |l| == 0 then ""
    else if |l| == 1 then Decimal(l[0])
    else Decimal(l[0]) + ", " + Items(l[1..])
  }

  /** The rendering "[" + items + "]". */
  function Render(l: seq<int>): (r: string)
    ensures |r| >= 2 && r[0] == '[' && r[|r| - 1] == ']'
    ensures |r| == 2 <==> l == []
  {
    "[" + Items(l) + "]"
  }

  /** Position of the first ',' in s, or |s| when there is none. */
  function IndexOfComma(s: string): (i: nat)
    ensures i <= |s|
    ensures forall j :: 0 <= j < i ==> s[j] != ','
    ensures i < |s| ==> s[i] == ','
  {
    if s == [] || s[0] == ',' then 0 else 1 + IndexOfComma(s[1..])
  }

  /** Reads back a list of numerals separated by ", ". */
  function ParseItems(s: string): seq<int>
    decreases |s|
  {
    if s == [] then []
    else
      var i := IndexOfComma(s);
      if i == |s| then [ParseInt(s)]
      else [ParseInt(s[..i])] + ParseItems(s[if i + 2 <= |s| then i + 2 else |s|..])
  }

  /** Reads back "[" + items + "]". */
  function ParseList(r: string): Option<seq<int>>
  {
    if |r| >= 2 && r[0] == '[' && r[|r| - 1] == ']' then Some(ParseItems(r[1..|r| - 1])) else None
  }

  // ---------------------------------------------------------------------
  //  Lemmas
  // ---------------------------------------------------------------------

  lemma {:induction false} NatDecimalRoundTrip(n: nat)
    ensures forall j :: 0 <= j < |NatDecimal(n)| ==> IsDigit(NatDecimal(n)[j])
    ensures DigitsValue(NatDecimal(n)) == n
    decreases n
  {
    var s := NatDecimal(n);
    if n >= 10 {
      NatDecimalRoundTrip(n / 10);
      assert s[..|s| - 1] == NatDecimal(n / 10);
    }
  }

  /** The decimal form of an int reads back as that int, and holds only
    * digits and a leading minus sign, so never a ',' or a ' '. */
  lemma DecimalRoundTrip(i: int)
    ensures ParseInt(Decimal(i)) == i
    ensures forall j :: 0 <= j < |Decimal(i)| ==> IsDigit(Decimal(i)[j]) || (j == 0 && Decimal(i)[j] == '-')
    ensures |Decimal(i)| >= 1
  {
    var s := Decimal(i);
    if i < 0 {
      var m := NatDecimal(-i);
      NatDecimalRoundTrip(-i);
      assert s == "-" + m;
      assert s[0] == '-' && s[1..] == m;
      assert ParseInt(s) == 0 - DigitsValue(m);
      SignedDigits(m);
    } else {
      NatDecimalRoundTrip(i);
      assert s == NatDecimal(i) && s[0] != '-';
    }
  }

  /** A minus sign in front of digits leaves digits after position 0. */
  lemma SignedDigits(m: string)
    requires forall j :: 0 <= j < |m| ==> IsDigit(m[j])
    ensures forall j :: 1 <= j < |"-" + m| ==> IsDigit(("-" + m)[j])
  {
    forall j | 1 <= j < |"-" + m|
      ensures IsDigit(("-" + m)[j])
    {
      assert ("-" + m)[j] == m[j - 1];
    }
  }

  lemma {:induction false} IndexOfCommaSkips(d: string, t: string)
    requires forall j :: 0 <= j < |d| ==> d[j] != ','
    ensures IndexOfComma(d + t) == |d| + IndexOfComma(t)
  {
    if d == [] {
      assert d + t == t;
    } else {
      assert (d + t)[0] == d[0] != ',';
      assert (d + t)[1..] == d[1..] + t;
      IndexOfCommaSkips(d[1..], t);
    }
  }

  /** A numeral followed by ", " is read as that numeral, then the rest. */
  lemma ParseItemsCons(d: string, rest: string)
    requires d != [] && forall j :: 0 <= j < |d| ==> d[j] != ','
    ensures ParseItems(d + ", " + rest) == [ParseInt(d)] + ParseItems(rest)
  {
    var s := d + ", " + rest;
    IndexOfCommaSkips(d, ", " + rest);
    assert s == d + (", " + rest);
    assert IndexOfComma(s) == |d|;
    assert s[..|d|] == d;
    assert s[|d| + 2..] == rest;
  }

  /** A numeral alone is read as that numeral. */
  lemma ParseItemsSingle(d: string)
    requires d != [] && forall j :: 0 <= j < |d| ==> d[j] != ','
    ensures ParseItems(d) == [ParseInt(d)]
  {
    IndexOfCommaSkips(d, "");
    assert d + "" == d;
  }

  /** Joining and reading back gives the list again. */
  lemma {:induction false} ItemsRoundTrip(l: seq<int>)
    ensures ParseItems(Items(l)) == l
  {
    if |l| >= 1 {
      DecimalRoundTrip(l[0]);
      if |l| == 1 {
        ParseItemsSingle(Decimal(l[0]));
      } else {
        ParseItemsCons(Decimal(l[0]), Items(l[1..]));
        ItemsRoundTrip(l[1..]);
        assert l == [l[0]] + l[1..];
      }
    }
  }

  /** The rendering of every list reads back as that list. */
  lemma RenderRoundTrip(l: seq<int>)
    ensures ParseList(Render(l)) == Some(l)
  {
    var r := Render(l);
    assert r[1..|r| - 1] == Items(l);
    ItemsRoundTrip(l);
  }

  /** Appending one more element to a non-empty list adds the separator and
    * that element's digits at the end. */
  lemma {:induction false} ItemsSnoc(l: seq<int>, x: int)
    requires l != []
    ensures Items(l + [x]) == Items(l) + ", " + Decimal(x)
  {
    var lx := l + [x];
    assert lx[0] == l[0];
    if |l| == 1 {
      assert lx[1..] == [x];
      assert Items(lx) == Decimal(l[0]) + ", " + Items([x]);
    } else {
      assert lx[1..] == l[1..] + [x];
      ItemsSnoc(l[1..], x);
      var d := Decimal(l[0]);
      assert Items(lx) == d + ", " + (Items(l[1..]) + ", " + Decimal(x));
      assert Items(l) == d + ", " + Items(l[1..]);
    }
  }

  /** The text selectedElements_toString has built after appending the
    * first i elements, each followed by ", ". */
  ghost function Accumulated(l: seq<int>, i: nat): (r: string)
    requires i <= |l|
    ensures |r| >= 1 && r[0] == '['
    ensures i > 0 ==> |r| >= 3 && r[|r| - 2..] == ", "
  {
    if i == 0 then "[" else "[" + Items(l[..i]) + ", "
  }

  lemma AccumulatedStep(l: seq<int>, i: nat)
    requires i < |l|
    ensures Accumulated(l, i + 1) == Accumulated(l, i) + Decimal(l[i]) + ", "
  {
    assert l[..i + 1] == l[..i] + [l[i]];
    if i > 0 {
      ItemsSnoc(l[..i], l[i]);
    } else {
      assert Items(l[..1]) == Decimal(l[0]);
    }
  }

  /** For a non-empty list, dropping the final ", " and closing the bracket
    * gives the rendering. */
  lemma AccumulatedAll(l: seq<int>)
    requires l != []
    ensures var a := Accumulated(l, |l|); |a| >= 2 && a[..|a| - 2] + "]" == Render(l)
  {
    assert l[..|l|] == l;
    var a := Accumulated(l, |l|);
    var body := "[" + Items(l);
    assert a == body + ", ";
    assert a[..|a| - 2] == body;
  }
}
