/**
 * The few pieces of Java string handling the game relies on: decimal
 * rendering of ints (`%d`, `StringBuilder.append(int)`), the two-digit
 * zero padding of `%02d`, and joining lines with the platform separator
 * (`Collectors.joining`). `Split` and `ParseNat` are not in the program:
 * they are the inverses used to state what the renderings preserve.
 */
module Text {

  datatype Option<+T> = None | Some(value: T)

  /** What `%s` (or string concatenation) prints for a possibly null string. */
  function MessageText(message: Option<string>): string {
    match message
    case Some(m) => m
    case None => "null"
  }

  /** `System.lineSeparator()`, fixed to the Unix value. */
  const LineSeparator: string := "\n"

  predicate IsDigit(ch: char) {
    '0' <= ch <= '9'
  }

  predicate AllDigits(s: string) {
    forall i | 0 <= i < |s| :: IsDigit(s[i])
  }

  function DigitChar(d: nat): (ch: char)
    requires d < 10
    ensures IsDigit(ch) && ch as int - '0' as int == d
  {
    "0123456789"[d]
  }

  function DigitValue(ch: char): (d: nat)
    requires IsDigit(ch)
    ensures d < 10 && DigitChar(d) == ch
  {
    ch as int - '0' as int
  }

  /** Decimal digits of a natural number, most significant first, no leading zero. */
  function NatToString(n: nat): (s: string)
    ensures 1 <= |s| && AllDigits(s)
    ensures n < 10 <==> |s| == 1
    ensures |s| > 1 ==> s[0] != '0'
    decreases n
  {
    if n < 10 then [DigitChar(n)] else NatToString(n / 10) + [DigitChar(n % 10)]
  }

  /** Value of a string of decimal digits. */
  function ParseNat(s: string): nat
    requires AllDigits(s)
    decreases |s|
  {
    if s == [] then 0 else ParseNat(s[..|s| - 1]) * 10 + DigitValue(s[|s| - 1])
  }

  lemma {:induction false} ParseNatToString(n: nat)
    ensures ParseNat(NatToString(n)) == n
    decreases n
  {
    var s := NatToString(n);
    if n >= 10 {
      ParseNatToString(n / 10);
      assert s[..|s| - 1] == NatToString(n / 10);
    }
  }

  /** Java's decimal rendering of an int: a minus sign for a negative value, then the digits. */
  function IntToString(n: int): (s: string)
    ensures 1 <= |s|
    ensures s[0] == '-' <==> n < 0
  {
    if n < 0 then "-" + NatToString(-n) else NatToString(n)
  }

  /** The rendering reads back as the number: its digits parse to the absolute value. */
  lemma IntToStringParses(n: int)
    ensures var s := IntToString(n);
      && (n >= 0 <==> AllDigits(s))
      && (n < 0 ==> AllDigits(s[1..]) && ParseNat(s[1..]) == -n)
      && (n >= 0 ==> ParseNat(s) == n)
  {
    ParseNatToString(if n < 0 then -n else n);
    if n < 0 {
      assert !IsDigit(IntToString(n)[0]);
      assert IntToString(n)[1..] == NatToString(-n);
    }
  }

  /** `String.format("%02d", n)`: at least two characters, zero padded after any sign. */
  function Pad2(n: int): (s: string)
    ensures 2 <= |s|
    ensures 0 <= n < 100 ==> |s| == 2
    ensures n >= 0 ==> AllDigits(s) && ParseNat(s) == n
    ensures n < 0 || n >= 10 ==> s == IntToString(n)
  {
    IntToStringParses(n);
    if 0 <= n < 10 then
      assert ParseNat("0" + NatToString(n)) == n by {
        var t := "0" + NatToString(n);
        assert t == [DigitChar(0), DigitChar(n)];
        assert t[..1] == [DigitChar(0)];
        assert ParseNat(t[..1]) == 0 by {
          assert t[..1][..0] == [];
        }
      }
      "0" + NatToString(n)
    else IntToString(n)
  }

  /** Position of the first occurrence of `x` in `s`. */
  function IndexOf<T(==)>(s: seq<T>, x: T): (k: nat)
    requires x in s
    ensures k < |s| && s[k] == x && x !in s[..k]
  {
    if s[0] == x then 0 else 1 + IndexOf(s[1..], x)
  }

  /** `Collectors.joining(sep)`: the separator between consecutive items, none after the last. */
  function Join(items: seq<string>, sep: string): string
    decreases |items|
  {
    if items == [] then ""
    else if |items| == 1 then items[0]
    else items[0] + sep + Join(items[1..], sep)
  }

  lemma {:induction false} JoinAppend(items: seq<string>, item: string, sep: string)
    requires items != []
    ensures Join(items + [item], sep) == Join(items, sep) + sep + item
    decreases |items|
  {
    if |items| > 1 {
      assert (items + [item])[1..] == items[1..] + [item];
      JoinAppend(items[1..], item, sep);
    } else {
      assert (items + [item])[1..] == [item];
    }
  }

  lemma {:induction false} JoinLength(items: seq<string>, sep: string)
    requires items != []
    ensures |Join(items, sep)| == SumLengths(items) + (|items| - 1) * |sep|
    decreases |items|
  {
    if |items| > 1 {
      JoinLength(items[1..], sep);
    }
  }

  function SumLengths(items: seq<string>): nat
    decreases |items|
  {
    if items == [] then 0 else |items[0]| + SumLengths(items[1..])
  }

  /** The pieces of `s` between occurrences of `c`: the inverse of joining with `[c]`. */
  function Split(s: string, c: char): (parts: seq<string>)
    ensures 1 <= |parts|
    decreases |s|
  {
    if c !in s then [s]
    else
      var i := IndexOf(s, c);
      [s[..i]] + Split(s[i + 1..], c)
  }

  predicate NoneContains(items: seq<string>, c: char) {
    forall i | 0 <= i < |items| :: c !in items[i]
  }

  /** Joining lines that do not contain the separator character can be undone by splitting. */
  lemma {:induction false} SplitJoin(items: seq<string>, c: char)
    requires items != [] && NoneContains(items, c)
    ensures Split(Join(items, [c]), c) == items
    decreases |items|
  {
    if |items| > 1 {
      var s := Join(items, [c]);
      var head := items[0];
      var rest := Join(items[1..], [c]);
      assert s == head + [c] + rest;
      assert s[|head|] == c;
      var i := IndexOf(s, c);
      assert s[..|head|] == head;
      assert s[..i] == head;
      assert s[i + 1..] == rest;
      SplitJoin(items[1..], c);
    }
  }
}
