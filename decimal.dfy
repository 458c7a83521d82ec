/**
  Decimal text for integers: the `%d` verb of fmt for the non-negative
  numbers the generator prints, strconv.Atoi as the request handler uses it,
  and the dotted version strings ("138.0.6950.97") built from them.
 */
module Decimal {

  import opened Wrappers
  import opened Strings

  const MIN_INT64: int := -0x8000_0000_0000_0000
  const MAX_INT64: int := 0x7FFF_FFFF_FFFF_FFFF

  predicate AllDigits(s: string) {
    forall i :: 0 <= i < |s| ==> IsDigit(s[i])
  }

  function DigitChar(d: nat): (c: char)
    requires d < 10
    ensures IsDigit(c) && c as int - '0' as int == d
  {
    ('0' as int + d) as char
  }

  /** `fmt.Sprintf("%d", n)` for n >= 0: the shortest decimal numeral of `n`. */
  function NatToString(n: nat): (s: string)
    ensures s != [] && AllDigits(s)
    ensures s[0] == '0' ==> n == 0
  {
    if n < 10 then [DigitChar(n)] else NatToString(n / 10) + [DigitChar(n % 10)]
  }

  /** The number a string of decimal digits denotes. */
  function DigitsValue(s: string): nat
    requires AllDigits(s)
  {
    if s == [] then 0 else 10 * DigitsValue(s[..|s| - 1]) + (s[|s| - 1] as int - '0' as int)
  }

  /** Reading a printed number back gives the number. */
  lemma {:induction false} NatToStringRoundTrip(n: nat)
    ensures DigitsValue(NatToString(n)) == n
  {
    if n >= 10 {
      NatToStringRoundTrip(n / 10);
      var s := NatToString(n);
      assert s[..|s| - 1] == NatToString(n / 10);
    }
  }

  /**
    strconv.Atoi with a 64-bit `int`: an optional sign followed by at least
    one decimal digit, whose value fits in 64 bits; anything else is an error.
   */
  function Atoi(s: string): (r: Option<int>)
    ensures r.Some? ==> MIN_INT64 <= r.value <= MAX_INT64
    ensures r.Some? && r.value < 0 ==> s != [] && s[0] == '-'
  {
    var signed := s != [] && (s[0] == '+' || s[0] == '-');
    var digits := if signed then s[1..] else s;
    if digits == [] || !AllDigits(digits) then None
    else
      var v: int := if signed && s[0] == '-' then -(DigitsValue(digits) as int) else DigitsValue(digits);
      if MIN_INT64 <= v <= MAX_INT64 then Some(v) else None
  }

  /** Atoi reads back every printed non-negative 64-bit number. */
  lemma AtoiNatToString(n: nat)
    requires n <= MAX_INT64
    ensures Atoi(NatToString(n)) == Some(n)
  {
    NatToStringRoundTrip(n);
  }

  // ---------------------------------------------------------------------------
  // Dotted version strings

  /** The numbers `ns` printed with `%d` and separated by dots. */
  function Dotted(ns: seq<nat>): (s: string)
    requires ns != []
  {
    if |ns| == 1 then NatToString(ns[0])
    else Dotted(ns[..|ns| - 1]) + "." + NatToString(ns[|ns| - 1])
  }

  /** The numbers of a list of words, if every word is a non-empty run of digits. */
  function ParseNumbers(words: seq<string>): (r: Option<seq<nat>>)
    ensures r.Some? ==> |r.value| == |words|
    ensures r.Some? ==> forall i, j :: 0 <= i < |words| && 0 <= j < |words[i]| ==> IsDigit(words[i][j])
  {
    if words == [] then Some([])
    else
      var w := words[|words| - 1];
      match ParseNumbers(words[..|words| - 1])
      case None => None
      case Some(ns) => if w != [] && AllDigits(w) then Some(ns + [DigitsValue(w)]) else None
  }

  /** The numeric components of a dotted version string, if it is one. */
  function VersionNumbers(s: string): Option<seq<nat>> {
    ParseNumbers(Split(s, '.'))
  }

  /** Parsing one more word of digits appends its value. */
  lemma ParseNumbersSnoc(words: seq<string>, w: string)
    requires ParseNumbers(words).Some? && w != [] && AllDigits(w)
    ensures ParseNumbers(words + [w]) == Some(ParseNumbers(words).value + [DigitsValue(w)])
  {
    assert (words + [w])[..|words|] == words;
  }

  /** A printed number has no dot. */
  lemma NoDotInNumeral(n: nat)
    ensures '.' !in NatToString(n)
  {
    var s := NatToString(n);
    forall i | 0 <= i < |s| ensures s[i] != '.' { assert IsDigit(s[i]); }
  }

  /** Parsing a dotted version string gives back the numbers it was printed from. */
  lemma {:induction false} DottedRoundTrip(ns: seq<nat>)
    requires ns != []
    ensures VersionNumbers(Dotted(ns)) == Some(ns)
  {
    if |ns| == 1 {
      OneNumber(ns[0]);
      assert ns == [ns[0]];
    } else {
      var front := ns[..|ns| - 1];
      DottedRoundTrip(front);
      OneMoreNumber(Dotted(front), front, ns[|ns| - 1]);
      assert ns == front + [ns[|ns| - 1]];
    }
  }

  /** A printed number reads back as that one number. */
  lemma OneNumber(n: nat)
    ensures VersionNumbers(NatToString(n)) == Some([n])
  {
    var w := NatToString(n);
    NatToStringRoundTrip(n);
    NoDotInNumeral(n);
    SplitWithoutSep(w, '.');
    ParseNumbersSnoc([], w);
    assert [] + [w] == [w];
    assert ParseNumbers([w]) == Some([] + [n]);
    assert [] + [n] == [n];
  }

  /** A dot and a printed number after a version string add that number to its numbers. */
  lemma OneMoreNumber(s: string, ns: seq<nat>, n: nat)
    requires VersionNumbers(s) == Some(ns)
    ensures VersionNumbers(s + "." + NatToString(n)) == Some(ns + [n])
  {
    var w := NatToString(n);
    NatToStringRoundTrip(n);
    NoDotInNumeral(n);
    SplitLastWord(s, '.', w);
    ParseNumbersSnoc(Split(s, '.'), w);
  }

  /** A string that parses as a version holds only digits and dots. */
  lemma NumbersCharset(s: string)
    requires VersionNumbers(s).Some?
    ensures forall i :: 0 <= i < |s| ==> IsDigit(s[i]) || s[i] == '.'
  {
    JoinSplit(s, '.');
    JoinDigits(Split(s, '.'), '.');
  }

  /** A version string has no spaces, so it stays one word of a User-Agent. */
  lemma NoSpaceInVersion(s: string)
    requires VersionNumbers(s).Some?
    ensures ' ' !in s
  {
    NumbersCharset(s);
    forall i | 0 <= i < |s| ensures s[i] != ' ' {
      assert IsDigit(s[i]) || s[i] == '.';
    }
  }

  /** A run of digits, a dot and a printed number read as those two numbers. */
  lemma TwoNumbers(a: string, n: nat)
    requires a != [] && AllDigits(a)
    ensures VersionNumbers(a + "." + NatToString(n)) == Some([DigitsValue(a), n])
  {
    var b := NatToString(n);
    NatToStringRoundTrip(n);
    assert '.' !in a by {
      forall i | 0 <= i < |a| ensures a[i] != '.' { assert IsDigit(a[i]); }
    }
    assert '.' !in b by {
      forall i | 0 <= i < |b| ensures b[i] != '.' { assert IsDigit(b[i]); }
    }
    SplitWithoutSep(a, '.');
    SplitLastWord(a, '.', b);
    assert [a, b][..1] == [a];
    assert [a][..0] == [];
    assert ParseNumbers([a]) == Some([] + [DigitsValue(a)]);
    assert [] + [DigitsValue(a)] == [DigitsValue(a)];
    assert Split(a + "." + b, '.') == [a, b];
    assert ParseNumbers([a, b]) == Some([DigitsValue(a)] + [DigitsValue(b)]);
    assert [DigitsValue(a)] + [DigitsValue(b)] == [DigitsValue(a), n];
    assert VersionNumbers(a + "." + b) == ParseNumbers([a, b]);
  }
}
