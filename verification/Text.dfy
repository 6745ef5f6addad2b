/**
 Text forms that the storage backends and the step contexts write and read
 back: separator-joined lists and decimal integers. Bytes and strings are the
 same thing here, a sequence of characters.
 */
module Text {
  import opened Wrappers

  type Bytes = string

  /* ---- Prefixes and suffixes ---- */

  predicate HasSuffix(s: string, suffix: string) {
    |suffix| <= |s| && s[|s| - |suffix|..] == suffix
  }

  predicate HasPrefix(s: string, prefix: string) {
    |prefix| <= |s| && s[..|prefix|] == prefix
  }

  /* ---- Separator-joined lists ---- */

  function Join(parts: seq<string>, sep: char): string {
    if |parts| == 0 then ""
    else if |parts| == 1 then parts[0]
    else parts[0] + [sep] + Join(parts[1..], sep)
  }

  function Split(s: string, sep: char): (parts: seq<string>)
    ensures |parts| >= 1
  {
    if s == "" then [""]
    else
      var rest := Split(s[1..], sep);
      if s[0] == sep then [""] + rest else [[s[0]] + rest[0]] + rest[1..]
  }

  // No part holds the separator, so splitting cannot cut inside a part.
  predicate AllLack(parts: seq<string>, sep: char) {
    forall i :: 0 <= i < |parts| ==> sep !in parts[i]
  }

  lemma {:induction false} SplitPartsLackSeparator(s: string, sep: char)
    ensures AllLack(Split(s, sep), sep)
  {
    if s != "" {
      SplitPartsLackSeparator(s[1..], sep);
    }
  }

  lemma {:induction false} SplitWithoutSeparator(part: string, sep: char)
    requires sep !in part
    ensures Split(part, sep) == [part]
  {
    if part != "" {
      SplitWithoutSeparator(part[1..], sep);
      assert [part[0]] + part[1..] == part;
    }
  }

  lemma {:induction false} SplitAtSeparator(part: string, rest: string, sep: char)
    requires sep !in part
    ensures Split(part + [sep] + rest, sep) == [part] + Split(rest, sep)
  {
    var s := part + [sep] + rest;
    if part == "" {
      assert s[1..] == rest;
    } else {
      SplitAtSeparator(part[1..], rest, sep);
      assert s[1..] == part[1..] + [sep] + rest;
      assert [part[0]] + part[1..] == part;
    }
  }

  lemma {:induction false} SplitOfCleanJoin(parts: seq<string>, sep: char)
    requires parts != [] && AllLack(parts, sep)
    ensures Split(Join(parts, sep), sep) == parts
  {
    if |parts| == 1 {
      SplitWithoutSeparator(parts[0], sep);
    } else {
      SplitOfCleanJoin(parts[1..], sep);
      SplitAtSeparator(parts[0], Join(parts[1..], sep), sep);
    }
  }

  // A list survives the trip through its joined form exactly when it is not
  // empty and none of its elements holds the separator.
  lemma {:induction false} SplitJoinExact(parts: seq<string>, sep: char)
    ensures Split(Join(parts, sep), sep) == parts <==> parts != [] && AllLack(parts, sep)
  {
    if parts != [] && AllLack(parts, sep) {
      SplitOfCleanJoin(parts, sep);
    } else {
      SplitPartsLackSeparator(Join(parts, sep), sep);
    }
  }

  // Splitting loses nothing: joining the parts of any text gives it back.
  lemma {:induction false} JoinSplit(s: string, sep: char)
    ensures Join(Split(s, sep), sep) == s
  {
    if s != "" {
      JoinSplit(s[1..], sep);
      var rest := Split(s[1..], sep);
      if s[0] == sep {
        assert ([""] + rest)[1..] == rest;
      } else {
        var parts := [[s[0]] + rest[0]] + rest[1..];
        assert parts[1..] == rest[1..];
      }
    }
  }

  /* ---- Decimal integers ---- */

  function DigitChar(d: nat): (c: char)
    requires d < 10
  {
    '0' + d as char
  }

  function Digits(n: nat): string {
    if n < 10 then [DigitChar(n)] else Digits(n / 10) + [DigitChar(n % 10)]
  }

  function FormatInt(n: int): string {
    if n < 0 then "-" + Digits(-n) else Digits(n)
  }

  function ParseDigits(s: string): Option<int> {
    if s == "" then None
    else
      var c := s[|s| - 1];
      if !('0' <= c <= '9') then None
      else
        var d := c as int - '0' as int;
        if |s| == 1 then Some(d)
        else
          match ParseDigits(s[..|s| - 1])
          case None => None
          case Some(v) => Some(10 * v + d)
  }

  // An optional sign followed by at least one digit.
  function ParseInt(s: string): Option<int> {
    if s != "" && s[0] == '-' then
      match ParseDigits(s[1..])
      case None => None
      case Some(v) => Some(-v)
    else
      match ParseDigits(if s != "" && s[0] == '+' then s[1..] else s)
      case None => None
      case Some(v) => Some(v)
  }

  const MAX_INT := 0x7FFF_FFFF_FFFF_FFFF
  const MIN_INT := -0x8000_0000_0000_0000

  // Parsing into a 64-bit int, which rejects what does not fit.
  function Atoi(s: string): Option<int> {
    match ParseInt(s)
    case None => None
    case Some(v) => if MIN_INT <= v <= MAX_INT then Some(v) else None
  }

  lemma {:induction false} ParseDigitsOfDigits(n: nat)
    ensures Digits(n) != "" && '0' <= Digits(n)[0] <= '9'
    ensures ParseDigits(Digits(n)) == Some(n)
  {
    if n >= 10 {
      ParseDigitsOfDigits(n / 10);
      var s := Digits(n);
      assert s[..|s| - 1] == Digits(n / 10);
    }
  }

  lemma ParseFormatInt(n: int)
    ensures ParseInt(FormatInt(n)) == Some(n)
  {
    var digits := Digits(if n < 0 then -n else n);
    ParseDigitsOfDigits(if n < 0 then -n else n);
    hide Digits;
    hide ParseDigits;
    assert n < 0 ==> FormatInt(n)[1..] == digits;
  }

  // The 64-bit parse gives a printed integer back exactly when it fits.
  lemma AtoiFormatExact(n: int)
    ensures Atoi(FormatInt(n)) == (if MIN_INT <= n <= MAX_INT then Some(n) else None)
  {
    ParseFormatInt(n);
  }
}
