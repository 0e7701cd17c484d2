/** Operations on strings as Python has them; digits are those of ASCII. */
module Texts {
  import opened Common

  /** `str.isspace()` */
  predicate IsSpace(c: char) {
    var n := c as int;
    || 9 <= n <= 13 || 28 <= n <= 32 || n == 0x85 || n == 0xA0 || n == 0x1680 || 0x2000 <= n <= 0x200A
    || n == 0x2028 || n == 0x2029 || n == 0x202F || n == 0x205F || n == 0x3000
  }

  predicate IsDigit(c: char) { '0' <= c <= '9' }

  predicate At(s: string, i: nat, part: string) {
    i + |part| <= |s| && s[i..i + |part|] == part
  }

  /** `part in s` */
  predicate Contains(s: string, part: string) {
    exists i :: 0 <= i <= |s| && At(s, i, part)
  }

  lemma ContainsMiddle(before: string, part: string, after: string)
    ensures Contains(before + part + after, part)
  {
    assert At(before + part + after, |before|, part);
  }

  lemma ContainsFirst(s: string, part: string)
    requires Contains(s, part) && part != ""
    ensures part[0] in s
  {
    var i :| 0 <= i <= |s| && At(s, i, part);
    assert s[i] == s[i..i + |part|][0];
  }

  function DropSpaces(s: string): string {
    if s != "" && IsSpace(s[0]) then DropSpaces(s[1..]) else s
  }

  /** `s.rstrip()` */
  function TrimEnd(s: string): (r: string)
    ensures r <= s && (r != "" ==> !IsSpace(r[|r| - 1]))
  {
    if s != "" && IsSpace(s[|s| - 1]) then TrimEnd(s[..|s| - 1]) else s
  }

  /** The characters before the first space. */
  function Word(s: string): (r: string)
    ensures r <= s && (forall i :: 0 <= i < |r| ==> !IsSpace(r[i]))
    ensures r == s || IsSpace(s[|r|])
  {
    if s == "" || IsSpace(s[0]) then "" else [s[0]] + Word(s[1..])
  }

  lemma {:induction false} WordBefore(word: string, rest: string)
    requires forall i :: 0 <= i < |word| ==> !IsSpace(word[i])
    ensures Word(word + " " + rest) == word
  {
    if word == "" {
      assert (word + " " + rest)[0] == ' ';
    } else {
      WordBefore(word[1..], rest);
      assert (word + " " + rest)[1..] == word[1..] + " " + rest;
    }
  }

  /** `s.split(c)` */
  function Split(s: string, c: char): (r: seq<string>)
    ensures r != []
  {
    if s == "" then [""]
    else
      var rest := Split(s[1..], c);
      if s[0] == c then [""] + rest else [[s[0]] + rest[0]] + rest[1..]
  }

  lemma {:induction false} SplitFirst(first: string, c: char, rest: string)
    requires c !in first
    ensures Split(first, c) == [first]
    ensures Split(first + [c] + rest, c) == [first] + Split(rest, c)
  {
    var s := first + [c] + rest;
    if first == "" {
      assert s[1..] == rest;
    } else {
      SplitFirst(first[1..], c, rest);
      assert first == [first[0]] + first[1..];
      assert s[1..] == first[1..] + [c] + rest;
    }
  }

  lemma {:induction false} SplitLast(front: string, c: char, last: string)
    requires c !in last
    ensures var parts := Split(front + [c] + last, c); parts[|parts| - 1] == last
    ensures |Split(front + [c] + last, c)| > 1
  {
    var s := front + [c] + last;
    SplitFirst(last, c, "");
    if front == "" {
      assert s[1..] == last;
    } else {
      SplitLast(front[1..], c, last);
      assert s[1..] == front[1..] + [c] + last;
    }
  }

  /** The text after the first `c`, if there is any. */
  function AfterFirst(s: string, c: char): string {
    if s == "" then "" else if s[0] == c then s[1..] else AfterFirst(s[1..], c)
  }

  lemma {:induction false} AfterFirstOf(first: string, c: char, rest: string)
    requires c !in first
    ensures AfterFirst(first, c) == "" && AfterFirst(first + [c] + rest, c) == rest
  {
    var s := first + [c] + rest;
    if first == "" {
      assert s[1..] == rest;
    } else {
      AfterFirstOf(first[1..], c, rest);
      assert s[1..] == first[1..] + [c] + rest;
    }
  }

  /** A decimal numeral. */
  function Decimal(n: nat): (r: string)
    ensures r != "" && forall i :: 0 <= i < |r| ==> IsDigit(r[i])
  {
    (if n < 10 then "" else Decimal(n / 10)) + [('0' as int + n % 10) as char]
  }

  /** Digits, with single underscores between them. */
  function Digits(s: string): Option<nat> {
    if s == "" || !IsDigit(s[|s| - 1]) then None
    else
      var digit := s[|s| - 1] as int - '0' as int;
      if |s| == 1 then Some(digit)
      else
        var front := if s[|s| - 2] == '_' then s[..|s| - 2] else s[..|s| - 1];
        match Digits(front)
        case None => None
        case Some(n) => Some(10 * n + digit)
  }

  /** `int(s)`, with None for a ValueError. */
  function Int(s: string): Option<int> {
    if s != "" && (s[0] == '-' || s[0] == '+') then
      match Digits(s[1..])
      case None => None
      case Some(n) => Some(if s[0] == '-' then -(n as int) else n)
    else
      match Digits(s)
      case None => None
      case Some(n) => Some(n as int)
  }

  lemma {:induction false} DecimalReadsBack(n: nat)
    ensures Digits(Decimal(n)) == Some(n) && Int(Decimal(n)) == Some(n)
  {
    if n >= 10 {
      DecimalReadsBack(n / 10);
      var front := Decimal(n / 10);
      assert Decimal(n)[..|front|] == front && Decimal(n)[|front| - 1] == front[|front| - 1];
    }
  }
}
