/**
 * The pieces of the Rust standard library the ledger leans on, written out:
 * `str::split` on one character, the decimal rendering of a `u32` by `format!`,
 * and `str::parse::<u32>`.
 */
module Strings {
  import opened Wrappers

  const MaxUInt32: nat := 0xFFFF_FFFF

  /** Rust's `u32`. */
  type UInt32 = n: nat | n <= MaxUInt32

  /**
   * The pieces of `s` between the occurrences of `sep`, as `s.split(sep)`
   * yields them: never none (the empty string gives one empty piece) and no
   * piece holds the separator.
   */
  function Split(s: string, sep: char): (pieces: seq<string>)
    ensures |pieces| >= 1
    ensures forall i :: 0 <= i < |pieces| ==> sep !in pieces[i]
    decreases |s|
  {
    if s == [] then [""]
    else
      var rest := Split(s[1..], sep);
      if s[0] == sep then [""] + rest
      else [[s[0]] + rest[0]] + rest[1..]
  }

  /** The pieces with `sep` between each two neighbours. */
  function Join(pieces: seq<string>, sep: char): string
  {
    if pieces == [] then ""
    else if |pieces| == 1 then pieces[0]
    else pieces[0] + [sep] + Join(pieces[1..], sep)
  }

  /** Putting the separators back between the pieces gives the string that was split. */
  lemma {:induction false} JoinSplit(s: string, sep: char)
    ensures Join(Split(s, sep), sep) == s
    decreases |s|
  {
    if s != [] {
      JoinSplit(s[1..], sep);
      var rest := Split(s[1..], sep);
      var pieces := Split(s, sep);
      if s[0] == sep {
        assert pieces[1..] == rest;
      } else if |rest| > 1 {
        assert pieces[1..] == rest[1..];
      }
    }
  }

  /** There is one more piece than there are separators. */
  lemma {:induction false} SplitCount(s: string, sep: char)
    ensures |Split(s, sep)| == multiset(s)[sep] + 1
    decreases |s|
  {
    if s != [] {
      SplitCount(s[1..], sep);
      assert s == [s[0]] + s[1..];
    }
  }

  /** Splitting at one separator splits the two sides independently. */
  lemma {:induction false} SplitAt(x: string, y: string, sep: char)
    ensures Split(x + [sep] + y, sep) == Split(x, sep) + Split(y, sep)
    decreases |x|
  {
    if x == [] {
      assert x + [sep] + y == [sep] + y;
      assert ([sep] + y)[1..] == y;
    } else {
      var s := x + [sep] + y;
      assert s[0] == x[0];
      assert s[1..] == x[1..] + [sep] + y;
      SplitAt(x[1..], y, sep);
    }
  }

  /** A string without the separator is a single piece. */
  lemma {:induction false} SplitWithoutSeparator(x: string, sep: char)
    requires sep !in x
    ensures Split(x, sep) == [x]
    decreases |x|
  {
    if x != [] {
      SplitWithoutSeparator(x[1..], sep);
      assert [x[0]] + x[1..] == x;
    }
  }

  /** The lines, each followed by `sep`: how a file of lines is written. */
  function Terminated(lines: seq<string>, sep: char): string
  {
    if lines == [] then ""
    else Terminated(lines[..|lines| - 1], sep) + lines[|lines| - 1] + [sep]
  }

  /**
   * Splitting terminated lines at the terminator gives the lines back, then
   * the pieces of whatever follows them.
   */
  lemma {:induction false} SplitTerminated(lines: seq<string>, rest: string, sep: char)
    requires forall i :: 0 <= i < |lines| ==> sep !in lines[i]
    ensures Split(Terminated(lines, sep) + rest, sep) == lines + Split(rest, sep)
    decreases |lines|
  {
    if lines != [] {
      var n := |lines| - 1;
      var init, last := lines[..n], lines[n];
      var head := Terminated(init, sep);
      calc {
        Split(Terminated(lines, sep) + rest, sep);
        { assert Terminated(lines, sep) + rest == head + (last + [sep] + rest); }
        Split(head + (last + [sep] + rest), sep);
        { SplitTerminated(init, last + [sep] + rest, sep); }
        init + Split(last + [sep] + rest, sep);
        { SplitAt(last, rest, sep); SplitWithoutSeparator(last, sep); }
        init + ([last] + Split(rest, sep));
        { assert lines == init + [last]; }
        lines + Split(rest, sep);
      }
    } else {
      assert Terminated(lines, sep) + rest == rest;
    }
  }

  predicate IsDigit(c: char) { '0' <= c <= '9' }

  predicate AllDigits(s: string) { forall i :: 0 <= i < |s| ==> IsDigit(s[i]) }

  function DigitChar(d: nat): (c: char)
    requires d < 10
    ensures IsDigit(c)
  {
    ('0' as int + d) as char
  }

  function DigitValue(c: char): (d: nat)
    requires IsDigit(c)
    ensures d < 10 && DigitChar(d) == c
  {
    c as int - '0' as int
  }

  /** The number a string of decimal digits denotes, most significant first. */
  function DigitsValue(s: string): nat
    requires AllDigits(s)
  {
    if s == [] then 0 else DigitsValue(s[..|s| - 1]) * 10 + DigitValue(s[|s| - 1])
  }

  /**
   * The shortest decimal rendering of `n`, as `format!("{}", n)` writes an
   * unsigned integer: digits only, no sign, no leading zero, denoting `n`.
   */
  function DecimalOf(n: nat): (s: string)
    ensures |s| >= 1 && AllDigits(s)
  {
    if n < 10 then [DigitChar(n)] else DecimalOf(n / 10) + [DigitChar(n % 10)]
  }

  /** The digits of `DecimalOf(n)` denote `n`, and only zero is written with a leading `0`. */
  lemma {:induction false} DecimalOfValue(n: nat)
    ensures DigitsValue(DecimalOf(n)) == n
    ensures DecimalOf(n)[0] == '0' ==> n == 0
  {
    if n >= 10 {
      DecimalOfValue(n / 10);
      var init := DecimalOf(n / 10);
      var s := DecimalOf(n);
      assert s[..|s| - 1] == init;
    }
  }

  /**
   * `s.parse::<u32>()`: an optional leading `+`, then one or more ASCII
   * digits whose value fits in 32 bits; anything else (the empty string, a
   * lone `+`, a `-`, a space, a value over 4294967295) is `None`.
   */
  function ParseUInt32(s: string): (r: Option<UInt32>)
    ensures r.Some? ==> s != [] && s != "+"
    ensures r.Some? ==> forall i :: 0 <= i < |s| ==> IsDigit(s[i]) || (i == 0 && s[i] == '+')
  {
    var digits := if |s| > 0 && s[0] == '+' then s[1..] else s;
    if digits == [] || !AllDigits(digits) || DigitsValue(digits) > MaxUInt32 then None
    else Some(DigitsValue(digits))
  }

  /** Parsing reads back every rendered `u32`, and nothing wider. */
  lemma ParseDecimal(n: nat)
    ensures ParseUInt32(DecimalOf(n)) == if n <= MaxUInt32 then Some(n) else None
  {
    DecimalOfValue(n);
  }

  /** A character that is neither a digit nor the one leading `+` makes parsing fail. */
  lemma ParseRejectsNonDigit(s: string, i: nat)
    requires i < |s| && !IsDigit(s[i]) && !(i == 0 && s[i] == '+')
    ensures ParseUInt32(s) == None
  {
    if |s| > 0 && s[0] == '+' {
      assert !IsDigit(s[1..][i - 1]);
    } else {
      assert !IsDigit(s[i]);
    }
  }
}
