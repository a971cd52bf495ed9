/** The pieces of Rust's string library that the layout parser and the instruction
    editor rely on: `char::is_whitespace`, `trim`, `trim_end`, `lines`,
    `split_whitespace`, `parse::<u8>` and the decimal rendering of a `u8`. */
module Text {
  import opened Wrappers

  /** `char::is_whitespace`: the characters with the Unicode White_Space property. */
  predicate IsWhitespace(c: char) {
    var n := c as int;
    (9 <= n <= 13) || n == 32 || n == 0x85 || n == 0xA0 || n == 0x1680
    || (0x2000 <= n <= 0x200A) || n == 0x2028 || n == 0x2029 || n == 0x202F
    || n == 0x205F || n == 0x3000
  }

  predicate NoWhitespace(s: string) {
    forall i :: 0 <= i < |s| ==> !IsWhitespace(s[i])
  }

  /** `str::trim_start`: drops the leading whitespace, keeps the rest. */
  function TrimStart(s: string): (r: string)
    ensures |r| <= |s| && r == s[|s| - |r|..]
    ensures forall i :: 0 <= i < |s| - |r| ==> IsWhitespace(s[i])
    ensures r == [] || !IsWhitespace(r[0])
  {
    if s != [] && IsWhitespace(s[0]) then TrimStart(s[1..]) else s
  }

  /** `str::trim_end`: drops the trailing whitespace, keeps the rest. */
  function TrimEnd(s: string): (r: string)
    ensures |r| <= |s| && r == s[..|r|]
    ensures forall i :: |r| <= i < |s| ==> IsWhitespace(s[i])
    ensures r == [] || !IsWhitespace(r[|r| - 1])
  {
    if s != [] && IsWhitespace(s[|s| - 1]) then TrimEnd(s[..|s| - 1]) else s
  }

  /** `str::trim`: whitespace removed at both ends. */
  function Trim(s: string): (r: string)
    ensures r == [] || (!IsWhitespace(r[0]) && !IsWhitespace(r[|r| - 1]))
  {
    TrimEnd(TrimStart(s))
  }

  /** Position of the first line feed of `s`, or `|s|` when there is none. */
  function NewlineIndex(s: string): (i: nat)
    ensures i <= |s| && '\n' !in s[..i]
    ensures i < |s| ==> s[i] == '\n'
  {
    if s == [] || s[0] == '\n' then 0 else 1 + NewlineIndex(s[1..])
  }

  /** A line ending in "\r\n" loses its carriage return too. */
  function StripCarriageReturn(l: string): string {
    if l != [] && l[|l| - 1] == '\r' then l[..|l| - 1] else l
  }

  /** `str::lines`: the text split at line feeds; a final line feed does not start
      another (empty) line, and the empty text has no lines at all. */
  function Lines(s: string): (r: seq<string>)
    ensures forall l | l in r :: '\n' !in l
    ensures r == [] <==> s == []
    decreases |s|
  {
    if s == [] then []
    else
      var i := NewlineIndex(s);
      assert '\n' !in StripCarriageReturn(s[..i]);
      [StripCarriageReturn(s[..i])] + (if i == |s| then [] else Lines(s[i + 1..]))
  }

  /** Length of the run of non-whitespace characters that `s` starts with. */
  function WordLength(s: string): (n: nat)
    ensures n <= |s| && NoWhitespace(s[..n])
    ensures n < |s| ==> IsWhitespace(s[n])
  {
    if s == [] || IsWhitespace(s[0]) then 0 else 1 + WordLength(s[1..])
  }

  /** `str::split_whitespace`: the maximal runs of non-whitespace characters, in order. */
  function Words(s: string): (r: seq<string>)
    ensures forall w | w in r :: w != [] && NoWhitespace(w)
    decreases |s|
  {
    var t := TrimStart(s);
    if t == [] then []
    else
      var n := WordLength(t);
      [t[..n]] + Words(t[n..])
  }

  /** The words joined by single spaces: how a multi-word text such as "turn left" is
      written. */
  function Unwords(ws: seq<string>): string {
    if ws == [] then ""
    else if |ws| == 1 then ws[0]
    else ws[0] + " " + Unwords(ws[1..])
  }

  predicate ProperWords(ws: seq<string>) {
    forall w | w in ws :: w != [] && NoWhitespace(w)
  }

  lemma {:induction false} UnwordsStartsWithWord(ws: seq<string>)
    requires ws != [] && ProperWords(ws)
    ensures Unwords(ws) != [] && !IsWhitespace(Unwords(ws)[0])
    ensures !IsWhitespace(Unwords(ws)[|Unwords(ws)| - 1])
  {
    assert ws[0] in ws;
    if |ws| > 1 {
      assert forall w | w in ws[1..] :: w in ws;
      UnwordsStartsWithWord(ws[1..]);
    }
  }

  lemma WordLengthOfWord(w: string, rest: string)
    requires NoWhitespace(w)
    requires rest == [] || IsWhitespace(rest[0])
    ensures WordLength(w + rest) == |w|
    decreases |w|
  {
    if w != [] {
      assert (w + rest)[1..] == w[1..] + rest;
      WordLengthOfWord(w[1..], rest);
    }
  }

  /** A word followed by whitespace (or nothing) is the first word of the text. */
  lemma WordsOfWordThen(w: string, rest: string)
    requires w != [] && NoWhitespace(w)
    requires rest == [] || IsWhitespace(rest[0])
    ensures Words(w + rest) == [w] + Words(rest)
  {
    var s := w + rest;
    assert s[0] == w[0];
    assert TrimStart(s) == s;
    WordLengthOfWord(w, rest);
    assert s[..|w|] == w;
    assert s[|w|..] == rest;
  }

  lemma WordsSkipSpace(rest: string)
    ensures Words(" " + rest) == Words(rest)
  {
    assert (" " + rest)[1..] == rest;
    assert TrimStart(" " + rest) == TrimStart(rest);
  }

  /** Splitting words joined by single spaces gives the words back. */
  lemma {:induction false} WordsOfUnwords(ws: seq<string>)
    requires ProperWords(ws)
    ensures Words(Unwords(ws)) == ws
  {
    if ws == [] {
      assert Unwords(ws) == "";
    } else if |ws| == 1 {
      assert ws[0] in ws;
      WordsOfWordThen(ws[0], "");
      assert ws[0] + "" == ws[0];
      assert Unwords(ws) == ws[0];
    } else {
      assert ws[0] in ws;
      var tail := ws[1..];
      assert forall w | w in tail :: w in ws;
      var rest := Unwords(tail);
      assert Unwords(ws) == ws[0] + (" " + rest);
      WordsOfWordThen(ws[0], " " + rest);
      WordsSkipSpace(rest);
      WordsOfUnwords(tail);
      assert ws == [ws[0]] + tail;
    }
  }

  /** Text made of words and single spaces has nothing for `trim` to remove. */
  lemma TrimUnwords(ws: seq<string>)
    requires ws != [] && ProperWords(ws)
    ensures Trim(Unwords(ws)) == Unwords(ws)
  {
    UnwordsStartsWithWord(ws);
  }

  // ---------------------------------------------------------------------------
  // Decimal numbers as `u8` reads and writes them.

  /** `IntErrorKind`: why `parse::<u8>` refused its text. */
  datatype IntErrorKind = Empty | InvalidDigit | PosOverflow

  predicate IsDigit(c: char) {
    '0' <= c <= '9'
  }

  function DigitValue(c: char): (d: nat)
    requires IsDigit(c)
    ensures d < 10
  {
    (c as int) - ('0' as int)
  }

  function DigitChar(d: nat): (c: char)
    requires d < 10
    ensures IsDigit(c) && DigitValue(c) == d
  {
    (('0' as int) + d) as char
  }

  /** The digit loop of `u8::from_str_radix`: left to right, a non-digit is an
      `InvalidDigit` and a value above 255 an overflow, whichever comes first. */
  function ScanDigits(acc: nat, s: string): (r: Result<nat, IntErrorKind>)
    requires acc < 256
    ensures r.Ok? ==> r.value < 256
    ensures r.Ok? ==> forall i :: 0 <= i < |s| ==> IsDigit(s[i])
    decreases |s|
  {
    if s == [] then Ok(acc)
    else if !IsDigit(s[0]) then Err(InvalidDigit)
    else
      var v := acc * 10 + DigitValue(s[0]);
      if v > 255 then Err(PosOverflow) else ScanDigits(v, s[1..])
  }

  /** `str::parse::<u8>`: an optional leading `+`, then decimal digits only. */
  function ParseU8(s: string): (r: Result<nat, IntErrorKind>)
    ensures r.Ok? ==> r.value < 256
    ensures s == [] ==> r == Err(Empty)
  {
    if s == [] then Err(Empty)
    else if (s[0] == '+' || s[0] == '-') && |s| == 1 then Err(InvalidDigit)
    else if s[0] == '+' then ScanDigits(0, s[1..])
    else ScanDigits(0, s)
  }

  /** The `Display` text of an unsigned number: decimal, no sign, no leading zeros. */
  function NatToString(n: nat): (s: string)
    ensures s != [] && forall i :: 0 <= i < |s| ==> IsDigit(s[i])
    ensures s[0] == '0' ==> n == 0
  {
    if n < 10 then [DigitChar(n)] else NatToString(n / 10) + [DigitChar(n % 10)]
  }

  lemma {:induction false} ScanDigitsSnoc(acc: nat, s: string, c: char)
    requires acc < 256 && IsDigit(c)
    requires ScanDigits(acc, s).Ok?
    requires ScanDigits(acc, s).value * 10 + DigitValue(c) < 256
    ensures ScanDigits(acc, s + [c]) == Ok(ScanDigits(acc, s).value * 10 + DigitValue(c))
    decreases |s|
  {
    if s != [] {
      assert (s + [c])[0] == s[0];
      assert (s + [c])[1..] == s[1..] + [c];
      ScanDigitsSnoc(acc * 10 + DigitValue(s[0]), s[1..], c);
    }
  }

  /** Reading back what was written: `parse::<u8>` of a rendered value gives the value. */
  lemma {:induction false} ParseU8OfNatToString(n: nat)
    requires n < 256
    ensures ParseU8(NatToString(n)) == Ok(n)
  {
    ScanOfNatToString(n);
  }

  lemma {:induction false} ScanOfNatToString(n: nat)
    requires n < 256
    ensures ScanDigits(0, NatToString(n)) == Ok(n)
  {
    if n >= 10 {
      ScanOfNatToString(n / 10);
      ScanDigitsSnoc(0, NatToString(n / 10), DigitChar(n % 10));
    }
  }

  /** Digits are not whitespace, so `trim` leaves a rendered number alone. */
  lemma TrimNatToString(n: nat)
    ensures Trim(NatToString(n)) == NatToString(n)
  {
    var s := NatToString(n);
    assert !IsWhitespace(s[0]) && !IsWhitespace(s[|s| - 1]);
  }
}
