/** String helpers of the host languages: `trim` of ECMA-262 section 22.1.3.32. */
module Text {

  predicate IsSpace(c: char) {
    || '\t' <= c <= '\r' || c == ' ' || c == '\U{A0}' || c == '\U{1680}' || '\U{2000}' <= c <= '\U{200A}'
    || c == '\U{2028}' || c == '\U{2029}' || c == '\U{202F}' || c == '\U{205F}' || c == '\U{3000}' || c == '\U{FEFF}'
  }

  function TrimStart(s: string): string {
    if s != [] && IsSpace(s[0]) then TrimStart(s[1..]) else s
  }

  function TrimEnd(s: string): string {
    if s != [] && IsSpace(s[|s| - 1]) then TrimEnd(s[..|s| - 1]) else s
  }

  function Trim(s: string): string { TrimEnd(TrimStart(s)) }

  /** Neither end is a space. */
  predicate Trimmed(s: string) {
    s == [] || (!IsSpace(s[0]) && !IsSpace(s[|s| - 1]))
  }

  lemma {:induction false} TrimEndTrims(s: string)
    requires s == [] || !IsSpace(s[0])
    ensures Trimmed(TrimEnd(s))
  {
    if s != [] && IsSpace(s[|s| - 1]) {
      TrimEndTrims(s[..|s| - 1]);
    }
  }

  lemma {:induction false} TrimStartTrims(s: string)
    ensures TrimStart(s) == [] || !IsSpace(TrimStart(s)[0])
  {
    if s != [] && IsSpace(s[0]) {
      TrimStartTrims(s[1..]);
    }
  }

  lemma TrimTrims(s: string)
    ensures Trimmed(Trim(s)) && Trim(Trim(s)) == Trim(s)
  {
    TrimStartTrims(s);
    TrimEndTrims(TrimStart(s));
  }

  predicate AllSpaces(s: string) { forall c :: c in s ==> IsSpace(c) }

  /** `trim` takes spaces off both ends and nothing else, and leaves none there. */
  lemma TrimTakesSpaces(s: string) returns (front: string, back: string)
    ensures s == front + Trim(s) + back && AllSpaces(front) && AllSpaces(back) && Trimmed(Trim(s))
  {
    front := FrontSpaces(s);
    back := BackSpaces(TrimStart(s));
    TrimTrims(s);
    assert front + Trim(s) + back == front + (Trim(s) + back);
  }

  lemma {:induction false} FrontSpaces(s: string) returns (front: string)
    ensures s == front + TrimStart(s) && AllSpaces(front)
  {
    front := "";
    if s != [] && IsSpace(s[0]) {
      var more := FrontSpaces(s[1..]);
      front := [s[0]] + more;
      hide IsSpace;
      assert front + TrimStart(s) == [s[0]] + (more + TrimStart(s[1..]));
    }
  }

  lemma {:induction false} BackSpaces(s: string) returns (back: string)
    ensures s == TrimEnd(s) + back && AllSpaces(back)
  {
    back := "";
    if s != [] && IsSpace(s[|s| - 1]) {
      var n := |s| - 1;
      var more := BackSpaces(s[..n]);
      back := more + [s[n]];
      hide IsSpace;
      assert TrimEnd(s) + back == (TrimEnd(s[..n]) + more) + [s[n]];
    }
  }

  /** `split("\n")`: the pieces between line feeds, at least one. */
  function Split(s: string): (r: seq<string>)
    ensures |r| > 0
  {
    if s == "" then [""]
    else
      var rest := Split(s[1..]);
      if s[0] == '\n' then [""] + rest else [[s[0]] + rest[0]] + rest[1..]
  }

  /** `join(sep)`. */
  function Join(pieces: seq<string>, sep: string): string {
    if pieces == [] then "" else if |pieces| == 1 then pieces[0] else pieces[0] + sep + Join(pieces[1..], sep)
  }

  /** The pieces are free of line feeds and joining them gives the text back. */
  lemma {:induction false} SplitJoins(s: string)
    ensures Join(Split(s), "\n") == s
    ensures forall i :: 0 <= i < |Split(s)| ==> '\n' !in Split(s)[i]
  {
    if s != "" {
      SplitJoins(s[1..]);
      var rest := Split(s[1..]);
      if s[0] != '\n' {
        assert Split(s)[1..] == rest[1..];
      }
    }
  }

  function Complete(s: string): seq<string> { Split(s)[..|Split(s)| - 1] }

  function Pending(s: string): string { Split(s)[|Split(s)| - 1] }

  lemma SplitCons(c: char, s: string)
    ensures Split([c] + s) == if c == '\n' then [""] + Split(s) else [[c] + Split(s)[0]] + Split(s)[1..]
  {
    assert ([c] + s)[1..] == s;
  }

  lemma PendingCons(c: char, s: string)
    ensures var n := |Split(s)| - 1;
      if c == '\n' then Complete([c] + s) == [""] + Complete(s) && Pending([c] + s) == Pending(s)
      else if n == 0 then Complete([c] + s) == [] && Pending([c] + s) == [c] + Pending(s)
      else Complete([c] + s) == [[c] + Split(s)[0]] + Complete(s)[1..] && Pending([c] + s) == Pending(s)
  {
    SplitCons(c, s);
    hide Split;
    var pieces := Split(s);
    if c == '\n' {
      assert ([""] + pieces)[..|pieces|] == [""] + pieces[..|pieces| - 1];
    } else if |pieces| > 1 {
      var first := [[c] + pieces[0]];
      assert (first + pieces[1..])[..|pieces| - 1] == first + pieces[..|pieces| - 1][1..];
    }
  }

  /** Cutting the text anywhere: only the last piece of the first part is still open. */
  lemma {:induction false} SplitConcat(a: string, b: string)
    ensures Split(a + b) == Complete(a) + Split(Pending(a) + b)
  {
    if a == "" {
      assert a + b == b;
    } else {
      var c, s := a[0], a[1..];
      assert a == [c] + s && a + b == [c] + (s + b);
      SplitConcat(s, b);
      SplitConcatCons(c, s, b);
    }
  }

  lemma ConsShape(x: string, first: seq<string>, tail: seq<string>)
    requires |first| > 0
    ensures (first + tail)[0] == first[0]
    ensures [x] + (first + tail)[1..] == [x] + first[1..] + tail
  {
    assert (first + tail)[1..] == first[1..] + tail;
  }

  lemma SplitConcatCons(c: char, s: string, b: string)
    requires Split(s + b) == Complete(s) + Split(Pending(s) + b)
    ensures Split([c] + (s + b)) == Complete([c] + s) + Split(Pending([c] + s) + b)
  {
    hide Split;
    var tail := Split(Pending(s) + b);
    SplitCons(c, s + b);
    PendingCons(c, s);
    if c == '\n' {
      ConsShape("", [""] + Complete(s), tail);
      assert [""] + (Complete(s) + tail) == [""] + Complete(s) + tail;
    } else if |Split(s)| == 1 {
      SplitConcatOnly(c, s, b);
    } else {
      ConsShape([c] + Split(s)[0], Complete(s), tail);
    }
  }

  lemma SplitConcatOnly(c: char, s: string, b: string)
    requires c != '\n' && |Split(s)| == 1 && Split(s + b) == Split(Pending(s) + b)
    ensures Split([c] + (s + b)) == Complete([c] + s) + Split(Pending([c] + s) + b)
  {
    SplitCons(c, s + b);
    PendingCons(c, s);
    hide Split, Pending, Complete;
    assert [c] + Pending(s) + b == [c] + (Pending(s) + b);
    SplitCons(c, Pending(s) + b);
  }

  lemma SplitLine(line: string, rest: string)
    requires '\n' !in line
    ensures Split(line + "\n" + rest) == [line] + Split(rest)
  {
    assert line + "\n" + rest == line + ("\n" + rest);
    assert ("\n" + rest)[1..] == rest;
    SplitPrefixed(line, "\n" + rest);
    assert Split("\n" + rest) == [""] + Split(rest);
    assert line + "" == line;
  }

  /** Text without a line feed only lengthens the first piece of what follows. */
  lemma {:induction false} SplitPrefixed(line: string, tail: string)
    requires '\n' !in line
    ensures Split(line + tail) == [line + Split(tail)[0]] + Split(tail)[1..]
  {
    if line == "" {
      assert line + tail == tail;
      assert line + Split(tail)[0] == Split(tail)[0];
    } else {
      assert line[0] in line;
      SplitPrefixed(line[1..], tail);
      assert (line + tail)[1..] == line[1..] + tail;
      assert [line[0]] + (line[1..] + Split(tail)[0]) == line + Split(tail)[0];
    }
  }

  // --- `<` on strings (ECMA-262 section 7.2.13) -------------------------------------------

  predicate Less(a: string, b: string) {
    if b == "" then false
    else if a == "" then true
    else if a[0] != b[0] then a[0] < b[0]
    else Less(a[1..], b[1..])
  }

  lemma {:induction false} LessTransitive(a: string, b: string, c: string)
    requires Less(a, b) && Less(b, c)
    ensures Less(a, c)
  {
    if a != "" && a[0] == b[0] == c[0] {
      LessTransitive(a[1..], b[1..], c[1..]);
    }
  }

  /** Where two ordered texts first differ. */
  lemma {:induction false} LessAt(a: string, b: string) returns (i: nat)
    requires Less(a, b)
    ensures i <= |a| && i < |b| && a[..i] == b[..i]
    ensures i < |a| ==> a[i] < b[i]
  {
    if a == "" || a[0] != b[0] {
      i := 0;
    } else {
      var j := LessAt(a[1..], b[1..]);
      i := j + 1;
      assert a[..i] == [a[0]] + a[1..][..j];
      assert b[..i] == [b[0]] + b[1..][..j];
    }
  }

  // --- numbers in text (ECMA-262 sections 6.1.6.1.20 and 7.1.4.1) ---------------------------

  predicate IsDigit(c: char) { '0' <= c <= '9' }

  function Digit(d: nat): (c: char)
    requires d <= 9
    ensures IsDigit(c)
  {
    '0' + d as char
  }

  function DigitValue(c: char): (d: nat)
    requires IsDigit(c)
    ensures d <= 9 && Digit(d) == c && c as nat == '0' as nat + d
  {
    c as nat - '0' as nat
  }

  predicate AreDigits(s: string) { forall i :: 0 <= i < |s| ==> IsDigit(s[i]) }

  /** `Number` of a text of digits. */
  function NumberOf(s: string): nat
    requires AreDigits(s)
  {
    if s == "" then 0 else 10 * NumberOf(s[..|s| - 1]) + DigitValue(s[|s| - 1])
  }

  /** `String` of a natural number: no leading zeros. */
  function Decimal(n: nat): string {
    if n < 10 then [Digit(n)] else Decimal(n / 10) + [Digit(n % 10)]
  }

  /** `String` of an integer. */
  function IntText(n: int): string { if n < 0 then "-" + Decimal(-n) else Decimal(n) }

  /** `padStart(width, "0")`. */
  function PadStart(s: string, width: nat): string
    decreases width - |s|
  {
    if |s| >= width then s else PadStart("0" + s, width)
  }

  /** A number's text reads back as the number, and has no zero in front unless it is zero. */
  lemma {:induction false} DecimalReadsBack(n: nat)
    ensures AreDigits(Decimal(n)) && NumberOf(Decimal(n)) == n
    ensures Decimal(n) != "" && (Decimal(n)[0] == '0' ==> n == 0)
  {
    if n < 10 {
      assert Decimal(n)[..0] == "";
      assert NumberOf(Decimal(n)[..0]) == 0;
      assert DigitValue(Digit(n)) == n;
    } else {
      DecimalReadsBack(n / 10);
      var s := Decimal(n);
      assert s[..|s| - 1] == Decimal(n / 10) && s[|s| - 1] == Digit(n % 10);
    }
  }

  lemma DecimalLength(n: nat)
    requires n <= 9999
    ensures |Decimal(n)| == if n < 10 then 1 else if n < 100 then 2 else if n < 1000 then 3 else 4
  {
    if n >= 10 {
      assert Decimal(n) == Decimal(n / 10) + [Digit(n % 10)];
      if n >= 100 {
        assert Decimal(n / 10) == Decimal(n / 100) + [Digit(n / 10 % 10)];
      }
    }
  }
}
