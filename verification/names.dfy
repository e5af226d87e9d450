/** BinkP file names and the M_FILE command: unix2binkp, binkp2unix, and what becomes of a line of arguments. */
module Names {
  import opened Common

  /** A character that travels as itself. */
  predicate Safe(c: char) {
    'A' <= c <= 'Z' || 'a' <= c <= 'z' || '0' <= c <= '9' || c in "@&=+%$-_.!()#|"
  }

  /** One lower-case hexadecimal digit. */
  function HexDigit(n: nat): char
    requires n < 16
  {
    if n < 10 then (n + '0' as int) as char else (n - 10 + 'a' as int) as char
  }

  /** "%2x": two places, the first a space if one digit is enough. */
  function Hex2(n: nat): string
    requires n < 256
  {
    [if n < 16 then ' ' else HexDigit(n / 16), HexDigit(n % 16)]
  }

  /** A seven-bit character. */
  predicate SevenBit(c: char) {
    1 <= c as int < 128
  }

  predicate Ascii(s: string) {
    forall c :: c in s ==> SevenBit(c)
  }

  function EscapeChar(wrong: bool, c: char): string
    requires SevenBit(c)
  {
    if Safe(c) then [c] else (if wrong then ['\\'] else ['\\', 'x']) + Hex2(c as int)
  }

  /** unix2binkp; `wrong` for nodes that expect no x. */
  function Escape(wrong: bool, s: string): string
    requires Ascii(s)
    decreases |s|
  {
    if s == [] then [] else EscapeChar(wrong, s[0]) + Escape(wrong, s[1..])
  }

  /** sscanf of "%2x" on two characters, which passes over leading blanks. */
  function Scan2(a: char, b: char): (n: int)
    ensures -1 <= n < 256
  {
    if a == ' ' then Digit(b)
    else if Digit(a) < 0 then -1
    else if Digit(b) < 0 then Digit(a)
    else 16 * Digit(a) + Digit(b)
  }

  function Prepend(c: char, r: Option<string>): Option<string> {
    if r.Some? then Some([c] + r.value) else None
  }

  /** The two characters of an escape and what follows them. */
  function UnescapeHex(s: string): Option<string>
    decreases |s|, 0
  {
    if |s| < 2 || Scan2(s[0], s[1]) < 0 then None else Prepend(Scan2(s[0], s[1]) as char, Unescape(s[2..]))
  }

  /** binkp2unix; None where the code would read on behind the string or keep an old value. */
  function Unescape(s: string): Option<string>
    decreases |s|, 1
  {
    if s == [] then Some([])
    else if s[0] != '\\' then Prepend(s[0], Unescape(s[1..]))
    else if |s| < 2 then None
    else if s[1] == '\\' then Prepend('\\', Unescape(s[2..]))
    else if s[1] == 'x' || s[1] == 'X' then UnescapeHex(s[2..])
    else UnescapeHex(s[1..])
  }

  lemma HexBack(n: nat)
    requires n < 128
    ensures var h := Hex2(n); Scan2(h[0], h[1]) == n && h[0] != '\\' && h[0] != 'x' && h[0] != 'X'
    ensures HexDigit(n % 16) != ' ' && (n >= 16 ==> Hex2(n)[0] != ' ')
    ensures forall c :: c in Hex2(n) ==> c != '\n' && c != '\r'
  {
    Digits(n / 16);
    Digits(n % 16);
  }

  lemma Digits(d: nat)
    requires d < 16
    ensures var h := HexDigit(d); Digit(h) == d && h != '\\' && h != 'x' && h != 'X' && h != ' ' && h != '\n' && h != '\r'
  {
  }

  lemma UnescapeOne(wrong: bool, c: char, s: string)
    requires SevenBit(c)
    ensures Unescape(EscapeChar(wrong, c) + s) == Prepend(c, Unescape(s))
  {
    hide Scan2, HexDigit;
    var w := EscapeChar(wrong, c) + s;
    if Safe(c) {
      assert w[1..] == s;
    } else {
      HexBack(c as int);
      var h := Hex2(c as int);
      if wrong {
        assert w[1..] == h + s && (h + s)[2..] == s;
      } else {
        assert w[2..] == h + s && (h + s)[2..] == s;
      }
    }
  }

  /** The value of a hex digit, small or capital. */
  predicate DigitIs(c: char, n: nat) {
    ('0' <= c <= '9' && n == c as int - 48) || ('a' <= c <= 'f' && n == c as int - 87) || ('A' <= c <= 'F' && n == c as int - 55)
  }

  predicate NoDigit(c: char) {
    !('0' <= c <= '9') && !('a' <= c <= 'f') && !('A' <= c <= 'F')
  }

  /** However a peer writes an escape, with an 'x' of either case or without, with digits of either case: it gives the character with that code.
      A character that is no digit behind the first, or in front of the second if it is a blank, does not count.  Two
      backslashes are one. */
  lemma AnyEscape(x: string, a: char, b: char, m: nat, n: nat, s: string)
    requires x in {"", "x", "X"}
    ensures DigitIs(a, m) && DigitIs(b, n) ==> Unescape("\\" + x + [a, b] + s) == Prepend((16 * m + n) as char, Unescape(s))
    ensures DigitIs(a, m) && NoDigit(b) ==> Unescape("\\" + x + [a, b] + s) == Prepend(m as char, Unescape(s))
    ensures a == ' ' && DigitIs(b, n) ==> Unescape("\\" + x + [a, b] + s) == Prepend(n as char, Unescape(s))
    ensures a !in {' ', '\\', 'x', 'X'} && NoDigit(a) ==> Unescape("\\" + x + [a, b] + s) == None
    ensures Unescape("\\\\" + s) == Prepend('\\', Unescape(s))
  {
    assert ("\\\\" + s)[2..] == s;
    var w := "\\" + x + [a, b] + s;
    if x == "" {
      assert w[1..] == [a, b] + s;
    } else {
      assert w[2..] == [a, b] + s;
    }
    var u := [a, b] + s;
    assert u[2..] == s;
    DigitOf(a);
    DigitOf(b);
  }

  lemma DigitOf(c: char)
    ensures if Digit(c) < 0 then NoDigit(c) else !NoDigit(c) && DigitIs(c, Digit(c))
  {
  }

  /** Letters, digits and eighteen other characters go as they are, and nothing else does; of the rest the code goes, in two places, with small
      digits and a blank for a leading zero. */
  lemma WrittenAs(wrong: bool, c: char)
    requires SevenBit(c)
    ensures var w := EscapeChar(wrong, c); var plain := !NoLetter(c) || '0' <= c <= '9' || c in "@&=+%$-_.!()#|";
      if plain then w == [c]
      else
        && |w| == (if wrong then 3 else 4) && w[0] == '\\' && (!wrong ==> w[1] == 'x')
        && DigitIs(w[|w| - 1], c as int % 16) && NoLetter(w[|w| - 1]) == (c as int % 16 < 10) && !('A' <= w[|w| - 1] <= 'F')
        && (if c as int < 16 then w[|w| - 2] == ' ' else DigitIs(w[|w| - 2], c as int / 16))
  {
  }

  predicate NoLetter(c: char) {
    !('A' <= c <= 'Z') && !('a' <= c <= 'z')
  }

  /** Unescaping gives back every string of seven-bit characters, in either way of writing. */
  lemma {:induction false} RoundTrip(wrong: bool, s: string)
    requires Ascii(s)
    ensures Unescape(Escape(wrong, s)) == Some(s)
    decreases |s|
  {
    hide EscapeChar, Unescape;
    if s == [] {
      EscapeNone(wrong);
    } else {
      RoundTrip(wrong, s[1..]);
      UnescapeOne(wrong, s[0], Escape(wrong, s[1..]));
      assert [s[0]] + s[1..] == s;
    }
  }

  lemma EscapeNone(wrong: bool)
    ensures Unescape([]) == Some([])
  {
  }

  // ------------------------------------------------------------------ tokens

  predicate Blank(c: char) {
    c == ' ' || c == '\n' || c == '\r'
  }

  predicate Unbroken(s: string) {
    forall c :: c in s ==> !Blank(c)
  }

  /** The length of the token at the head. */
  function Token(s: string): (n: nat)
    ensures n <= |s| && (n < |s| ==> Blank(s[n])) && Unbroken(s[..n])
    decreases |s|
  {
    if s == [] || Blank(s[0]) then 0 else
    var n := 1 + Token(s[1..]);
    assert s[..n] == [s[0]] + s[1..][..n - 1];
    n
  }

  /** strtok over and over with blanks, line feeds and carriage returns. */
  function Tokens(s: string): seq<string>
    decreases |s|
  {
    if s == [] then []
    else if Blank(s[0]) then Tokens(s[1..])
    else [s[..Token(s)]] + Tokens(s[Token(s)..])
  }

  lemma {:induction false} TokenOf(a: string, s: string)
    requires Unbroken(a) && (s == [] || Blank(s[0]))
    ensures Token(a + s) == |a|
    decreases |a|
  {
    if a == [] {
      assert a + s == s;
    } else {
      assert a[0] in a && (a + s)[1..] == a[1..] + s;
      TokenOf(a[1..], s);
    }
  }

  lemma TokensOf(a: string, s: string)
    requires a != [] && Unbroken(a) && (s == [] || Blank(s[0]))
    ensures Tokens(a + s) == [a] + Tokens(s)
  {
    TokenOf(a, s);
    assert a[0] in a && (a + s)[0] == a[0];
    assert (a + s)[..|a|] == a && (a + s)[|a|..] == s;
  }

  // ------------------------------------------------------------------ numbers

  function Decimal(n: nat): (s: string)
    ensures s != []
    decreases n
  {
    if n < 10 then [HexDigit(n)] else Decimal(n / 10) + [HexDigit(n % 10)]
  }

  /** atoi of digits, from the left. */
  function Atoi(acc: nat, s: string): nat
    decreases |s|
  {
    if s == [] || !('0' <= s[0] <= '9') then acc else Atoi(10 * acc + (s[0] as int - '0' as int), s[1..])
  }

  predicate AllDigits(s: string) {
    forall c :: c in s ==> '0' <= c <= '9'
  }

  lemma {:induction false} AtoiAppend(acc: nat, s: string, d: nat)
    requires AllDigits(s) && d < 10
    ensures Atoi(acc, s + [HexDigit(d)]) == 10 * Atoi(acc, s) + d
    decreases |s|
  {
    if s == [] {
      assert s + [HexDigit(d)] == [HexDigit(d)] && [HexDigit(d)][1..] == [];
    } else {
      assert (s + [HexDigit(d)])[1..] == s[1..] + [HexDigit(d)];
      assert s[0] in s;
      assert AllDigits(s[1..]) by {
        forall c | c in s[1..] ensures '0' <= c <= '9' { assert c in s; }
      }
      AtoiAppend(10 * acc + (s[0] as int - '0' as int), s[1..], d);
    }
  }

  lemma {:induction false} DecimalDigits(n: nat)
    ensures AllDigits(Decimal(n)) && Unbroken(Decimal(n))
    decreases n
  {
    if n >= 10 {
      DecimalDigits(n / 10);
    }
  }

  lemma {:induction false} AtoiDecimal(n: nat)
    ensures Atoi(0, Decimal(n)) == n
    decreases n
  {
    if n < 10 {
      assert [HexDigit(n)][1..] == [];
    } else {
      AtoiDecimal(n / 10);
      DecimalDigits(n / 10);
      AtoiAppend(0, Decimal(n / 10), n % 10);
    }
  }

  // ------------------------------------------------------------------ M_FILE

  /** What M_FILE says: name as escaped, size, date, offset, and "GZ", "BZ2" or nothing. */
  datatype FileInfo = FileInfo(name: string, size: nat, date: nat, offset: nat, option: string)

  predicate Option3(s: string) {
    s == [] || s == "GZ" || s == "BZ2"
  }

  /** "%s %u %d %d%s". */
  function Print(f: FileInfo): string {
    f.name + ([' '] + (Decimal(f.size) + ([' '] + (Decimal(f.date) + ([' '] + (Decimal(f.offset) + (if f.option == [] then [] else [' '] + f.option)))))))
  }

  datatype Parsed = Parsed(info: FileInfo) | TooLong | TooShort

  /** RxAccF on the line, which with its command byte must stay below 512 characters; a longer one is answered M_GOT. */
  function Parse(line: string): Parsed {
    if 1 + |line| >= 512 then TooLong else
    var t := Tokens(line);
    if |t| < 4 then TooShort
    else Parsed(FileInfo(t[0], Atoi(0, t[1]), Atoi(0, t[2]), Atoi(0, t[3]), if |t| > 4 then t[4] else []))
  }

  lemma TokensPrinted(f: FileInfo)
    requires f.name != [] && Unbroken(f.name) && Option3(f.option)
    ensures Tokens(Print(f)) == [f.name, Decimal(f.size), Decimal(f.date), Decimal(f.offset)] + (if f.option == [] then [] else [f.option])
  {
    hide Token, Tokens, Decimal;
    DecimalDigits(f.size);
    DecimalDigits(f.date);
    DecimalDigits(f.offset);
    var last := if f.option == [] then [] else [' '] + f.option;
    TokensLast(f.option);
    TokensOf(Decimal(f.offset), last);
    Skip(Decimal(f.offset) + last);
    TokensOf(Decimal(f.date), [' '] + (Decimal(f.offset) + last));
    Skip(Decimal(f.date) + ([' '] + (Decimal(f.offset) + last)));
    TokensOf(Decimal(f.size), [' '] + (Decimal(f.date) + ([' '] + (Decimal(f.offset) + last))));
    Skip(Decimal(f.size) + ([' '] + (Decimal(f.date) + ([' '] + (Decimal(f.offset) + last)))));
    TokensOf(f.name, [' '] + (Decimal(f.size) + ([' '] + (Decimal(f.date) + ([' '] + (Decimal(f.offset) + last))))));
  }

  lemma Skip(s: string)
    ensures Tokens([' '] + s) == Tokens(s)
  {
    assert ([' '] + s)[1..] == s;
  }

  lemma TokensLast(option: string)
    requires Option3(option)
    ensures Tokens(if option == [] then [] else [' '] + option) == if option == [] then [] else [option]
  {
    if option != [] {
      Skip(option);
      TokensOf(option, []);
      assert option + [] == option;
      assert Tokens([]) == [];
    }
  }

  /** Sizes, dates and offsets fit an int. */
  predicate Fits(f: FileInfo) {
    f.size < 0x8000_0000 && f.date < 0x8000_0000 && f.offset < 0x8000_0000
  }

  /** A printed line short enough is read back whole exactly if the name on it is one token. */
  lemma PrintedIff(f: FileInfo)
    requires f.name != [] && Option3(f.option) && Fits(f) && 1 + |Print(f)| < 512
    ensures Parse(Print(f)) == Parsed(f) <==> Unbroken(f.name)
  {
    hide Tokens, Decimal, Atoi;
    if Unbroken(f.name) {
      TokensPrinted(f);
      AtoiDecimal(f.size);
      AtoiDecimal(f.date);
      AtoiDecimal(f.offset);
    } else {
      TokensUnbroken(Print(f));
      var t := Tokens(Print(f));
      if t != [] {
        assert t[0] in t;
      }
    }
  }

  lemma {:induction false} TokensUnbroken(s: string)
    ensures forall t :: t in Tokens(s) ==> Unbroken(t)
    decreases |s|
  {
    if s != [] {
      if Blank(s[0]) {
        TokensUnbroken(s[1..]);
      } else {
        TokensUnbroken(s[Token(s)..]);
      }
    }
  }

  lemma EscapedChar(wrong: bool, c: char)
    requires SevenBit(c)
    ensures EscapeChar(wrong, c) != []
    ensures Unbroken(EscapeChar(wrong, c)) <==> c as int >= 16
  {
    if !Safe(c) {
      HexBack(c as int);
      assert Hex2(c as int)[0] in EscapeChar(wrong, c);
    }
  }

  /** The escaped name is one token exactly if the name has no character below 16, whose code is padded with a blank. */
  lemma {:induction false} EscapedUnbroken(wrong: bool, s: string)
    requires Ascii(s)
    ensures s != [] ==> Escape(wrong, s) != []
    ensures Unbroken(Escape(wrong, s)) <==> forall c :: c in s ==> c as int >= 16
    decreases |s|
  {
    hide EscapeChar;
    if s != [] {
      EscapedChar(wrong, s[0]);
      EscapedUnbroken(wrong, s[1..]);
      UnbrokenBoth(EscapeChar(wrong, s[0]), Escape(wrong, s[1..]));
      if s[0] as int >= 16 && forall c :: c in s[1..] ==> c as int >= 16 {
        forall c | c in s ensures c as int >= 16 {
          assert s == [s[0]] + s[1..];
        }
      } else {
        assert s[0] in s && forall c :: c in s[1..] ==> c in s;
      }
    }
  }

  lemma UnbrokenBoth(a: string, b: string)
    ensures Unbroken(a + b) <==> Unbroken(a) && Unbroken(b)
  {
    if Unbroken(a + b) {
      forall c | c in a ensures !Blank(c) { assert c in a + b; }
      forall c | c in b ensures !Blank(c) { assert c in a + b; }
    }
  }

  /** M_FILE for a file of this name, size, date and offset tells the peer just these, and its own name for the file is the
      name, exactly if no character of it is below 16. */
  lemma FileSurvives(wrong: bool, name: string, size: nat, date: nat, offset: nat, option: string)
    requires name != [] && Ascii(name) && Option3(option)
    requires Fits(FileInfo(Escape(wrong, name), size, date, offset, option))
    requires 1 + |Print(FileInfo(Escape(wrong, name), size, date, offset, option))| < 512
    ensures var f := FileInfo(Escape(wrong, name), size, date, offset, option);
      && (Parse(Print(f)) == Parsed(f) <==> forall c :: c in name ==> c as int >= 16)
      && (Parse(Print(f)) == Parsed(f) ==> Unescape(Parse(Print(f)).info.name) == Some(name))
  {
    hide Escape, Unescape, Print, Parse;
    EscapedUnbroken(wrong, name);
    RoundTrip(wrong, name);
    PrintedIff(FileInfo(Escape(wrong, name), size, date, offset, option));
  }

  /** A line too long is refused before it is taken apart; its arguments are those of the file. */
  lemma LongLineAcknowledged(f: FileInfo)
    requires f.name != [] && Unbroken(f.name) && Option3(f.option) && 1 + |Print(f)| >= 512
    ensures Parse(Print(f)) == TooLong
    ensures var t := Tokens(Print(f)); |t| >= 3 && t[0] == f.name && Atoi(0, t[1]) == f.size && Atoi(0, t[2]) == f.date
  {
    hide Tokens, Decimal, Atoi, Print;
    TokensPrinted(f);
    AtoiDecimal(f.size);
    AtoiDecimal(f.date);
  }

  // ------------------------------------------------------------------ as the code does it

  /** unix2binkp, filling its buffer character by character. */
  method Unix2Binkp(wrong: bool, fn: string) returns (buf: string)
    requires Ascii(fn)
    ensures buf == Escape(wrong, fn)
  {
    hide EscapeChar;
    buf := [];
    var p := 0;
    assert fn[0..] == fn;
    while p < |fn|
      invariant 0 <= p <= |fn| && Escape(wrong, fn) == buf + Escape(wrong, fn[p..])
    {
      assert fn[p..][0] == fn[p] && fn[p..][1..] == fn[p + 1..] && fn[p] in fn;
      assert buf + (EscapeChar(wrong, fn[p]) + Escape(wrong, fn[p + 1..])) == buf + EscapeChar(wrong, fn[p]) + Escape(wrong, fn[p + 1..]);
      buf := buf + EscapeChar(wrong, fn[p]);
      p := p + 1;
    }
  }

  /** Everything so far and what the rest of the string gives. */
  function Onto(buf: string, r: Option<string>): Option<string> {
    if r.Some? then Some(buf + r.value) else None
  }

  lemma OntoOne(buf: string, c: char, r: Option<string>)
    ensures Onto(buf, Prepend(c, r)) == Onto(buf + [c], r)
  {
    if r.Some? {
      assert buf + ([c] + r.value) == buf + [c] + r.value;
    }
  }

  lemma Drop(s: string, p: nat, k: nat)
    requires p + k <= |s|
    ensures s[p..][k..] == s[p + k..]
  {
  }

  /** binkp2unix. */
  method Binkp2Unix(fn: string) returns (r: Option<string>)
    ensures r == Unescape(fn)
  {
    hide Scan2;
    var buf: string := [];
    var p := 0;
    assert fn[0..] == fn;
    assert Onto([], Unescape(fn)) == Unescape(fn) by {
      if Unescape(fn).Some? { assert [] + Unescape(fn).value == Unescape(fn).value; }
    }
    while p < |fn|
      invariant 0 <= p <= |fn| && Unescape(fn) == Onto(buf, Unescape(fn[p..]))
    {
      ghost var s := fn[p..];
      assert s[0] == fn[p];
      Drop(fn, p, 1);
      var c := fn[p];
      if c == '\\' {
        p := p + 1;
        if p == |fn| { return None; }
        assert s[1] == fn[p];
        Drop(fn, p - 1, 2);
        if fn[p] != '\\' {
          if fn[p] == 'x' || fn[p] == 'X' { p := p + 1; }
          Drop(fn, p, 0);
          assert Unescape(s) == UnescapeHex(fn[p..]);
          if p + 1 >= |fn| || Scan2(fn[p], fn[p + 1]) < 0 { return None; }
          c := Scan2(fn[p], fn[p + 1]) as char;
          Drop(fn, p, 2);
          p := p + 1;
        }
      }
      OntoOne(buf, c, Unescape(fn[p + 1..]));
      buf := buf + [c];
      p := p + 1;
    }
    assert fn[p..] == [] && buf + [] == buf;
    return Some(buf);
  }
}
