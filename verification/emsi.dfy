/** The escaping of EMSI data (FSC-0056): emsiencode, sel_brace and sel_bracket. */
module Emsi {
  import opened Common

  /** Upper-case hexadecimal digits. */
  function Base16(n: nat): char
    requires n < 16
  {
    if n < 10 then (n + '0' as int) as char else (n - 10 + 'A' as int) as char
  }

  function EncChar(c: char): string {
    if c == '\\' then ['\\', '\\']
    else if c == '[' || c == ']' || c == '{' || c == '}' then ['\\', Base16(c as int / 16), Base16(c as int % 16)]
    else [c]
  }

  /** emsiencode. */
  function Encode(s: string): string
    decreases |s|
  {
    if s == [] then [] else EncChar(s[0]) + Encode(s[1..])
  }

  /** A field up to its closing delimiter and what follows; or the string ended first; or an escape had no digit,
      for which the code leaves its value open. */
  datatype Selected = Closed(text: string, rest: string) | Unclosed | Malformed

  function Prepend(c: char, r: Selected): Selected {
    if r.Closed? then r.(text := [c] + r.text) else r
  }

  /** sscanf of "%02x". */
  function HexValue(a: char, b: char): int {
    if Digit(a) < 0 then -1 else if Digit(b) < 0 then Digit(a) else 16 * Digit(a) + Digit(b)
  }

  /** The loop of sel_brace and sel_bracket, behind the opening delimiter. */
  function Select(close: char, s: string): Selected
    decreases |s|
  {
    if s == [] then Unclosed
    else if s[0] == close then
      if |s| > 1 && s[1] == close then Prepend(close, Select(close, s[2..])) else Closed([], s[1..])
    else if s[0] == '\\' then
      if |s| > 1 && s[1] == '\\' then Prepend('\\', Select(close, s[2..]))
      else if |s| < 3 || HexValue(s[1], s[2]) < 0 then Malformed
      else Prepend(HexValue(s[1], s[2]) as char, Select(close, s[3..]))
    else Prepend(s[0], Select(close, s[1..]))
  }

  /** One turn of that loop. */
  lemma SelectIs(close: char, s: string)
    requires s != []
    ensures Select(close, s) ==
      if s[0] == close then
        if |s| > 1 && s[1] == close then Prepend(close, Select(close, s[2..])) else Closed([], s[1..])
      else if s[0] == '\\' then
        if |s| > 1 && s[1] == '\\' then Prepend('\\', Select(close, s[2..]))
        else if |s| < 3 || HexValue(s[1], s[2]) < 0 then Malformed
        else Prepend(HexValue(s[1], s[2]) as char, Select(close, s[3..]))
      else Prepend(s[0], Select(close, s[1..]))
  {
  }

  /** sel_brace or sel_bracket: everything up to the opening delimiter is passed over. */
  function Find(open: char, s: string): (r: nat)
    ensures r <= |s| && (r < |s| ==> s[r] == open) && forall k :: 0 <= k < r ==> s[k] != open
    decreases |s|
  {
    if s == [] || s[0] == open then 0 else 1 + Find(open, s[1..])
  }

  predicate Delimiters(open: char, close: char) {
    (open == '{' && close == '}') || (open == '[' && close == ']')
  }

  /** What may stand behind a field. */
  predicate Behind(close: char, tail: string) {
    tail == [] || tail[0] != close
  }

  lemma EncCharSelect(close: char, c: char, s: string)
    requires close == '}' || close == ']'
    ensures Select(close, EncChar(c) + s) == Prepend(c, Select(close, s))
  {
    var w := EncChar(c) + s;
    if c == '\\' {
      assert w[2..] == s;
    } else if c == '[' || c == ']' || c == '{' || c == '}' {
      assert w[3..] == s;
      assert HexValue(w[1], w[2]) == c as int;
    } else {
      assert w[1..] == s;
    }
  }

  /** The value of a hex digit, small or capital. */
  predicate DigitIs(c: char, n: nat) {
    ('0' <= c <= '9' && n == c as int - 48) || ('a' <= c <= 'f' && n == c as int - 87) || ('A' <= c <= 'F' && n == c as int - 55)
  }

  predicate NoDigit(c: char) {
    !('0' <= c <= '9') && !('a' <= c <= 'f') && !('A' <= c <= 'F')
  }

  lemma DigitOf(c: char)
    ensures if Digit(c) < 0 then NoDigit(c) else !NoDigit(c) && DigitIs(c, Digit(c))
  {
  }

  /** However a peer writes an escape: two digits of either case give the character with that code, one digit alone counts as the code, with the
      character behind it gone, and no digit is no escape; two backslashes and two delimiters are one. */
  lemma AnyEscape(close: char, a: char, b: char, m: nat, n: nat, s: string)
    requires close == '}' || close == ']'
    ensures DigitIs(a, m) && DigitIs(b, n) ==> Select(close, ['\\', a, b] + s) == Prepend((16 * m + n) as char, Select(close, s))
    ensures DigitIs(a, m) && NoDigit(b) ==> Select(close, ['\\', a, b] + s) == Prepend(m as char, Select(close, s))
    ensures NoDigit(a) && a != '\\' ==> Select(close, ['\\', a, b] + s) == Malformed
    ensures Select(close, ['\\', '\\'] + s) == Prepend('\\', Select(close, s)) && Select(close, [close, close] + s) == Prepend(close, Select(close, s))
  {
    DigitOf(a);
    DigitOf(b);
    assert (['\\', a, b] + s)[3..] == s && (['\\', '\\'] + s)[2..] == s && ([close, close] + s)[2..] == s;
  }

  /** One pass over an encoded field and its closing delimiter gives the field and stops behind the delimiter. */
  lemma {:induction false} RoundTrip(close: char, s: string, tail: string)
    requires (close == '}' || close == ']') && Behind(close, tail)
    ensures Select(close, Encode(s) + ([close] + tail)) == Closed(s, tail)
    decreases |s|
  {
    hide Select, EncChar;
    if s == [] {
      assert Encode(s) + ([close] + tail) == [close] + tail;
      AtClose(close, tail);
    } else {
      RoundTrip(close, s[1..], tail);
      EncCharSelect(close, s[0], Encode(s[1..]) + ([close] + tail));
      assert Encode(s) + ([close] + tail) == EncChar(s[0]) + (Encode(s[1..]) + ([close] + tail));
      assert [s[0]] + s[1..] == s;
    }
  }

  lemma AtClose(close: char, tail: string)
    requires Behind(close, tail)
    ensures Select(close, [close] + tail) == Closed([], tail)
  {
    assert ([close] + tail)[1..] == tail;
  }

  // ------------------------------------------------------------------ encoding into a buffer

  function Brackets(s: string): nat
    decreases |s|
  {
    if s == [] then 0 else (if s[0] == '[' || s[0] == ']' || s[0] == '{' || s[0] == '}' then 1 else 0) + Brackets(s[1..])
  }

  function Backslashes(s: string): nat
    decreases |s|
  {
    if s == [] then 0 else (if s[0] == '\\' then 1 else 0) + Backslashes(s[1..])
  }

  /** The buffer of twice the length is enough exactly if brackets and braces, which take three, are few enough. */
  lemma {:induction false} EncodedLength(s: string)
    ensures |Encode(s)| == |s| + Backslashes(s) + 2 * Brackets(s)
    ensures |Encode(s)| <= 2 * |s| <==> Backslashes(s) + 2 * Brackets(s) <= |s|
    decreases |s|
  {
    if s != [] {
      EncodedLength(s[1..]);
    }
  }

  lemma {:induction false} EncodeAppend(a: string, c: char)
    ensures Encode(a + [c]) == Encode(a) + EncChar(c)
    decreases |a|
  {
    hide EncChar;
    if a == [] {
      assert a + [c] == [c] && [c][1..] == [];
      assert EncChar(c) + [] == [] + EncChar(c);
    } else {
      assert (a + [c])[1..] == a[1..] + [c];
      EncodeAppend(a[1..], c);
      assert EncChar(a[0]) + (Encode(a[1..]) + EncChar(c)) == EncChar(a[0]) + Encode(a[1..]) + EncChar(c);
    }
  }

  lemma {:induction false} EncodePrefix(s: string, k: nat)
    requires k <= |s|
    ensures |Encode(s[..k])| <= |Encode(s)|
    decreases |s| - k
  {
    if k < |s| {
      assert s[..k + 1] == s[..k] + [s[k]];
      EncodeAppend(s[..k], s[k]);
      EncodePrefix(s, k + 1);
    } else {
      assert s[..k] == s;
    }
  }

  /** emsiencode, for a string whose code fits the buffer it allocates. */
  method EmsiEncode(s: string) returns (buf: array<char>, n: nat)
    requires Backslashes(s) + 2 * Brackets(s) <= |s|
    ensures fresh(buf) && n < buf.Length && buf[..n] == Encode(s) && buf[n] == '\0'
  {
    hide Encode, EncChar, Backslashes, Brackets;
    EncodedLength(s);
    buf := new char[2 * |s| + 1](_ => '\0');
    EncodeNothing();
    var p, q := 0, 0;
    assert s[..0] == [];
    while p < |s|
      invariant 0 <= p <= |s| && 0 <= q <= 2 * |s| && buf[..q] == Encode(s[..p])
    {
      var code := EncChar(s[p]);
      EncodeAppend(s[..p], s[p]);
      assert s[..p + 1] == s[..p] + [s[p]];
      EncodePrefix(s, p + 1);
      ghost var before := buf[..q];
      var k := 0;
      while k < |code|
        invariant 0 <= k <= |code| && q + |code| - k <= 2 * |s| && buf[..q] == before + code[..k]
      {
        buf[q] := code[k];
        q := q + 1;
        k := k + 1;
      }
      p := p + 1;
    }
    assert s[..p] == s;
    buf[q] := '\0';
    n := q;
  }

  lemma EncodeNothing()
    ensures Encode([]) == []
  {
  }

  // ------------------------------------------------------------------ many fields

  function Join(open: char, close: char, fields: seq<string>): string
    decreases |fields|
  {
    if fields == [] then [] else [open] + Encode(fields[0]) + [close] + Join(open, close, fields[1..])
  }

  /** Calls of sel_brace or sel_bracket one after another, each where the last one stopped. */
  function SelectAll(open: char, close: char, s: string): seq<string>
    decreases |s|
  {
    var k := Find(open, s);
    if k == |s| then [] else
    match Select(close, s[k + 1..])
    case Closed(text, rest) => SelectRest(close, s[k + 1..]); [text] + SelectAll(open, close, rest)
    case _ => []
  }

  lemma {:induction false} SelectRest(close: char, s: string)
    ensures var r := Select(close, s); r.Closed? ==> |r.rest| < |s| && |r.text| < |s| - |r.rest| && r.rest == s[|s| - |r.rest|..]
    decreases |s|
  {
    hide Select, HexValue;
    if s == [] {
      SelectNone(close);
    } else {
      SelectIs(close, s);
      if |s| > 1 { SelectRest(close, s[2..]); }
      if |s| > 2 { SelectRest(close, s[3..]); }
      SelectRest(close, s[1..]);
    }
  }

  /** All the fields of a packet come back. */
  lemma {:induction false} AllFields(open: char, close: char, fields: seq<string>)
    requires Delimiters(open, close)
    ensures SelectAll(open, close, Join(open, close, fields)) == fields
    decreases |fields|
  {
    hide Select, Encode;
    if fields != [] {
      var tail := Join(open, close, fields[1..]);
      var w := Join(open, close, fields);
      assert w == [open] + (Encode(fields[0]) + ([close] + tail));
      assert w[1..] == Encode(fields[0]) + ([close] + tail);
      RoundTrip(close, fields[0], tail);
      AllFields(open, close, fields[1..]);
      assert Find(open, w) == 0;
    }
  }

  // ------------------------------------------------------------------ decoding twice

  /** What the second pass does to a field that the first has decoded already. */
  predicate Special(c: char) {
    c == '\\' || c == ']'
  }

  predicate Plain(s: string) {
    forall c :: c in s ==> !Special(c)
  }

  lemma {:induction false} PlainSelect(s: string, tail: string)
    requires Plain(s) && Behind(']', tail)
    ensures Select(']', s + ([']'] + tail)) == Closed(s, tail)
    decreases |s|
  {
    if s == [] {
      assert s + ([']'] + tail) == [']'] + tail;
      AtClose(']', tail);
    } else {
      assert (s + ([']'] + tail))[1..] == s[1..] + ([']'] + tail);
      assert s[0] in s;
      PlainSelect(s[1..], tail);
      assert [s[0]] + s[1..] == s;
    }
  }

  /** Neither the start of another field nor a control character. */
  predicate Tame(c: char) {
    c != '[' && c as int >= 16
  }

  lemma HexTame(a: char, b: char)
    ensures HexValue(a, b) >= 16 ==> Tame(a) && Tame(b) && Digit(b) >= 0
  {
  }

  /** Once the reader is ahead of what it has given, the rest cannot come out right: name[e..] from position k > e. */
  lemma {:induction false} Ahead(name: string, tail: string, i: nat, e: nat, k: nat)
    requires i < e < k <= |name| && (tail == [] || tail[0] == '[')
    requires forall j :: i < j < k ==> Tame(name[j])
    ensures var r := Select(']', name[k..] + ([']'] + tail)); !(r.Closed? && r.text == name[e..])
    decreases |name| - k, 1
  {
    hide Select;
    var w := name[k..] + ([']'] + tail);
    if k == |name| {
      assert w == [']'] + tail;
      AtClose(']', tail);
    } else if name[k] == ']' {
      AheadBracket(name, tail, i, e, k);
    } else if name[k] == '\\' {
      AheadEscape(name, tail, i, e, k);
    } else {
      AheadPlain(name, tail, i, e, k);
    }
  }

  lemma TailStarts(tail: string, text: string)
    requires tail == [] || tail[0] == '['
    ensures var r := Select(']', tail); r.Closed? && r.text == text ==> text != [] && text[0] == '['
  {
  }

  /** The reader n characters further into name, closing bracket and tail. */
  lemma Shift(name: string, k: nat, n: nat, tail: string)
    requires k + n <= |name|
    ensures (name[k..] + ([']'] + tail))[n..] == name[k + n..] + ([']'] + tail)
  {
  }

  /** A closing bracket that is not the end: a doubled one, the second perhaps the delimiter itself. */
  lemma AheadBracket(name: string, tail: string, i: nat, e: nat, k: nat)
    requires i < e < k < |name| && (tail == [] || tail[0] == '[') && name[k] == ']'
    requires forall j :: i < j < k ==> Tame(name[j])
    ensures var r := Select(']', name[k..] + ([']'] + tail)); !(r.Closed? && r.text == name[e..])
    decreases |name| - k, 0
  {
    hide Select;
    var w := name[k..] + ([']'] + tail);
    SelectIs(']', w);
    if k + 1 == |name| {
      assert w == [']', ']'] + tail && w[2..] == tail;
      TailStarts(tail, name[e + 1..]);
      assert name[e..][1..] == name[e + 1..];
      assert name[e + 1] != '[' && name[e + 1..][0] == name[e + 1];
    } else if name[k + 1] == ']' {
      assert w[1] == name[k + 1];
      Shift(name, k, 2, tail);
      Ahead(name, tail, i, e + 1, k + 2);
      assert name[e..][1..] == name[e + 1..];
    } else {
      assert w[1] == name[k + 1];
      assert name[e..] != [];
    }
  }

  lemma AheadEscape(name: string, tail: string, i: nat, e: nat, k: nat)
    requires i < e < k < |name| && (tail == [] || tail[0] == '[') && name[k] == '\\'
    requires forall j :: i < j < k ==> Tame(name[j])
    ensures var r := Select(']', name[k..] + ([']'] + tail)); !(r.Closed? && r.text == name[e..])
    decreases |name| - k, 0
  {
    hide Select, HexValue;
    var w := name[k..] + ([']'] + tail);
    SelectIs(']', w);
    assert name[e..][1..] == name[e + 1..] && name[e..][0] == name[e];
    if k + 1 < |name| && name[k + 1] == '\\' {
      assert w[1] == name[k + 1];
      Shift(name, k, 2, tail);
      Ahead(name, tail, i, e + 1, k + 2);
    } else if k + 2 < |name| {
      assert w[1] == name[k + 1] && w[2] == name[k + 2];
      HexTame(w[1], w[2]);
      if HexValue(w[1], w[2]) >= 16 {
        Shift(name, k, 3, tail);
        Ahead(name, tail, i, e + 1, k + 3);
      }
    } else {
      EscapeAtEnd(name, tail, k);
    }
  }

  /** An escape that reaches into the delimiter gives no character of at least 16. */
  lemma EscapeAtEnd(name: string, tail: string, k: nat)
    requires k < |name| <= k + 2 && name[k] == '\\' && (k + 1 < |name| ==> name[k + 1] != '\\')
    ensures var w := name[k..] + ([']'] + tail);
      w[1] != '\\' && (|w| >= 3 ==> HexValue(w[1], w[2]) < 16)
  {
    var w := name[k..] + ([']'] + tail);
    if k + 1 == |name| {
      assert w[1] == ']';
    } else {
      assert w[1] == name[k + 1] && w[2] == ']';
    }
  }

  lemma AheadPlain(name: string, tail: string, i: nat, e: nat, k: nat)
    requires i < e < k < |name| && (tail == [] || tail[0] == '[') && !Special(name[k])
    requires forall j :: i < j < k ==> Tame(name[j])
    ensures var r := Select(']', name[k..] + ([']'] + tail)); !(r.Closed? && r.text == name[e..])
    decreases |name| - k, 0
  {
    hide Select;
    var w := name[k..] + ([']'] + tail);
    SelectIs(']', w);
    assert name[e..][1..] == name[e + 1..] && name[e..][0] == name[e];
    Shift(name, k, 1, tail);
    if name[k] == name[e] {
      Ahead(name, tail, i, e + 1, k + 1);
    }
  }

  /** A field with a special character first at its head. */
  lemma SpecialHead(name: string, tail: string)
    requires name != [] && Special(name[0]) && (tail == [] || tail[0] == '[')
    ensures var r := Select(']', name + ([']'] + tail)); !(r.Closed? && r.text == name)
  {
    hide Select, HexValue;
    var w := name + ([']'] + tail);
    assert name[0..] == name;
    SelectIs(']', w);
    assert name[1..] == name[0..][1..];
    if |name| > 1 { assert w[1] == name[1]; } else { assert w[1] == ']'; }
    if |name| > 2 { assert w[2] == name[2]; }
    if name[0] == ']' && |name| == 1 {
      assert w[2..] == tail;
      TailStarts(tail, name[1..]);
    } else if name[0] == w[1] {
      Shift(name, 0, 2, tail);
      Ahead(name, tail, 0, 1, 2);
    } else if name[0] == '\\' && |name| > 2 {
      HexTame(w[1], w[2]);
      if HexValue(w[1], w[2]) >= 16 {
        Shift(name, 0, 3, tail);
        Ahead(name, tail, 0, 1, 3);
      }
    } else if name[0] == '\\' {
      EscapeAtEnd(name, tail, 0);
    }
  }

  lemma {:induction false} NotPlain(name: string, tail: string)
    requires !Plain(name) && (tail == [] || tail[0] == '[')
    ensures var r := Select(']', name + ([']'] + tail)); !(r.Closed? && r.text == name)
    decreases |name|
  {
    var w := name + ([']'] + tail);
    if Special(name[0]) {
      SpecialHead(name, tail);
    } else {
      assert w[0] == name[0] && w[1..] == name[1..] + ([']'] + tail);
      assert name == [name[0]] + name[1..];
      NotPlain(name[1..], tail);
    }
  }

  /** scanemsidat decodes the fields inside IDENT twice, by sel_brace and then by sel_bracket.  The field is what comes out
      exactly if it has no backslash and no closing bracket. */
  lemma {:induction false} TwiceIff(name: string, more: string, tail: string)
    requires (more == [] || more[0] == '[') && Behind('}', tail)
    ensures var once := Select('}', Encode(['['] + name + [']'] + more) + (['}'] + tail));
      && once == Closed(['['] + name + [']'] + more, tail)
      && var twice := Select(']', once.text[Find('[', once.text) + 1..]);
         (twice.Closed? && twice.text == name) <==> Plain(name)
  {
    hide Select, Encode;
    RoundTrip('}', ['['] + name + [']'] + more, tail);
    var text := ['['] + name + [']'] + more;
    assert Find('[', text) == 0;
    assert text[1..] == name + ([']'] + more);
    if Plain(name) {
      PlainSelect(name, more);
    } else {
      NotPlain(name, more);
    }
  }

  // ------------------------------------------------------------------ in place

  /** A string of n characters with its terminator. */
  ghost predicate Terminated(a: array<char>, n: nat)
    reads a
  {
    n < a.Length && a[n] == '\0' && forall k :: 0 <= k < n ==> a[k] != '\0'
  }

  method FindOpen(a: array<char>, n: nat, from: nat, open: char) returns (s: nat)
    requires from <= n < a.Length
    ensures from <= s <= n && s - from == Find(open, a[from..n])
  {
    ghost var all := a[from..n];
    s := from;
    assert all[0..] == all;
    while s < n && a[s] != open
      invariant from <= s <= n && Find(open, all) == s - from + Find(open, all[s - from..])
    {
      assert all[s - from..][1..] == all[s + 1 - from..];
      s := s + 1;
    }
  }

  /** How far one turn of the loop reads, and what it gives; `given` is empty if it ends there. */
  datatype Turn = Turn(given: string, read: nat) | End | Stop

  function OneTurn(close: char, s: string): (t: Turn)
    requires s != []
    ensures t.Turn? ==> |t.given| == 1 && 1 <= t.read <= |s|
  {
    if s[0] == close then (if |s| > 1 && s[1] == close then Turn([close], 2) else End)
    else if s[0] == '\\' then
      if |s| > 1 && s[1] == '\\' then Turn(['\\'], 2)
      else if |s| < 3 || HexValue(s[1], s[2]) < 0 then Stop
      else Turn([HexValue(s[1], s[2]) as char], 3)
    else Turn([s[0]], 1)
  }

  lemma SelectTurn(close: char, done: string, s: string)
    requires s != []
    ensures var t := OneTurn(close, s);
      Onto(done, Select(close, s)) == if t.Turn? then Onto(done + t.given, Select(close, s[t.read..]))
                                      else if t.End? then Closed(done, s[1..])
                                      else Malformed
  {
    hide Select, HexValue;
    SelectIs(close, s);
    var t := OneTurn(close, s);
    if t.Turn? {
      OntoOne(done, t.given[0], Select(close, s[t.read..]));
      assert t.given == [t.given[0]];
    } else {
      assert done + [] == done;
    }
  }

  /** sel_brace and sel_bracket on the string itself: the field is written over what it was read from, nothing behind the
      reader is touched, and `save` is where the next call starts. */
  method SelectInPlace(a: array<char>, n: nat, from: nat, open: char, close: char) returns (found: bool, s: nat, e: nat, save: nat)
    requires Terminated(a, n) && from <= n && Delimiters(open, close)
    modifies a
    ensures found <==> Find(open, old(a[from..n])) < n - from && Select(close, old(a[from..n])[Find(open, old(a[from..n])) + 1..]).Closed?
    ensures found ==>
      var r := Select(close, old(a[from..n])[Find(open, old(a[from..n])) + 1..]);
      && from < s <= e < save <= n && a[s..e] == r.text && a[e] == '\0' && old(a[save..n]) == r.rest
    ensures from <= s && save <= n && forall k :: 0 <= k < a.Length && (k < s || k >= save) ==> a[k] == old(a[k])
  {
    s := FindOpen(a, n, from, open);
    if s == n { return false, s, s, n; }
    s := s + 1;
    assert old(a[from..n])[s - from..] == old(a[s..n]);
    found, e, save := SelectFrom(a, n, s, close);
  }

  method SelectFrom(a: array<char>, n: nat, s: nat, close: char) returns (found: bool, e: nat, save: nat)
    requires s <= n < a.Length
    modifies a
    ensures var r := Select(close, old(a[s..n]));
      && (found <==> r.Closed?)
      && (found ==> s <= e < save <= n && a[s..e] == r.text && a[e] == '\0' && old(a[save..n]) == r.rest)
    ensures save <= n && forall k :: 0 <= k < a.Length && (k < s || k >= save) ==> a[k] == old(a[k])
  {
    hide Select, HexValue, OneTurn, Onto;
    var p, q := s, s;
    e := s;
    save := n;
    ghost var field := a[s..n];
    ghost var given := [];
    OntoNothing(Select(close, field));
    while p < n
      invariant s <= q <= p <= n && save == n && a[s..q] == given
      invariant forall k :: q <= k < a.Length ==> a[k] == old(a[k])
      invariant forall k :: 0 <= k < s ==> a[k] == old(a[k])
      invariant Select(close, field) == Onto(given, Select(close, field[p - s..]))
      decreases n - p
    {
      assert field[p - s..] == a[p..n];
      SelectTurn(close, given, field[p - s..]);
      var t := Step(a, n, p, close);
      if t.Stop? { return false, q, n; }
      if t.End? {
        Give(a, s, q, '\0');
        return true, q, p + 1;
      }
      Give(a, s, q, t.given[0]);
      assert t.given == [t.given[0]] && field[p - s..][t.read..] == field[p + t.read - s..];
      given := given + t.given;
      q := q + 1;
      p := p + t.read;
    }
    assert field[p - s..] == [];
    SelectNone(close);
    OntoNone(given);
    found := false;
    e := q;
  }

  method Give(a: array<char>, s: nat, q: nat, c: char)
    requires s <= q < a.Length
    modifies a
    ensures a[s..q] == old(a[s..q]) && a[q] == c && a[s..q + 1] == old(a[s..q]) + [c]
    ensures forall k :: 0 <= k < a.Length && k != q ==> a[k] == old(a[k])
  {
    a[q] := c;
  }

  /** The switch of the loop. */
  method Step(a: array<char>, n: nat, p: nat, close: char) returns (t: Turn)
    requires p < n < a.Length
    ensures t == OneTurn(close, a[p..n])
  {
    var c := a[p];
    if c == close {
      return if p + 1 < n && a[p + 1] == close then Turn([c], 2) else End;
    }
    if c == '\\' {
      if p + 1 < n && a[p + 1] == '\\' { return Turn([c], 2); }
      if p + 2 >= n || HexValue(a[p + 1], a[p + 2]) < 0 { return Stop; }
      return Turn([HexValue(a[p + 1], a[p + 2]) as char], 3);
    }
    return Turn([c], 1);
  }

  lemma SelectNone(close: char)
    ensures Select(close, []) == Unclosed
  {
  }

  lemma OntoNone(given: string)
    ensures Onto(given, Unclosed) == Unclosed
  {
  }

  lemma OntoNothing(r: Selected)
    ensures Onto([], r) == r
  {
    if r.Closed? { assert [] + r.text == r.text; }
  }

  /** A result behind what was given before. */
  function Onto(done: string, r: Selected): Selected {
    if r.Closed? then r.(text := done + r.text) else r
  }

  lemma OntoOne(done: string, c: char, r: Selected)
    ensures Onto(done, Prepend(c, r)) == Onto(done + [c], r)
    ensures r.Closed? && r.text == [] ==> Onto(done, r).Closed? && Onto(done, r).text == done
  {
    if r.Closed? {
      assert done + ([c] + r.text) == done + [c] + r.text;
    }
  }
}
