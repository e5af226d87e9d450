/** What check_flo makes of a file that is given line by line. */
module FloLines {
  import opened Flo

  /** A line: its text, and whether a carriage return stands before the line feed. */
  datatype Row = Row(text: string, cr: bool)

  function Written(r: Row): string {
    r.text + (if r.cr then ['\r'] else []) + ['\n']
  }

  function Joined(rows: seq<Row>): string
    decreases |rows|
  {
    if rows == [] then [] else Written(rows[0]) + Joined(rows[1..])
  }

  /** Every line that fgets reads in one piece can be given so in one way. */
  predicate IsRow(r: Row) {
    && '\n' !in r.text
    && |Written(r)| <= LIMIT
    && (!r.cr && r.text != [] ==> r.text[|r.text| - 1] != '\r')
  }

  predicate AllRows(rows: seq<Row>) {
    forall r :: r in rows ==> IsRow(r)
  }

  /** Neither blank nor sent. */
  predicate ToSend(r: Row) {
    r.text != [] && r.text[0] != '~'
  }

  /** The lines to send, each with the offset at which it starts. */
  function Unsent(rows: seq<Row>, off: nat): seq<(string, nat)>
    decreases |rows|
  {
    if rows == [] then [] else
    (if ToSend(rows[0]) then [(rows[0].text, off)] else []) + Unsent(rows[1..], off + |Written(rows[0])|)
  }

  predicate SameLetter(a: char, b: char) {
    || a == b
    || ('A' <= a <= 'Z' && b as int == a as int + 32)
    || ('A' <= b <= 'Z' && a as int == b as int + 32)
  }

  /** The path is under CFG.dospath, in capitals or not. */
  predicate UnderDos(c: Config, p: string) {
    && c.dospath != [] && |c.dospath| <= |p|
    && forall i :: 0 <= i < |c.dospath| ==> SameLetter(c.dospath[i], p[i])
  }

  /** A character of the path as it is taken over. */
  predicate Turned(a: char, b: char) {
    if a == '\\' then b == '/' else if 'A' <= a <= 'Z' then b as int == a as int + 32 else b == a
  }

  predicate Translates(c: Config, p: string, local: string) {
    && |local| + |c.dospath| == |c.outbound| + |p|
    && c.outbound <= local
    && forall i :: |c.dospath| <= i < |p| ==> Turned(p[i], local[i - |c.dospath| + |c.outbound|])
  }

  /** The longest tail without a slash. */
  predicate LongestTail(p: string, tail: string) {
    && |tail| <= |p| && p[|p| - |tail|..] == tail
    && '/' !in tail
    && (|tail| < |p| ==> p[|p| - |tail| - 1] == '/')
  }

  predicate Marked(text: string)
    requires text != []
  {
    text[0] == '#' || text[0] == '-' || text[0] == '^' || text[0] == '@'
  }

  /** The entry that a line stands for. */
  predicate StandsFor(c: Config, text: string, off: nat, e: Entry) {
    text != [] &&
    var p := if Marked(text) then text[1..] else text;
    && e.floff == off
    && (e.disposition == KFS <==> text[0] == '-' || text[0] == '^')
    && (e.disposition == TFS <==> text[0] == '#')
    && (if UnderDos(c, p) then Translates(c, p, e.local) else e.local == p)
    && LongestTail(e.local, e.remote)
  }

  lemma {:induction false} LowerLetters(a: string, b: string)
    requires |a| == |b|
    ensures LowerAll(a) == LowerAll(b) <==> forall i :: 0 <= i < |a| ==> SameLetter(a[i], b[i])
    decreases |a|
  {
    if a != [] {
      LowerLetters(a[1..], b[1..]);
      assert Lower(a[0]) == Lower(b[0]) <==> SameLetter(a[0], b[0]);
      assert LowerAll(a)[0] == Lower(a[0]) && LowerAll(a)[1..] == LowerAll(a[1..]);
      assert LowerAll(b)[0] == Lower(b[0]) && LowerAll(b)[1..] == LowerAll(b[1..]);
      if forall i :: 0 <= i < |a| ==> SameLetter(a[i], b[i]) {
        forall i | 0 <= i < |a[1..]| ensures SameLetter(a[1..][i], b[1..][i]) {
          assert SameLetter(a[i + 1], b[i + 1]);
        }
      } else if forall i :: 0 <= i < |a[1..]| ==> SameLetter(a[1..][i], b[1..][i]) {
        forall i | 0 < i < |a| ensures SameLetter(a[i], b[i]) {
          assert SameLetter(a[1..][i - 1], b[1..][i - 1]);
        }
      }
    }
  }

  lemma {:induction false} SlashedTurned(s: string)
    ensures |Slashed(s)| == |s| && forall i :: 0 <= i < |s| ==> Turned(s[i], Slashed(s)[i])
    decreases |s|
  {
    if s != [] {
      SlashedTurned(s[1..]);
    }
  }

  lemma TranslatedIs(c: Config, p: string)
    ensures if UnderDos(c, p) then Translates(c, p, Translated(c, p)) else Translated(c, p) == p
  {
    if c.dospath != [] && |c.dospath| <= |p| {
      LowerLetters(c.dospath, p[..|c.dospath|]);
      assert UnderDos(c, p) <==> LowerAll(p[..|c.dospath|]) == LowerAll(c.dospath);
      SlashedTurned(p[|c.dospath|..]);
    }
  }

  lemma {:induction false} BaseNameTail(p: string)
    ensures LongestTail(p, BaseName(p))
    decreases |p|
  {
    if p != [] && p[|p| - 1] != '/' {
      var front, k := p[..|p| - 1], |BaseName(p[..|p| - 1])|;
      BaseNameTail(front);
      assert BaseName(p) == BaseName(front) + [p[|p| - 1]];
      assert p[|p| - k - 1..] == front[|front| - k..] + [p[|p| - 1]];
    }
  }

  /** fgets stops behind the first line feed, when the buffer is full, or at the end of the file, whichever comes first. */
  lemma {:induction false} ReadsUpTo(f: string, n: nat)
    ensures var k := LenUpTo(f, n);
      && k <= n && k <= |f|
      && (forall j :: 0 <= j < k - 1 ==> f[j] != '\n')
      && (k == n || k == |f| || (k > 0 && f[k - 1] == '\n'))
    decreases n
  {
    if f != [] && n > 0 && f[0] != '\n' {
      ReadsUpTo(f[1..], n - 1);
      var k := LenUpTo(f[1..], n - 1);
      forall j | 0 < j < k ensures f[j] != '\n' {
        assert f[1..][j - 1] != '\n';
      }
    }
  }

  /** fgets reads the line, and its end is taken off. */
  lemma RowRead(r: Row, rest: string)
    requires IsRow(r)
    ensures Len(Written(r) + rest) == |Written(r)| && Stripped(Written(r)) == r.text
  {
    hide LenUpTo;
    var w := Written(r);
    ReadsUpTo(w + rest, LIMIT);
    assert forall j :: 0 <= j < |w| - 1 ==> (w + rest)[j] != '\n';
    assert (w + rest)[|w| - 1] == '\n';
    assert w[..|w| - 1] == r.text + (if r.cr then ['\r'] else []);
    if r.cr {
      assert w[..|w| - 1][..|r.text|] == r.text;
    } else {
      assert r.text + [] == r.text;
    }
  }

  lemma ParsedLine(c: Config, line: string, off: nat)
    requires Stripped(line) != []
    ensures StandsFor(c, Stripped(line), off, ParseLine(c, line, off))
  {
    hide Translated, BaseName, Stripped, UnderDos, Translates, LongestTail;
    var text := Stripped(line);
    var p := if Marked(text) then text[1..] else text;
    TranslatedIs(c, p);
    BaseNameTail(Translated(c, p));
  }

  /** The entries are those of the lines, one for each, in order. */
  predicate Listing(c: Config, ls: seq<(string, nat)>, es: seq<Entry>) {
    |es| == |ls| && forall i :: 0 <= i < |ls| ==> StandsFor(c, ls[i].0, ls[i].1, es[i])
  }

  lemma ListingMore(c: Config, a: seq<(string, nat)>, b: seq<(string, nat)>, x: seq<Entry>, y: seq<Entry>)
    requires Listing(c, a, x) && Listing(c, b, y)
    ensures Listing(c, a + b, x + y)
  {
    hide StandsFor;
  }

  lemma RowEntry(c: Config, r: Row, off: nat)
    requires IsRow(r)
    ensures Listing(c, if ToSend(r) then [(r.text, off)] else [], LineEntry(c, Written(r), off))
  {
    hide Len, LenUpTo, Joined, StandsFor, Stripped, ParseLine;
    RowRead(r, []);
    if ToSend(r) { ParsedLine(c, Written(r), off); }
  }

  /** check_flo on any list of lines: one entry for each line that is neither blank nor sent, in order, with the offset of its line. */
  lemma {:induction false} ListedLines(c: Config, rows: seq<Row>, off: nat)
    requires AllRows(rows)
    ensures Listing(c, Unsent(rows, off), Entries(c, Joined(rows), off))
    decreases |rows|
  {
    hide LineEntry, Len, LenUpTo, Listing;
    if rows == [] {
      ListingNone(c);
    } else {
      hide IsRow, ToSend, Written, Entries, Joined;
      var off1 := off + |Written(rows[0])|;
      RowSplit(rows, off, c);
      RowEntry(c, rows[0], off);
      ListedLines(c, rows[1..], off1);
      var first := if ToSend(rows[0]) then [(rows[0].text, off)] else [];
      assert Unsent(rows, off) == first + Unsent(rows[1..], off1);
      ListingMore(c, first, Unsent(rows[1..], off1), LineEntry(c, Written(rows[0]), off), Entries(c, Joined(rows[1..]), off1));
    }
  }

  lemma ListingNone(c: Config)
    ensures Listing(c, [], [])
  {
  }

  lemma RowSplit(rows: seq<Row>, off: nat, c: Config)
    requires AllRows(rows) && rows != []
    ensures IsRow(rows[0]) && AllRows(rows[1..])
    ensures var w, rest := Written(rows[0]), Joined(rows[1..]);
      Entries(c, Joined(rows), off) == LineEntry(c, w, off) + Entries(c, rest, off + |w|)
  {
    hide LineEntry, Len, IsRow, Entries;
    var w, rest := Written(rows[0]), Joined(rows[1..]);
    assert rows[0] in rows;
    RowRead(rows[0], rest);
    assert (w + rest)[..|w|] == w && (w + rest)[|w|..] == rest;
    EntriesNext(c, w + rest, off);
  }

  /** If every line is to be sent there is an entry for each, and the bytes of the file at its offset are its line. */
  lemma {:induction false} EveryLine(c: Config, rows: seq<Row>, i: nat)
    requires AllRows(rows) && i < |rows| && forall r :: r in rows ==> ToSend(r)
    ensures var f := Joined(rows);
      && |Entries(c, f, 0)| == |rows|
      && StandsFor(c, rows[i].text, |Joined(rows[..i])|, Entries(c, f, 0)[i])
      && Joined(rows[..i]) + Written(rows[i]) <= f
  {
    hide StandsFor, Unsent, Entries, Joined, Written, ToSend, IsRow;
    ListedLines(c, rows, 0);
    UnsentAll(rows, 0, i);
    UnsentCount(rows, 0);
  }

  lemma {:induction false} UnsentAll(rows: seq<Row>, off: nat, i: nat)
    requires i < |rows| && forall r :: r in rows ==> ToSend(r)
    ensures i < |Unsent(rows, off)| && Unsent(rows, off)[i] == (rows[i].text, off + |Joined(rows[..i])|)
    ensures Joined(rows[..i]) + Written(rows[i]) <= Joined(rows)
    decreases |rows|
  {
    hide ToSend, Written;
    var w := Written(rows[0]);
    assert ToSend(rows[0]) by { assert rows[0] in rows; }
    if i > 0 {
      forall r | r in rows[1..] ensures ToSend(r) { assert r in rows; }
      UnsentAll(rows[1..], off + |w|, i - 1);
      assert rows[..i][1..] == rows[1..][..i - 1];
      assert Joined(rows[..i]) == w + Joined(rows[1..][..i - 1]);
      assert Joined(rows[..i]) + Written(rows[i]) == w + (Joined(rows[1..][..i - 1]) + Written(rows[1..][i - 1]));
    } else {
      assert Joined(rows[..0]) == [];
      assert [] + w == w;
    }
  }

  lemma {:induction false} UnsentCount(rows: seq<Row>, off: nat)
    requires forall r :: r in rows ==> ToSend(r)
    ensures |Unsent(rows, off)| == |rows|
    decreases |rows|
  {
    if rows != [] {
      hide ToSend, Written;
      assert rows[0] in rows;
      forall r | r in rows[1..] ensures ToSend(r) { assert r in rows; }
      UnsentCount(rows[1..], off + |Written(rows[0])|);
    }
  }
}
