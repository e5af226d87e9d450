/** The .flo file of a link: check_flo and the marking half of execute_disposition in filelist.c. */
module Flo {

  /** fgets of a PATH_MAX buffer less one: so many characters at most. */
  const LIMIT: nat := 4094

  datatype Disposition = LEAVE | TFS | KFS

  /** CFG.dospath and the outbound it stands for. */
  datatype Config = Config(dospath: string, outbound: string)

  /** What add_list is given: local and remote name, disposition, offset of the line. */
  datatype Entry = Entry(local: string, remote: string, disposition: Disposition, floff: nat)

  // ------------------------------------------------------------------ lines

  function LenUpTo(f: string, n: nat): (r: nat)
    ensures r <= |f| && r <= n && (f != [] && n > 0 ==> r > 0)
    decreases n
  {
    if f == [] || n == 0 then 0 else if f[0] == '\n' then 1 else 1 + LenUpTo(f[1..], n - 1)
  }

  /** The length of what fgets reads next. */
  function Len(f: string): (r: nat)
    ensures r <= |f| && (f != [] ==> r > 0)
  {
    LenUpTo(f, LIMIT)
  }

  /** Without the line feed, and without a carriage return before it. */
  function Stripped(line: string): string {
    var a := if line != [] && line[|line| - 1] == '\n' then line[..|line| - 1] else line;
    if a != [] && a[|a| - 1] == '\r' then a[..|a| - 1] else a
  }

  predicate Sent(line: string) {
    line != [] && line[0] == '~'
  }

  predicate Blank(line: string) {
    !Sent(line) && Stripped(line) == []
  }

  function Lower(c: char): char {
    if 'A' <= c <= 'Z' then (c as int + 32) as char else c
  }

  function LowerAll(s: string): string
    decreases |s|
  {
    if s == [] then [] else [Lower(s[0])] + LowerAll(s[1..])
  }

  /** Backslashes turned, the rest in lower case. */
  function Slashed(s: string): string
    decreases |s|
  {
    if s == [] then [] else [if s[0] == '\\' then '/' else Lower(s[0])] + Slashed(s[1..])
  }

  /** A path under CFG.dospath, whatever its case, is one under the outbound. */
  function Translated(c: Config, p: string): string {
    if c.dospath != [] && |c.dospath| <= |p| && LowerAll(p[..|c.dospath|]) == LowerAll(c.dospath)
    then c.outbound + Slashed(p[|c.dospath|..]) else p
  }

  /** What follows the last slash. */
  function BaseName(p: string): string
    decreases |p|
  {
    if p == [] || p[|p| - 1] == '/' then [] else BaseName(p[..|p| - 1]) + [p[|p| - 1]]
  }

  function ParseLine(c: Config, line: string, off: nat): Entry
    requires Stripped(line) != []
  {
    var s := Stripped(line);
    var d := if s[0] == '#' then TFS else if s[0] == '-' || s[0] == '^' then KFS else LEAVE;
    var p := Translated(c, if s[0] == '#' || s[0] == '-' || s[0] == '^' || s[0] == '@' then s[1..] else s);
    Entry(p, BaseName(p), d, off)
  }

  function LineEntry(c: Config, line: string, off: nat): seq<Entry> {
    if Sent(line) || Blank(line) then [] else [ParseLine(c, line, off)]
  }

  /** The entries check_flo adds for the rest f of a file, which begins at off. */
  function Entries(c: Config, f: string, off: nat): seq<Entry>
    decreases |f|
  {
    if f == [] then [] else
    var n := Len(f);
    LineEntry(c, f[..n], off) + Entries(c, f[n..], off + n)
  }

  /** The count execute_disposition makes before it decides over the file itself. */
  function Remaining(f: string): nat
    decreases |f|
  {
    if f == [] then 0 else (if f[0] != '~' then 1 else 0) + Remaining(f[Len(f)..])
  }

  function Blanks(f: string): nat
    decreases |f|
  {
    if f == [] then 0 else (if Blank(f[..Len(f)]) then 1 else 0) + Blanks(f[Len(f)..])
  }

  // ------------------------------------------------------------------ marking

  /** One byte of the file overwritten. */
  function Mark(f: string, off: nat): string {
    if off < |f| then f[off := '~'] else f
  }

  function Without(es: seq<Entry>, off: nat): seq<Entry>
    decreases |es|
  {
    if es == [] then [] else (if es[0].floff == off then [] else [es[0]]) + Without(es[1..], off)
  }

  /** A line that can be marked, or has been, starts at off. */
  predicate Starts(f: string, base: nat, off: nat)
    decreases |f|
  {
    f != [] && (var n := Len(f); if off == base then !Blank(f[..n]) else Starts(f[n..], base + n, off))
  }

  lemma {:induction false} LenSame(f: string, n: nat, i: nat)
    requires i < |f| && f[i] != '\n'
    ensures LenUpTo(f[i := '~'], n) == LenUpTo(f, n)
    decreases n
  {
    if n > 0 {
      if i > 0 && f[0] != '\n' {
        assert f[i := '~'][1..] == f[1..][i - 1 := '~'];
        LenSame(f[1..], n - 1, i - 1);
      } else if i == 0 {
        assert f[0 := '~'][1..] == f[1..];
      }
    }
  }

  lemma {:induction false} OffsetsFrom(c: Config, f: string, base: nat)
    ensures forall e :: e in Entries(c, f, base) ==> base <= e.floff < base + |f|
    decreases |f|
  {
    if f != [] {
      OffsetsFrom(c, f[Len(f)..], base + Len(f));
    }
  }

  lemma {:induction false} WithoutNone(es: seq<Entry>, off: nat)
    requires forall e :: e in es ==> e.floff != off
    ensures Without(es, off) == es
    decreases |es|
  {
    if es != [] {
      WithoutNone(es[1..], off);
      assert es == [es[0]] + es[1..];
    }
  }

  lemma FeedIsBlank(f: string)
    requires f != [] && f[0] == '\n'
    ensures Blank(f[..Len(f)])
  {
    assert f[..Len(f)] == ['\n'];
  }

  lemma {:induction false} StartsFrom(f: string, base: nat, off: nat)
    requires Starts(f, base, off)
    ensures base <= off < base + |f| && f[off - base] != '\n'
    decreases |f|
  {
    hide Len, Blank;
    if off == base {
      if f[0] == '\n' { FeedIsBlank(f); }
    } else {
      StartsFrom(f[Len(f)..], base + Len(f), off);
    }
  }

  /** The line at the head of a marked file, and what follows it. */
  lemma MarkSplits(f: string, base: nat, off: nat)
    requires base <= off && Starts(f, base, off)
    ensures var g, n := Mark(f, off - base), Len(f);
      && g != [] && Len(g) == n
      && (if off == base then Sent(g[..n]) && g[n..] == f[n..]
          else off >= base + n && Starts(f[n..], base + n, off) && g[..n] == f[..n] && g[n..] == Mark(f[n..], off - base - n))
  {
    hide Blank, LenUpTo;
    StartsFrom(f, base, off);
    var i, n := off - base, Len(f);
    LenSame(f, LIMIT, i);
    var g := f[i := '~'];
    if off == base {
      assert g[..n][0] == '~' && g[n..] == f[n..];
    } else {
      StartsFrom(f[n..], base + n, off);
      assert g[..n] == f[..n] && g[n..] == f[n..][i - n := '~'];
    }
  }

  lemma {:induction false} MarkEntries(c: Config, f: string, base: nat, off: nat)
    requires base <= off && Starts(f, base, off)
    ensures Entries(c, Mark(f, off - base), base) == Without(Entries(c, f, base), off)
    decreases |f|
  {
    hide Mark, Len, ParseLine, Blank, Starts, Without;
    MarkSplits(f, base, off);
    var n := Len(f);
    WithoutHead(LineEntry(c, f[..n], base), Entries(c, f[n..], base + n), off);
    LineOffset(c, f[..n], base);
    if off == base {
      OffsetsFrom(c, f[n..], base + n);
      WithoutNone(Entries(c, f[n..], base + n), off);
    } else {
      MarkEntries(c, f[n..], base + n, off);
    }
  }

  lemma LineOffset(c: Config, line: string, off: nat)
    ensures |LineEntry(c, line, off)| <= 1 && forall e :: e in LineEntry(c, line, off) ==> e.floff == off
  {
  }

  lemma {:induction false} MarkBlanks(f: string, base: nat, off: nat)
    requires base <= off && Starts(f, base, off)
    ensures Blanks(Mark(f, off - base)) == Blanks(f)
    decreases |f|
  {
    hide Mark, Len;
    MarkSplits(f, base, off);
    if off != base {
      MarkBlanks(f[Len(f)..], base + Len(f), off);
    }
  }

  lemma {:induction false} MarkStarts(f: string, base: nat, off: nat, o: nat)
    requires base <= off && Starts(f, base, off) && Starts(f, base, o)
    ensures Starts(Mark(f, off - base), base, o)
    decreases |f|
  {
    hide Mark, Len;
    MarkSplits(f, base, off);
    if off != base && o != base {
      MarkStarts(f[Len(f)..], base + Len(f), off, o);
    }
  }

  /** Marking an entry at its recorded offset: the list without it, and nothing else changed; marking again changes
      nothing; no line becomes blank or ceases to be; every other line that can be marked stays one. */
  lemma {:induction false} MarkRemoves(c: Config, f: string, off: nat)
    requires Starts(f, 0, off)
    ensures var g := Mark(f, off);
      && Entries(c, g, 0) == Without(Entries(c, f, 0), off)
      && Blanks(g) == Blanks(f) && Mark(g, off) == g
    ensures forall o :: Starts(f, 0, o) ==> Starts(Mark(f, off), 0, o)
  {
    hide Starts, Entries, Blanks, Without;
    MarkEntries(c, f, 0, off);
    MarkBlanks(f, 0, off);
    forall o | Starts(f, 0, o) ensures Starts(Mark(f, off), 0, o) {
      MarkStarts(f, 0, off, o);
    }
  }

  lemma WithoutHead(a: seq<Entry>, b: seq<Entry>, off: nat)
    requires |a| <= 1
    ensures Without(a + b, off) == (if a != [] && a[0].floff == off then [] else a) + Without(b, off)
  {
    if a == [] {
      assert a + b == b;
    } else {
      assert (a + b)[1..] == b;
    }
  }

  // ------------------------------------------------------------------ many marks, many sessions

  function MarkAll(f: string, offs: seq<nat>): string
    decreases |offs|
  {
    if offs == [] then f else MarkAll(Mark(f, offs[0]), offs[1..])
  }

  function WithoutAll(es: seq<Entry>, offs: seq<nat>): seq<Entry>
    decreases |offs|
  {
    if offs == [] then es else WithoutAll(Without(es, offs[0]), offs[1..])
  }

  lemma {:induction false} EntriesStart(c: Config, f: string, base: nat)
    ensures forall e :: e in Entries(c, f, base) ==> Starts(f, base, e.floff)
    decreases |f|
  {
    if f != [] {
      var n := Len(f);
      EntriesStart(c, f[n..], base + n);
      OffsetsFrom(c, f[n..], base + n);
    }
  }

  lemma {:induction false} MarksRemove(c: Config, f: string, offs: seq<nat>)
    requires forall o :: o in offs ==> Starts(f, 0, o)
    ensures var g := MarkAll(f, offs);
      && Entries(c, g, 0) == WithoutAll(Entries(c, f, 0), offs)
      && Blanks(g) == Blanks(f)
    ensures forall o :: Starts(f, 0, o) ==> Starts(MarkAll(f, offs), 0, o)
    decreases |offs|
  {
    if offs != [] {
      hide Entries, Blanks, Starts, Mark;
      assert offs[0] in offs;
      MarkRemoves(c, f, offs[0]);
      forall o | o in offs[1..] ensures Starts(Mark(f, offs[0]), 0, o) {
        assert o in offs && Starts(f, 0, o);
      }
      MarksRemove(c, Mark(f, offs[0]), offs[1..]);
    }
  }

  lemma {:induction false} WithoutIn(es: seq<Entry>, off: nat)
    ensures forall e :: e in Without(es, off) <==> e in es && e.floff != off
    decreases |es|
  {
    if es != [] {
      WithoutIn(es[1..], off);
      assert es == [es[0]] + es[1..];
    }
  }

  lemma {:induction false} WithoutAllIn(es: seq<Entry>, offs: seq<nat>)
    ensures forall e :: e in WithoutAll(es, offs) <==> e in es && e.floff !in offs
    decreases |offs|
  {
    if offs != [] {
      WithoutIn(es, offs[0]);
      WithoutAllIn(Without(es, offs[0]), offs[1..]);
      assert offs == [offs[0]] + offs[1..];
    }
  }

  /** The file is removed exactly if no entry is left on it and no line of it is blank, as these are what is counted. */
  lemma {:induction false} RemovableIff(c: Config, f: string, base: nat)
    ensures Remaining(f) == |Entries(c, f, base)| + Blanks(f)
    ensures Remaining(f) == 0 <==> Entries(c, f, base) == [] && Blanks(f) == 0
    decreases |f|
  {
    hide Len, ParseLine, Stripped;
    if f != [] {
      var n := Len(f);
      RemovableIff(c, f[n..], base + n);
      assert f[..n][0] == f[0];
      LineCounts(c, f[..n], base);
    }
  }

  lemma LineCounts(c: Config, line: string, off: nat)
    requires line != []
    ensures line[0] == '~' <==> LineEntry(c, line, off) == [] && !Blank(line)
    ensures |LineEntry(c, line, off)| == if Sent(line) || Blank(line) then 0 else 1
  {
  }

  /** Sessions one after another, each on the list check_flo makes at its start, each marking the entries at some of its
      places, in any order and as often as it likes, until it breaks off. */
  function Sessions(c: Config, f: string, runs: seq<seq<nat>>): string
    decreases |runs|
  {
    if runs == [] then f else Sessions(c, MarkAll(f, Offsets(Entries(c, f, 0), runs[0])), runs[1..])
  }

  function Offsets(es: seq<Entry>, places: seq<nat>): (r: seq<nat>)
    ensures forall o :: o in r ==> exists e :: e in es && e.floff == o
    decreases |places|
  {
    if places == [] then [] else
    (if places[0] < |es| then
       assert es[places[0]] in es;
       [es[places[0]].floff] else []) + Offsets(es, places[1..])
  }

  lemma {:induction false} SessionsMark(c: Config, f: string, runs: seq<seq<nat>>) returns (offs: seq<nat>)
    ensures Sessions(c, f, runs) == MarkAll(f, offs) && forall o :: o in offs ==> exists e :: e in Entries(c, f, 0) && e.floff == o
    decreases |runs|
  {
    offs := [];
    if runs != [] {
      var now := Offsets(Entries(c, f, 0), runs[0]);
      EntriesStart(c, f, 0);
      MarksRemove(c, f, now);
      WithoutAllIn(Entries(c, f, 0), now);
      var g := MarkAll(f, now);
      var later := SessionsMark(c, g, runs[1..]);
      offs := now + later;
      MarkMore(f, now, later);
    }
  }

  lemma {:induction false} MarkMore(f: string, a: seq<nat>, b: seq<nat>)
    ensures MarkAll(f, a + b) == MarkAll(MarkAll(f, a), b)
    decreases |a|
  {
    if a == [] {
      assert a + b == b;
    } else {
      assert (a + b)[1..] == a[1..] + b;
      MarkMore(Mark(f, a[0]), a[1..], b);
    }
  }

  /** Over any sequence of interrupted sessions: what is left to send is the first list without the entries marked, in
      order and unchanged; and the file may go exactly if all of them are marked and it has no blank line. */
  lemma Conservation(c: Config, f: string, runs: seq<seq<nat>>) returns (offs: seq<nat>)
    ensures var g := Sessions(c, f, runs);
      && (forall o :: o in offs ==> exists e :: e in Entries(c, f, 0) && e.floff == o)
      && Entries(c, g, 0) == WithoutAll(Entries(c, f, 0), offs)
      && (forall e :: e in Entries(c, g, 0) <==> e in Entries(c, f, 0) && e.floff !in offs)
      && (Remaining(g) == 0 <==> Blanks(f) == 0 && forall e :: e in Entries(c, f, 0) ==> e.floff in offs)
  {
    offs := SessionsMark(c, f, runs);
    EntriesStart(c, f, 0);
    MarksRemove(c, f, offs);
    WithoutAllIn(Entries(c, f, 0), offs);
    var g := Sessions(c, f, runs);
    RemovableIff(c, g, 0);
    if Entries(c, g, 0) != [] {
      assert Entries(c, g, 0)[0] in Entries(c, g, 0);
    }
  }

  // ------------------------------------------------------------------ the open file

  lemma LenNext(f: string, n: nat)
    requires n < |f| && n < LIMIT
    ensures LenUpTo(f[n..], LIMIT - n) == if f[n] == '\n' then 1 else 1 + LenUpTo(f[n + 1..], LIMIT - n - 1)
  {
    assert f[n..][1..] == f[n + 1..];
  }

  lemma EntriesNext(c: Config, f: string, off: nat)
    requires f != []
    ensures Entries(c, f, off) == LineEntry(c, f[..Len(f)], off) + Entries(c, f[Len(f)..], off + Len(f))
  {
    hide Len, LineEntry;
  }

  lemma EntriesNone(c: Config, f: string, off: nat)
    requires f == []
    ensures Entries(c, f, off) == []
  {
  }

  lemma LenEnd(f: string, n: nat)
    requires n <= |f| && n <= LIMIT && (n == |f| || n == LIMIT)
    ensures LenUpTo(f[n..], LIMIT - n) == 0
  {
  }

  lemma ListMore(a: seq<Entry>, b: seq<Entry>, d: seq<Entry>)
    ensures a + (b + d) == a + b + d && a + [] == a && [] + d == d
  {
  }

  class FloFile {
    const c: Config
    /** The bytes of the file, overwritten in place, and the position in it. */
    const bytes: array<char>
    var pos: nat

    constructor (c: Config, bytes: array<char>)
      ensures this.c == c && this.bytes == bytes && pos == 0
    {
      this.c, this.bytes, pos := c, bytes, 0;
    }

    /** fgets: the next line or the next part of one, empty at the end of the file. */
    method Gets() returns (line: string)
      requires pos <= bytes.Length
      modifies this`pos
      ensures pos == old(pos) + |line| <= bytes.Length
      ensures line == bytes[old(pos)..][..Len(bytes[old(pos)..])]
    {
      hide LenUpTo;
      var n := 0;
      ghost var f := bytes[pos..];
      var ended := false;
      assert f[0..] == f;
      while !ended && pos + n < bytes.Length && n < LIMIT
        invariant pos == old(pos) && n <= |f| && n <= LIMIT
        invariant Len(f) == if ended then n else n + LenUpTo(f[n..], LIMIT - n)
        decreases |f| - n
      {
        assert f[n] == bytes[pos + n];
        LenNext(f, n);
        ended := bytes[pos + n] == '\n';
        n := n + 1;
      }
      if !ended { LenEnd(f, n); }
      line := bytes[pos..pos + n];
      pos := pos + n;
      assert line == f[..n];
    }

    /** check_flo on the open file. */
    method CheckFlo() returns (list: seq<Entry>)
      modifies this`pos
      ensures list == Entries(c, bytes[..], 0)
    {
      hide Len, ParseLine, Entries, Stripped;
      pos := 0;
      list := [];
      assert bytes[0..] == bytes[..];
      ListMore([], [], Entries(c, bytes[..], 0));
      while pos < bytes.Length
        invariant pos <= bytes.Length
        invariant Entries(c, bytes[..], 0) == list + Entries(c, bytes[pos..], pos)
        decreases bytes.Length - pos
      {
        var off := pos;
        ghost var f := bytes[pos..];
        var buf := Gets();
        assert bytes[pos..] == f[|buf|..];
        EntriesNext(c, f, off);
        ListMore(list, LineEntry(c, buf, off), Entries(c, bytes[pos..], pos));
        if buf[0] != '~' {
          var s := Stripped(buf);
          if s != [] { list := list + [ParseLine(c, buf, off)]; }
        }
      }
      EntriesNone(c, bytes[pos..], pos);
      ListMore(list, [], []);
    }

    /** execute_disposition on an entry: its line is marked. */
    method MarkSent(e: Entry)
      requires e.floff < bytes.Length
      modifies this`pos, bytes
      ensures bytes[..] == Mark(old(bytes[..]), e.floff)
    {
      pos := e.floff;
      bytes[pos] := '~';
      pos := pos + 1;
    }

    /** execute_disposition on the file itself: it may be removed if nothing remains. */
    method FilesRemain() returns (count: nat)
      modifies this`pos
      ensures count == Remaining(bytes[..])
    {
      pos := 0;
      count := 0;
      assert bytes[0..] == bytes[..];
      while pos < bytes.Length
        invariant pos <= bytes.Length && Remaining(bytes[..]) == count + Remaining(bytes[pos..])
        decreases bytes.Length - pos
      {
        ghost var f := bytes[pos..];
        var buf := Gets();
        assert bytes[pos..] == f[|buf|..];
        if buf[0] != '~' { count := count + 1; }
      }
    }

    /** A session: the list is made, the entries at some places are acknowledged and marked, and the file is looked at
        for removal. */
    method Session(places: seq<nat>) returns (removable: bool)
      modifies this`pos, bytes
      ensures bytes[..] == Sessions(c, old(bytes[..]), [places])
      ensures removable <==> Entries(c, bytes[..], 0) == [] && Blanks(bytes[..]) == 0
    {
      hide Entries, Blanks, Mark, Offsets;
      var list := CheckFlo();
      ghost var f := bytes[..];
      OffsetsFrom(c, f, 0);
      var i := 0;
      assert places[0..] == places;
      while i < |places|
        invariant 0 <= i <= |places|
        invariant MarkAll(f, Offsets(list, places)) == MarkAll(bytes[..], Offsets(list, places[i..]))
      {
        NextPlace(bytes[..], list, places[i..]);
        assert places[i..][1..] == places[i + 1..];
        if places[i] < |list| {
          assert list[places[i]] in list;
          MarkSent(list[places[i]]);
        }
        i := i + 1;
      }
      NoPlaces(bytes[..], list);
      assert [places][1..] == [];
      var count := FilesRemain();
      RemovableIff(c, bytes[..], 0);
      removable := count == 0;
    }
  }

  lemma NextPlace(f: string, list: seq<Entry>, places: seq<nat>)
    requires places != []
    ensures MarkAll(f, Offsets(list, places))
         == MarkAll(if places[0] < |list| then Mark(f, list[places[0]].floff) else f, Offsets(list, places[1..]))
  {
    hide Mark;
    var rest := Offsets(list, places[1..]);
    if places[0] < |list| {
      assert Offsets(list, places) == [list[places[0]].floff] + rest;
      assert ([list[places[0]].floff] + rest)[1..] == rest;
    } else {
      assert [] + rest == rest;
    }
  }

  lemma NoPlaces(f: string, list: seq<Entry>)
    ensures MarkAll(f, Offsets(list, [])) == f
  {
  }
}
