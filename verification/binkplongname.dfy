/** An M_FILE line that is too long for its receiver: what is answered, and what its sender makes of the answer. */
module BinkpLongName {
  import opened Common
  import opened Names
  import opened BinkpFinish
  import opened BinkpClean
  import Resume = BinkpResume

  /** snprintf into n characters and a terminator. */
  function Cut(n: nat, s: string): (r: string)
    ensures |r| <= n && (|s| <= n ==> r == s)
  {
    if |s| <= n then s else s[..n]
  }

  /** The arguments of M_FILE as binkp_send_command sends them. */
  function Sent(f: FileInfo): string {
    Cut(1023, Print(f))
  }

  /** RxAccF: a line of 512 or more, with its command, opens nothing; others go on to the file. */
  function TakeFile(c: Resume.Config, r: Resume.Receiver, line: string, opens: bool): Resume.Receiver {
    match Parse(line)
    case TooLong => r.(rx := Resume.RxWaitF)
    case Parsed(info) => Resume.AcceptFile(c, r, info.offset, opens).0
    case TooShort => r
  }

  /** What is answered to a line that is too long: the line again, as the format of a printf without arguments.  With a '%' in
      it that can be anything. */
  predicate Echoes(line: string, answer: string) {
    '%' !in line ==> answer == Cut(1023, line)
  }

  /** MM_GOT in binkp_process_messages: the name is cut to its buffer. */
  function GotMessage(answer: string): Message {
    var t := Tokens(answer);
    if |t| < 3 then MShort else MGot(Cut(511, t[0]), Atoi(0, t[1]), Atoi(0, t[2]))
  }

  function About(f: FileInfo): Message {
    MGot(f.name, f.size, f.date)
  }

  /** Whatever is echoed, entry i becomes Got and is disposed of. */
  ghost predicate BoundToBeGot(n: Node, i: nat, f: FileInfo)
    requires i < |n.bll|
  {
    forall a: string :: Echoes(Sent(f), a) ==>
      var t := OnMessage(n, GotMessage(a));
      |t.bll| == |n.bll| && t.bll[i].state == Got && n.bll[i].id in t.h.disposed
  }

  lemma {:induction false} DecimalLength(n: nat, k: nat, bound: nat)
    requires k > 0 && n < bound && bound == Power10(k)
    ensures |Decimal(n)| <= k
    decreases k
  {
    if n >= 10 {
      assert k > 1;
      DecimalLength(n / 10, k - 1, Power10(k - 1));
    }
  }

  function Power10(k: nat): nat {
    if k == 0 then 1 else 10 * Power10(k - 1)
  }

  lemma TenDigits(n: nat)
    requires n < 0x8000_0000
    ensures |Decimal(n)| <= 10
  {
    assert Power10(5) == 100_000 && Power10(10) == 10_000_000_000 by {
      assert Power10(4) == 10_000 && Power10(7) == 10_000_000;
    }
    DecimalLength(n, 10, Power10(10));
  }

  /** A name below 512 characters leaves the line uncut. */
  lemma SentWhole(f: FileInfo)
    requires |f.name| < 512 && Option3(f.option) && Fits(f)
    ensures Sent(f) == Print(f) && Cut(1023, Sent(f)) == Sent(f)
  {
    hide Decimal;
    TenDigits(f.size);
    TenDigits(f.date);
    TenDigits(f.offset);
  }

  lemma NoPercent(f: FileInfo)
    requires Option3(f.option) && '%' !in f.name
    ensures '%' !in Print(f)
  {
    DecimalDigits(f.size);
    DecimalDigits(f.date);
    DecimalDigits(f.offset);
    hide Decimal;
    assert forall n: nat :: n == f.size || n == f.date || n == f.offset ==> '%' !in Decimal(n);
  }

  /** The line comes back as it was, and names the file. */
  lemma EchoNames(f: FileInfo, a: string)
    requires f.name != [] && Unbroken(f.name) && |f.name| < 512 && '%' !in f.name && Option3(f.option) && Fits(f)
    requires Echoes(Sent(f), a)
    ensures GotMessage(a) == About(f)
  {
    hide Tokens, Decimal, Atoi, Print;
    SentWhole(f);
    NoPercent(f);
    TokensPrinted(f);
    AtoiDecimal(f.size);
    AtoiDecimal(f.date);
  }

  /** The entry is Sending, but no file is open. */
  predicate Abandoned(n: Node, i: nat)
    requires i < |n.bll|
  {
    n.bll[i].state == Sending && !n.fp.tx
  }

  lemma AbandonedDies(n: Node, i: nat, f: FileInfo)
    requires n.ft != Crashed && i < |n.bll| && Index(n.bll, About(f), 0) == i && Abandoned(n, i)
    ensures OnMessage(n, About(f)) == n.(ft := Crashed)
  {
  }

  lemma AnsweredGot(n: Node, i: nat, f: FileInfo)
    requires n.ft != Crashed && i < |n.bll| && Index(n.bll, About(f), 0) == i && !Abandoned(n, i)
    ensures var t := OnMessage(n, About(f)); |t.bll| == |n.bll| && t.bll[i].state == Got && n.bll[i].id in t.h.disposed
  {
  }

  /** A message that is not about entry i does nothing to it. */
  lemma OtherName(n: Node, i: nat, m: Message)
    requires i < |n.bll| && m.MGot? && m.name != n.bll[i].id.remote
    ensures var t := OnMessage(n, m); |t.bll| == |n.bll| && t.bll[i] == n.bll[i]
  {
    var j := Index(n.bll, m, 0);
    assert j != i;
    hide SameLocal, Index, Means;
    if j >= 0 { assert Refuses(n, j).bll == n.bll; }
  }

  lemma {:induction false} TokenCut(s: string, k: nat)
    ensures forall t :: t in Tokens(s) ==> Unbroken(Cut(k, t))
  {
    hide Tokens;
    TokensUnbroken(s);
    forall t | t in Tokens(s) ensures Unbroken(Cut(k, t)) {
      forall c | c in Cut(k, t) ensures !Blank(c) {
        assert c in t;
      }
    }
  }

  /** An echo that leaves the entry alone. */
  lemma OtherwiseNot(n: Node, i: nat, f: FileInfo) returns (a: string)
    requires n.ft != Crashed && i < |n.bll| && Means(About(f), n.bll[i].id) && n.bll[i].state != Got
    requires !(|f.name| < 512 && '%' !in f.name && Unbroken(f.name)) && f.name != []
    requires |f.name| < 512 && '%' in f.name ==> '%' in Sent(f)
    ensures Echoes(Sent(f), a) && OnMessage(n, GotMessage(a)).bll[i].state != Got
  {
    hide Tokens, Print, OnMessage;
    if '%' in Sent(f) {
      a := [];
      NoTokens();
      NoArguments(n);
    } else {
      a := Cut(1023, Sent(f));
      TokenCut(a, 511);
      var t, m := Tokens(a), GotMessage(a);
      if m.MShort? {
        NoArguments(n);
      } else {
        assert t[0] in t && m.name == Cut(511, t[0]);
        OtherName(n, i, m);
      }
    }
  }

  lemma NoArguments(n: Node)
    ensures OnMessage(n, MShort).bll == n.bll
  {
  }

  lemma NoTokens()
    ensures Tokens([]) == []
  {
  }

  lemma PercentSent(f: FileInfo)
    requires |f.name| < 512 && '%' in f.name
    ensures '%' in Sent(f)
  {
    var k :| 0 <= k < |f.name| && f.name[k] == '%';
    assert Print(f)[k] == '%';
    assert Sent(f)[k] == '%';
  }

  /** An M_FILE line that is too long: its receiver opens nothing and answers with the line.  The sender then takes the file
      for received, and disposes of it, whatever is echoed, exactly if the name is one token of less than 512 characters
      without a '%', and the entry is not Sending with no file open. */
  lemma {:induction false} LongLineGotIff(n: Node, i: nat, f: FileInfo, c: Resume.Config, r: Resume.Receiver, opens: bool)
    requires n.ft != Crashed && i < |n.bll| && Index(n.bll, About(f), 0) == i && n.bll[i].state != Got
    requires f.name != [] && Option3(f.option) && Fits(f) && 1 + |Sent(f)| >= 512
    ensures TakeFile(c, r, Sent(f), opens) == r.(rx := Resume.RxWaitF)
    ensures BoundToBeGot(n, i, f) <==> |f.name| < 512 && '%' !in f.name && Unbroken(f.name) && !Abandoned(n, i)
  {
    hide Tokens, Print, OnMessage, Index;
    if |f.name| < 512 && '%' !in f.name && Unbroken(f.name) {
      forall a: string | Echoes(Sent(f), a) ensures GotMessage(a) == About(f) {
        EchoNames(f, a);
      }
      if Abandoned(n, i) {
        AbandonedDies(n, i, f);
        assert Echoes(Sent(f), Cut(1023, Sent(f)));
      } else {
        AnsweredGot(n, i, f);
      }
    } else {
      if |f.name| < 512 && '%' in f.name { PercentSent(f); }
      var a := OtherwiseNot(n, i, f);
    }
  }

  /** So there is a whole session, for every such name, that returns 0 with the file disposed of, in which the only word of the
      peer about it was that echo. */
  lemma {:induction false} LongNameLost(d: Id, f: FileInfo, a: string) returns (evs: seq<Event>)
    requires Means(About(f), d) && f.name != [] && Unbroken(f.name) && |f.name| < 512 && '%' !in f.name && Option3(f.option) && Fits(f)
    requires 1 + |Sent(f)| >= 512 && Echoes(Sent(f), a)
    ensures Parse(Sent(f)) == TooLong
    ensures var z := Run(Start(V10), evs);
      z.ft == Returned && z.rc == 0 && z.h.disposed == {d} && z.h.heard == {GotMessage(a)}
  {
    hide Tokens, Print, Run;
    EchoNames(f, a);
    evs := OneFileFinishes(d);
  }
}
