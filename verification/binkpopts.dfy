/** The negotiation of PLZ between two nodes: when a packed frame may come. */
module BinkpOpts {

  datatype State = No | Can | Want | Active

  /** PLZwe and PLZthey, and whether the options have been sent. */
  datatype Node = Node(we: State, they: State, told: bool)

  /** Frames as far as the negotiation goes: an M_NUL "OPT ... PLZ", a packed data block, anything else. */
  datatype Token = Opt | Packed | Plain

  /** binkp_set_comp_state. */
  function SetState(n: Node): Node {
    if n.they == Want && n.we == Want then n.(we := Active, they := Active) else n
  }

  /** binkp_send_comp_opts and binkp_set_comp_state, once on each side. */
  function Tell(n: Node): (Node, seq<Token>) {
    if n.told then (n, [])
    else if n.we == Can || n.they == Can || n.they == Want then (SetState(n.(we := Want, told := true)), [Opt])
    else (n.(told := true), [])
  }

  /** PLZ turned off for this node, which happens before the options are sent. */
  function Refuse(n: Node): Node {
    if n.told then n else n.(we := No, they := No)
  }

  /** parse_m_nul on the option, nothing on other frames. */
  function Hear(n: Node, t: Token): Node {
    if t == Opt && n.they == Can then SetState(n.(they := Want)) else n
  }

  /** a and b, and what is under way from one to the other. */
  datatype Pair = Pair(a: Node, b: Node, ab: seq<Token>, ba: seq<Token>)

  datatype Move = Tells | Refuses | Sends(packed: bool) | Hears

  /** A move of a. */
  function MoveA(p: Pair, m: Move): Pair {
    match m
    case Tells => p.(a := Tell(p.a).0, ab := p.ab + Tell(p.a).1)
    case Refuses => p.(a := Refuse(p.a))
    case Sends(packed) => p.(ab := p.ab + [if packed && p.a.we == Active then Packed else Plain])
    case Hears => if p.ba == [] then p else p.(a := Hear(p.a, p.ba[0]), ba := p.ba[1..])
  }

  function Swap(p: Pair): Pair {
    Pair(p.b, p.a, p.ba, p.ab)
  }

  function Apply(p: Pair, byA: bool, m: Move): Pair {
    if byA then MoveA(p, m) else Swap(MoveA(Swap(p), m))
  }

  function Run(p: Pair, ms: seq<(bool, Move)>): Pair
    decreases |ms|
  {
    if ms == [] then p else Apply(Run(p, ms[..|ms| - 1]), ms[|ms| - 1].0, ms[|ms| - 1].1)
  }

  /** Each side starts with PLZ possible or turned off. */
  predicate Fresh(n: Node) {
    !n.told && ((n.we == Can && n.they == Can) || (n.we == No && n.they == No))
  }

  /** No packed frame comes before the option that lets this node understand it. */
  predicate InOrder(active: bool, w: seq<Token>)
    decreases |w|
  {
    w == [] || (if w[0] == Packed then active && InOrder(active, w[1..])
                else InOrder(active || w[0] == Opt, w[1..]))
  }

  predicate Once(w: seq<Token>) {
    forall i, j :: 0 <= i < j < |w| ==> w[i] != Opt || w[j] != Opt
  }

  predicate NodeOk(n: Node) {
    && (n.we == Active <==> n.they == Active)
    && (if n.told && n.they != No then n.we == Want || n.we == Active else n.we == Can || n.we == No)
    && (n.told ==> n.they != Want)
    && (n.they == No ==> n.we == No)
  }

  /** The option has been sent. */
  predicate Offers(n: Node) {
    n.told && n.they != No
  }

  predicate Heard(n: Node) {
    n.they == Want || n.they == Active
  }

  /** What is under way from b to a fits both. */
  ghost predicate WayOk(a: Node, b: Node, ba: seq<Token>) {
    && InOrder(a.we == Active, ba) && Once(ba)
    && (Opt in ba ==> Offers(b) && !Heard(a))
    && (Heard(a) ==> Offers(b))
    && (Offers(b) ==> Opt in ba || Heard(a) || a.they == No)
    && (Packed in ba ==> b.we == Active)
    && (b.we == Active ==> Offers(a) && (a.we == Active || Opt in ba))
  }

  ghost predicate Inv(p: Pair) {
    NodeOk(p.a) && NodeOk(p.b) && WayOk(p.a, p.b, p.ba) && WayOk(p.b, p.a, p.ab)
  }

  lemma {:induction false} InOrderAppend(active: bool, w: seq<Token>, t: Token)
    ensures InOrder(active, w + [t]) <==> InOrder(active, w) && (t == Packed ==> active || Opt in w)
    decreases |w|
  {
    if w == [] {
      assert w + [t] == [t] && [t][1..] == [];
    } else {
      assert (w + [t])[1..] == w[1..] + [t];
      assert w == [w[0]] + w[1..];
      InOrderAppend(if w[0] == Packed then active else active || w[0] == Opt, w[1..], t);
    }
  }

  lemma {:induction false} InOrderMore(active: bool, w: seq<Token>)
    requires InOrder(active, w)
    ensures InOrder(true, w)
    decreases |w|
  {
    if w != [] {
      InOrderMore(active || w[0] == Opt, w[1..]);
    }
  }

  lemma {:induction false} NonePacked(active: bool, w: seq<Token>)
    requires Packed !in w
    ensures InOrder(active, w)
    decreases |w|
  {
    if w != [] {
      NonePacked(active || w[0] == Opt, w[1..]);
    }
  }

  lemma HearKeeps(p: Pair)
    requires Inv(p) && p.ba != []
    ensures Inv(MoveA(p, Hears))
  {
    var t, rest := p.ba[0], p.ba[1..];
    assert p.ba == [t] + rest;
    if t == Opt {
      assert Opt !in rest by {
        forall j | 0 <= j < |rest| ensures rest[j] != Opt {
          assert rest[j] == p.ba[j + 1];
        }
      }
      if Packed !in rest {
        NonePacked(Hear(p.a, t).we == Active, rest);
      }
    }
  }

  lemma TellKeeps(p: Pair)
    requires Inv(p)
    ensures Inv(MoveA(p, Tells))
  {
    var (n, out) := Tell(p.a);
    if out == [] {
      assert p.ab + [] == p.ab;
    } else {
      InOrderAppend(p.b.we == Active, p.ab, Opt);
      InOrderMore(p.a.we == Active, p.ba);
      assert Opt in p.ab + [Opt];
    }
  }

  lemma MoveKeeps(p: Pair, m: Move)
    requires Inv(p)
    ensures Inv(MoveA(p, m))
  {
    match m
    case Tells => TellKeeps(p);
    case Refuses =>
    case Sends(packed) =>
      InOrderAppend(p.b.we == Active, p.ab, Packed);
      InOrderAppend(p.b.we == Active, p.ab, Plain);
    case Hears => if p.ba != [] { HearKeeps(p); }
  }

  lemma {:induction false} RunKeeps(p: Pair, ms: seq<(bool, Move)>)
    requires Inv(p)
    ensures Inv(Run(p, ms))
    decreases |ms|
  {
    hide MoveA;
    if ms != [] {
      RunKeeps(p, ms[..|ms| - 1]);
      var q := Run(p, ms[..|ms| - 1]);
      var (byA, m) := ms[|ms| - 1];
      if byA { MoveKeeps(q, m); } else { MoveKeeps(Swap(q), m); }
    }
  }

  /** In every run, a packed frame that is next to be read finds a reader for which PLZ is active. */
  lemma PackedUnderstood(p: Pair, ms: seq<(bool, Move)>)
    requires Fresh(p.a) && Fresh(p.b) && p.ab == [] && p.ba == []
    ensures var q := Run(p, ms);
      && (q.ba != [] && q.ba[0] == Packed ==> q.a.they == Active)
      && (q.ab != [] && q.ab[0] == Packed ==> q.b.they == Active)
      && (q.a.we == Active ==> q.b.they == Active || (Opt in q.ab && q.b.they == Can && q.b.we == Want))
  {
    RunKeeps(p, ms);
  }

  /** Once both have sent what they send and heard what was sent, PLZ is active on both sides exactly if neither has turned it off, and on neither
      side otherwise. */
  lemma ActiveIff(p: Pair, ms: seq<(bool, Move)>)
    requires Fresh(p.a) && Fresh(p.b) && p.ab == [] && p.ba == []
    ensures var q := Run(p, ms);
      q.a.told && q.b.told && Opt !in q.ab && Opt !in q.ba ==>
        && (q.a.we == Active <==> q.a.they != No && q.b.they != No) && (q.b.we == Active <==> q.a.they != No && q.b.they != No)
        && (q.a.they == Active <==> q.a.we == Active) && (q.b.they == Active <==> q.b.we == Active)
  {
    RunKeeps(p, ms);
  }

  lemma RunMove(p: Pair, ms: seq<(bool, Move)>, byA: bool, m: Move)
    ensures Run(p, ms + [(byA, m)]) == Apply(Run(p, ms), byA, m)
  {
    hide Apply;
    assert (ms + [(byA, m)])[..|ms + [(byA, m)]| - 1] == ms;
  }

  /** Each side sends its option and hears the other's. */
  function Talk(before: seq<(bool, Move)>): seq<(bool, Move)> {
    before + [(true, Tells)] + [(false, Hears)] + [(false, Tells)] + [(true, Hears)]
  }

  lemma TalkIs(p: Pair, before: seq<(bool, Move)>)
    ensures Run(p, Talk(before)) == Apply(Apply(Apply(Apply(Run(p, before), true, Tells), false, Hears), false, Tells), true, Hears)
  {
    hide Apply;
    var m1 := before + [(true, Tells)];
    var m2 := m1 + [(false, Hears)];
    RunMove(p, before, true, Tells);
    RunMove(p, m1, false, Hears);
    RunMove(p, m2, false, Tells);
    RunMove(p, m2 + [(false, Tells)], true, Hears);
  }

  /** Two nodes that can do it agree on PLZ so, and pack from then on. */
  lemma Agree(p: Pair)
    requires p == Pair(Node(Can, Can, false), Node(Can, Can, false), [], [])
    ensures var q := Run(p, Talk([])); var on := Node(Active, Active, true);
      q == Pair(on, on, [], []) && Run(p, Talk([]) + [(true, Sends(true))]).ab == [Packed]
  {
    assert Run(p, []) == p;
    TalkIs(p, []);
    RunMove(p, Talk([]), true, Sends(true));
    hide Run;
  }

  /** If one of them turns it off it says nothing, and the other does not pack. */
  lemma Disagree(p: Pair)
    requires p == Pair(Node(Can, Can, false), Node(Can, Can, false), [], [])
    ensures Run(p, Talk([(true, Refuses)]) + [(false, Sends(true))]) == Pair(Node(No, No, true), Node(Want, Can, true), [], [Plain])
  {
    assert Run(p, []) == p && [] + [(true, Refuses)] == [(true, Refuses)];
    RunMove(p, [], true, Refuses);
    TalkIs(p, [(true, Refuses)]);
    RunMove(p, Talk([(true, Refuses)]), false, Sends(true));
    hide Run;
  }

  // ------------------------------------------------------------------ as the code does it

  /** The two option states of a session record and what has been put on the line. */
  class Options {
    var we: State
    var they: State
    var told: bool
    var out: seq<Token>

    ghost function State(): Node
      reads this
    {
      Node(we, they, told)
    }

    constructor ()
      ensures State() == Node(Can, Can, false) && Fresh(State()) && out == []
    {
      we, they, told, out := Can, Can, false, [];
    }

    /** binkp_set_comp_state. */
    method SetCompState()
      modifies this`we, this`they
      ensures State() == SetState(old(State()))
    {
      if they == Want && we == Want {
        we := Active;
        they := Active;
      }
    }

    /** binkp_send_comp_opts, once, and the binkp_set_comp_state that follows it. */
    method SendCompOpts()
      modifies this
      ensures var (n, sent) := Tell(old(State())); State() == n && out == old(out) + sent
    {
      assert out + [] == out;
      if told { return; }
      told := true;
      if we == Can || they == Can || they == Want {
        we := Want;
        out := out + [Opt];
        SetCompState();
      }
    }

    /** The option in parse_m_nul. */
    method ParsePlz()
      modifies this`we, this`they
      ensures State() == Hear(old(State()), Opt)
    {
      if they == Can {
        they := Want;
        SetCompState();
      }
    }
  }
}
