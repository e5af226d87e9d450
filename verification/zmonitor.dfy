/** Reading a channel with a finite memory, and what damage to the channel does to the reading. */
module ZMonitor {
  import opened Common
  import opened ZSession

  /** `next` remembers a token, `ok` says whether it may come.  `below` says that one memory allows all that another
      allows, `faint` that it does so once a header has come. */
  datatype Monitor<!S> = Monitor(next: (S, Token) -> S, ok: (S, Token) -> bool, below: (S, S) -> bool, faint: (S, S) -> bool)

  function Memory<S>(m: Monitor<S>, s: S, w: seq<Token>): S
    decreases |w|
  {
    if w == [] then s else Memory(m, m.next(s, w[0]), w[1..])
  }

  predicate Allows<S>(m: Monitor<S>, s: S, w: seq<Token>)
    decreases |w|
  {
    w == [] || (m.ok(s, w[0]) && Allows(m, m.next(s, w[0]), w[1..]))
  }

  ghost predicate Ordered<S(!new)>(m: Monitor<S>) {
    && (forall a :: m.below(a, a) && m.faint(a, a))
    && (forall a, b, c :: m.below(a, b) && m.below(b, c) ==> m.below(a, c))
  }

  ghost predicate Steady<S(!new)>(m: Monitor<S>) {
    forall a, b, t :: m.below(a, b) && m.ok(b, t) ==> m.ok(a, t) && m.below(m.next(a, t), m.next(b, t))
  }

  /** Junk may always come, and nothing is remembered less of than of junk. */
  ghost predicate JunkIsLeast<S(!new)>(m: Monitor<S>) {
    && (forall s :: m.ok(s, Junk) && m.next(m.next(s, Junk), Junk) == m.next(s, Junk))
    && (forall s, t :: m.ok(s, t) ==> m.below(m.next(s, Junk), m.next(s, t)))
  }

  ghost predicate Fades<S(!new)>(m: Monitor<S>) {
    && (forall s, x, t :: m.faint(s, x) && m.ok(x, t) ==> m.faint(s, m.next(x, t)))
    && (forall a, b, h: Token :: h.Hdr? && m.faint(a, b) && m.ok(b, h) ==> m.ok(a, h) && m.below(m.next(a, h), m.next(b, h)))
  }

  ghost predicate Robust<S(!new)>(m: Monitor<S>) {
    Ordered(m) && Steady(m) && JunkIsLeast(m) && Fades(m)
  }

  lemma {:induction false} Split<S>(m: Monitor<S>, s: S, a: seq<Token>, b: seq<Token>)
    ensures Memory(m, s, a + b) == Memory(m, Memory(m, s, a), b)
    ensures Allows(m, s, a + b) == (Allows(m, s, a) && Allows(m, Memory(m, s, a), b))
    decreases |a|
  {
    if a == [] {
      assert a + b == b;
    } else {
      assert (a + b)[1..] == a[1..] + b;
      Split(m, m.next(s, a[0]), a[1..], b);
    }
  }

  lemma {:induction false} Weaken<S(!new)>(m: Monitor<S>, a: S, b: S, w: seq<Token>)
    requires Steady(m) && m.below(a, b) && Allows(m, b, w)
    ensures Allows(m, a, w) && m.below(Memory(m, a, w), Memory(m, b, w))
    decreases |w|
  {
    if w != [] {
      Weaken(m, m.next(a, w[0]), m.next(b, w[0]), w[1..]);
    }
  }

  /** A memory can only fade, whatever comes. */
  lemma {:induction false} Fading<S(!new)>(m: Monitor<S>, s: S, x: S, w: seq<Token>)
    requires Fades(m) && m.faint(s, x) && Allows(m, x, w)
    ensures m.faint(s, Memory(m, x, w))
    decreases |w|
  {
    if w != [] {
      Fading(m, s, m.next(x, w[0]), w[1..]);
    }
  }

  lemma {:induction false} JunkBelow<S(!new)>(m: Monitor<S>, j: S, x: S, w: seq<Token>)
    requires Ordered(m) && Steady(m) && JunkIsLeast(m)
    requires j == m.next(j, Junk) && m.below(j, x) && Allows(m, x, w)
    ensures m.below(j, Memory(m, x, w))
    decreases |w|
  {
    if w != [] {
      assert m.ok(x, Junk) && m.below(m.next(j, Junk), m.next(x, Junk));
      assert m.below(m.next(x, Junk), m.next(x, w[0]));
      JunkBelow(m, j, m.next(x, w[0]), w[1..]);
    }
  }

  /** A channel that was fine is fine with part of it turned to junk, and nothing more is remembered at its end. */
  lemma DamageKeeps<S(!new)>(m: Monitor<S>, s: S, w: seq<Token>, i: nat, j: nat)
    requires Robust(m) && Allows(m, s, w)
    ensures Allows(m, s, Damaged(w, i, j)) && m.below(Memory(m, s, Damaged(w, i, j)), Memory(m, s, w))
  {
    if i < j <= |w| {
      var a, d, b := w[..i], w[i..j], w[j..];
      var e := Memory(m, s, a);
      assert w == a + (d + b);
      Split(m, s, a, d + b);
      Split(m, e, d, b);
      var x := m.next(e, Junk);
      assert m.below(x, m.next(e, d[0]));
      JunkBelow(m, x, m.next(e, d[0]), d[1..]);
      Weaken(m, x, Memory(m, e, d), b);
      assert ([Junk] + b)[1..] == b;
      Split(m, s, a, [Junk] + b);
      assert Damaged(w, i, j) == a + ([Junk] + b);
    }
  }

  /** The same with part of it gone, up to a header, or anywhere if every memory fades to one below. */
  lemma LossKeeps<S(!new)>(m: Monitor<S>, s: S, w: seq<Token>, i: nat, j: nat, anywhere: bool)
    requires Robust(m) && Allows(m, s, w)
    requires anywhere ==> forall a, b :: m.faint(a, b) ==> m.below(a, b)
    ensures Allows(m, s, Lost1(w, i, j, anywhere)) && m.below(Memory(m, s, Lost1(w, i, j, anywhere)), Memory(m, s, w))
  {
    if i < j <= |w| && (anywhere || (j < |w| && w[j].Hdr?)) {
      var a, d, b := w[..i], w[i..j], w[j..];
      var e := Memory(m, s, a);
      assert w == a + (d + b);
      Split(m, s, a, d + b);
      Split(m, e, d, b);
      Split(m, s, a, b);
      Fading(m, e, e, d);
      var x := Memory(m, e, d);
      if anywhere {
        Weaken(m, e, x, b);
      } else {
        Weaken(m, m.next(e, b[0]), m.next(x, b[0]), b[1..]);
      }
    }
  }
}
