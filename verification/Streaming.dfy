/**
 Streaming decoders. A decoder looks at the front of a byte stream, in some mode, and either takes
 the next few symbols, turning them into items, or holds everything until more arrives. Whether a
 stream may be cut anywhere is a question about those decisions alone.
 */
module Streaming {

  datatype Front<Item, Mode> = Hold | Take(items: seq<Item>, n: nat, mode: Mode)

  datatype Scanned<Symbol, Item, Mode> = Scanned(items: seq<Item>, pending: seq<Symbol>, mode: Mode) {
    function After(before: seq<Item>): Scanned<Symbol, Item, Mode> { this.(items := before + items) }
  }

  lemma AfterAfter<Symbol, Item, Mode>(r: Scanned<Symbol, Item, Mode>, a: seq<Item>, b: seq<Item>)
    ensures r.After(b).After(a) == r.After(a + b)
  {
    assert a + (b + r.items) == a + b + r.items;
  }

  type Decider<!Symbol, Item, !Mode> = (Mode, seq<Symbol>) -> Front<Item, Mode>

  /** Taking always consumes something that is there. */
  ghost predicate Progresses<Symbol(!new), Item, Mode(!new)>(d: Decider<Symbol, Item, Mode>)
  {
    forall m, s :: d(m, s).Take? ==> 0 < d(m, s).n <= |s|
  }

  /** Decode as much of the stream as can be decided. */
  function Scan<Symbol(!new), Item, Mode(!new)>(
    d: Decider<Symbol, Item, Mode>, m: Mode, s: seq<Symbol>): Scanned<Symbol, Item, Mode>
    requires Progresses(d)
    decreases |s|
  {
    match d(m, s)
    case Hold => Scanned([], s, m)
    case Take(items, n, next) => Scan(d, next, s[n..]).After(items)
  }

  /** Scanning `s` from position `i` on, in mode `m`, after what is done, completes the whole. */
  ghost predicate Continues<Symbol(!new), Item, Mode(!new)>(
    d: Decider<Symbol, Item, Mode>, whole: Scanned<Symbol, Item, Mode>, m: Mode, s: seq<Symbol>, i: nat,
    done: seq<Item>)
    requires Progresses(d)
  {
    i <= |s| && Scan(d, m, s[i..]).After(done) == whole
  }

  lemma ContinuesPast<Symbol(!new), Item, Mode(!new)>(
    d: Decider<Symbol, Item, Mode>, whole: Scanned<Symbol, Item, Mode>, m: Mode, s: seq<Symbol>, i: nat,
    done: seq<Item>)
    requires Progresses(d) && Continues(d, whole, m, s, i, done)
    ensures var f := d(m, s[i..]);
            if f.Hold? then whole == Scanned(done, s[i..], m)
            else Continues(d, whole, f.mode, s, i + f.n, done + f.items)
  {
    var f := d(m, s[i..]);
    if f.Take? {
      assert s[i..][f.n..] == s[i + f.n..];
      AfterAfter(Scan(d, f.mode, s[i + f.n..]), done, f.items);
    } else {
      assert done + [] == done;
    }
  }

  /** Every decision on the way through `s` is still taken when `t` follows. */
  ghost predicate StandsAlong<Symbol(!new), Item, Mode(!new)>(
    d: Decider<Symbol, Item, Mode>, m: Mode, s: seq<Symbol>, t: seq<Symbol>)
    requires Progresses(d)
    decreases |s|
  {
    match d(m, s)
    case Hold => true
    case Take(_, n, next) => d(m, s + t) == d(m, s) && StandsAlong(d, next, s[n..], t)
  }

  /** Scanning in two reads, keeping what the first could not decide, is scanning once. */
  lemma {:induction false} ScanAppend<Symbol(!new), Item, Mode(!new)>(
    d: Decider<Symbol, Item, Mode>, m: Mode, s: seq<Symbol>, t: seq<Symbol>)
    requires Progresses(d) && StandsAlong(d, m, s, t)
    ensures var first := Scan(d, m, s);
            Scan(d, m, s + t) == Scan(d, first.mode, first.pending + t).After(first.items)
    decreases |s|
  {
    match d(m, s)
    case Hold =>
    case Take(items, n, next) =>
      ScanAppend(d, next, s[n..], t);
      assert (s + t)[n..] == s[n..] + t;
  }

  /** A decision that is revised when more arrives shows in the items: nothing is taken, or something else. */
  ghost predicate RevisionsShow<Symbol(!new), Item(!new), Mode(!new)>(d: Decider<Symbol, Item, Mode>)
  {
    forall m, s, t {:trigger d(m, s + t)} :: d(m, s).Take? && d(m, s + t) != d(m, s) ==>
      d(m, s).items != [] && (d(m, s + t).Take? ==> d(m, s + t).items != [] && d(m, s + t).items[0] != d(m, s).items[0])
  }

  /** The items of two reads, the second following what the first held back. */
  function InTwo<Symbol(!new), Item, Mode(!new)>(
    d: Decider<Symbol, Item, Mode>, m: Mode, s: seq<Symbol>, t: seq<Symbol>): seq<Item>
    requires Progresses(d)
  {
    var first := Scan(d, m, s);
    first.items + Scan(d, first.mode, first.pending + t).items
  }

  lemma InTwoFront<Symbol(!new), Item, Mode(!new)>(
    d: Decider<Symbol, Item, Mode>, m: Mode, s: seq<Symbol>, t: seq<Symbol>)
    requires Progresses(d) && d(m, s).Take?
    ensures var f := d(m, s); InTwo(d, m, s, t) == f.items + InTwo(d, f.mode, s[f.n..], t)
  {
    var f := d(m, s);
    var rest := Scan(d, f.mode, s[f.n..]);
    var later := Scan(d, rest.mode, rest.pending + t).items;
    assert f.items + rest.items + later == f.items + (rest.items + later);
  }

  lemma HeadsDiffer<T>(a: seq<T>, x: seq<T>, b: seq<T>, y: seq<T>)
    requires a != [] && b != [] && a[0] != b[0]
    ensures a + x != b + y
  {
    assert (a + x)[0] == a[0] && (b + y)[0] == b[0];
  }

  lemma {:induction false} RevisionDiverges<Symbol(!new), Item(!new), Mode(!new)>(
    d: Decider<Symbol, Item, Mode>, m: Mode, s: seq<Symbol>, t: seq<Symbol>)
    requires Progresses(d) && RevisionsShow(d) && !StandsAlong(d, m, s, t)
    ensures Scan(d, m, s + t).items != InTwo(d, m, s, t)
    decreases |s|
  {
    var (f, g) := (d(m, s), d(m, s + t));
    InTwoFront(d, m, s, t);
    if g == f {
      assert (s + t)[f.n..] == s[f.n..] + t;
      RevisionDiverges(d, f.mode, s[f.n..], t);
      var (x, y) := (Scan(d, f.mode, s[f.n..] + t).items, InTwo(d, f.mode, s[f.n..], t));
      assert (f.items + x)[|f.items|..] == x && (f.items + y)[|f.items|..] == y;
    } else if g.Take? {
      HeadsDiffer(f.items, InTwo(d, f.mode, s[f.n..], t), g.items, Scan(d, g.mode, (s + t)[g.n..]).items);
    }
  }

  /** When revisions show, two reads decode as one exactly when every decision of the first stands. */
  lemma CutMattersUnlessStanding<Symbol(!new), Item(!new), Mode(!new)>(
    d: Decider<Symbol, Item, Mode>, m: Mode, s: seq<Symbol>, t: seq<Symbol>)
    requires Progresses(d) && RevisionsShow(d)
    ensures var first := Scan(d, m, s);
            Scan(d, m, s + t) == Scan(d, first.mode, first.pending + t).After(first.items) <==> StandsAlong(d, m, s, t)
  {
    if StandsAlong(d, m, s, t) {
      ScanAppend(d, m, s, t);
    } else {
      RevisionDiverges(d, m, s, t);
    }
  }

  /** A decision once taken does not depend on what follows. */
  ghost predicate DecisionsStand<Symbol(!new), Item, Mode(!new)>(d: Decider<Symbol, Item, Mode>)
  {
    forall m, s, t {:trigger d(m, s + t)} :: d(m, s).Take? ==> d(m, s + t) == d(m, s)
  }

  lemma {:induction false} AlwaysStands<Symbol(!new), Item, Mode(!new)>(
    d: Decider<Symbol, Item, Mode>, m: Mode, s: seq<Symbol>, t: seq<Symbol>)
    requires Progresses(d) && DecisionsStand(d)
    ensures StandsAlong(d, m, s, t)
    decreases |s|
  {
    if d(m, s).Take? { AlwaysStands(d, d(m, s).mode, s[d(m, s).n..], t); }
  }

  /** What is held back is held back again on its own. */
  lemma {:induction false} PendingHolds<Symbol(!new), Item, Mode(!new)>(
    d: Decider<Symbol, Item, Mode>, m: Mode, s: seq<Symbol>)
    requires Progresses(d)
    ensures d(Scan(d, m, s).mode, Scan(d, m, s).pending).Hold?
    decreases |s|
  {
    if d(m, s).Take? { PendingHolds(d, d(m, s).mode, s[d(m, s).n..]); }
  }

  function Flat<T>(chunks: seq<seq<T>>): seq<T>
  {
    if chunks == [] then [] else chunks[0] + Flat(chunks[1..])
  }

  /** Read after read, each following what the last held back. */
  function ScanReads<Symbol(!new), Item, Mode(!new)>(
    d: Decider<Symbol, Item, Mode>, m: Mode, pending: seq<Symbol>, chunks: seq<seq<Symbol>>)
    : Scanned<Symbol, Item, Mode>
    requires Progresses(d)
    decreases |chunks|
  {
    if chunks == [] then Scanned([], pending, m) else
    var first := Scan(d, m, pending + chunks[0]);
    ScanReads(d, first.mode, first.pending, chunks[1..]).After(first.items)
  }

  /** Every decision of every read is still taken when the rest of the stream follows. */
  ghost predicate ReadsStand<Symbol(!new), Item, Mode(!new)>(
    d: Decider<Symbol, Item, Mode>, m: Mode, pending: seq<Symbol>, chunks: seq<seq<Symbol>>)
    requires Progresses(d)
    decreases |chunks|
  {
    chunks != [] ==>
      && StandsAlong(d, m, pending + chunks[0], Flat(chunks[1..]))
      && var first := Scan(d, m, pending + chunks[0]); ReadsStand(d, first.mode, first.pending, chunks[1..])
  }

  /** Where decisions stand, reading a stream in pieces is reading it at once. */
  lemma {:induction false} StandingReads<Symbol(!new), Item, Mode(!new)>(
    d: Decider<Symbol, Item, Mode>, m: Mode, pending: seq<Symbol>, chunks: seq<seq<Symbol>>)
    requires Progresses(d) && d(m, pending).Hold? && ReadsStand(d, m, pending, chunks)
    ensures ScanReads(d, m, pending, chunks) == Scan(d, m, pending + Flat(chunks))
    decreases |chunks|
  {
    if chunks == [] {
      assert pending + [] == pending;
    } else {
      var first := Scan(d, m, pending + chunks[0]);
      PendingHolds(d, m, pending + chunks[0]);
      StandingReads(d, first.mode, first.pending, chunks[1..]);
      ScanAppend(d, m, pending + chunks[0], Flat(chunks[1..]));
      assert pending + chunks[0] + Flat(chunks[1..]) == pending + Flat(chunks);
    }
  }

  /** Chunking independence: when decisions stand, every way of cutting a stream decodes alike. */
  lemma {:induction false} ChunkingDoesNotMatter<Symbol(!new), Item, Mode(!new)>(
    d: Decider<Symbol, Item, Mode>, m: Mode, pending: seq<Symbol>, chunks: seq<seq<Symbol>>)
    requires Progresses(d) && DecisionsStand(d) && d(m, pending).Hold?
    ensures ScanReads(d, m, pending, chunks) == Scan(d, m, pending + Flat(chunks))
  {
    AllReadsStand(d, m, pending, chunks);
    StandingReads(d, m, pending, chunks);
  }

  lemma {:induction false} AllReadsStand<Symbol(!new), Item, Mode(!new)>(
    d: Decider<Symbol, Item, Mode>, m: Mode, pending: seq<Symbol>, chunks: seq<seq<Symbol>>)
    requires Progresses(d) && DecisionsStand(d)
    ensures ReadsStand(d, m, pending, chunks)
    decreases |chunks|
  {
    if chunks != [] {
      AlwaysStands(d, m, pending + chunks[0], Flat(chunks[1..]));
      var first := Scan(d, m, pending + chunks[0]);
      AllReadsStand(d, first.mode, first.pending, chunks[1..]);
    }
  }

  ghost predicate IsSuffix<T>(p: seq<T>, s: seq<T>) { |p| <= |s| && s[|s| - |p|..] == p }

  lemma {:induction false} PendingIsASuffix<Symbol(!new), Item, Mode(!new)>(
    d: Decider<Symbol, Item, Mode>, m: Mode, s: seq<Symbol>)
    requires Progresses(d)
    ensures IsSuffix(Scan(d, m, s).pending, s)
    decreases |s|
  {
    if d(m, s).Take? {
      var n := d(m, s).n;
      PendingIsASuffix(d, d(m, s).mode, s[n..]);
      var p := Scan(d, m, s).pending;
      assert s[n..][|s| - n - |p|..] == s[|s| - |p|..];
    }
  }

  // ---------------------------------------------------------------- conservation

  /** The symbols a sequence of items stands for. */
  function Render<Symbol, Item>(items: seq<Item>, spell: Item -> seq<Symbol>): seq<Symbol>
  {
    if items == [] then [] else spell(items[0]) + Render(items[1..], spell)
  }

  lemma {:induction false} RenderConcat<Symbol, Item>(a: seq<Item>, b: seq<Item>, spell: Item -> seq<Symbol>)
    ensures Render(a + b, spell) == Render(a, spell) + Render(b, spell)
  {
    if a == [] {
      assert a + b == b;
    } else {
      assert (a + b)[1..] == a[1..] + b;
      RenderConcat(a[1..], b, spell);
    }
  }

  /** Items spell exactly the symbols taken for them. */
  ghost predicate Faithful<Symbol(!new), Item, Mode(!new)>(d: Decider<Symbol, Item, Mode>, spell: Item -> seq<Symbol>)
  {
    forall m, s :: d(m, s).Take? && d(m, s).n <= |s| ==> Render(d(m, s).items, spell) == s[..d(m, s).n]
  }

  /** Nothing is lost, added or reordered: items and pending symbols spell the stream. */
  lemma {:induction false} ScanConserves<Symbol(!new), Item, Mode(!new)>(
    d: Decider<Symbol, Item, Mode>, spell: Item -> seq<Symbol>, m: Mode, s: seq<Symbol>)
    requires Progresses(d) && Faithful(d, spell)
    ensures Render(Scan(d, m, s).items, spell) + Scan(d, m, s).pending == s
    decreases |s|
  {
    match d(m, s)
    case Hold =>
    case Take(items, n, next) =>
      var rest := Scan(d, next, s[n..]);
      calc {
        Render(Scan(d, m, s).items, spell) + Scan(d, m, s).pending;
        Render(items + rest.items, spell) + rest.pending;
        { RenderConcat(items, rest.items, spell); }
        Render(items, spell) + Render(rest.items, spell) + rest.pending;
        s[..n] + (Render(rest.items, spell) + rest.pending);
        { ScanConserves(d, spell, next, s[n..]); }
        s[..n] + s[n..];
        s;
      }
  }
}
