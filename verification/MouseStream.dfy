/**
 Mouse reports inside the input stream of a client. Each frame of input carries the number of the
 picture that was on screen; reports are taken out, a cut-off report is held for the next frame,
 and what remains is keyboard input. What a report does is a parameter: it turns one state of the
 server into the next, and the state says whether a mouse selection is pending.
 */
module MouseStream {
  import opened Common
  import opened Streaming
  import opened Mouse

  type Epoch = Option<nat>

  datatype Tagged = Tagged(b: Byte, epoch: Epoch)

  function TagAll(bytes: seq<Byte>, epoch: Epoch): seq<Tagged>
  {
    seq(|bytes|, i requires 0 <= i < |bytes| => Tagged(bytes[i], epoch))
  }

  function Bytes(s: seq<Tagged>): (bytes: seq<Byte>)
    ensures |bytes| == |s| && forall i :: 0 <= i < |s| ==> bytes[i] == s[i].b
  {
    seq(|s|, i requires 0 <= i < |s| => s[i].b)
  }

  datatype Item = Key(b: Byte) | Pointer(report: Report, epoch: Epoch)

  /** How the server acts on a report, and whether it then has a mouse selection pending. */
  datatype Server<!W> = Server(handle: (W, Report, Epoch) -> W, selecting: W -> bool)

  /** What the front of the stream decides: a report is stamped with the picture of its first byte. */
  function Decide<W>(sv: Server<W>, w: W, s: seq<Tagged>): Front<Item, W>
  {
    if s == [] then Hold else
    match Parsed(Bytes(s))
    case Some((report, n)) => Take([Pointer(report, s[0].epoch)], n, sv.handle(w, report, s[0].epoch))
    case None =>
      if IsPartial(Bytes(s)) || (IsIntroducerPrefix(Bytes(s)) && sv.selecting(w)) then Hold
      else Take([Key(s[0].b)], 1, w)
  }

  function Deciding<W>(sv: Server<W>): (d: Decider<Tagged, Item, W>)
  {
    (w, s) => Decide(sv, w, s)
  }

  lemma Streams<W(!new)>(sv: Server<W>)
    ensures Progresses(Deciding(sv))
  {
  }

  function Decode<W(!new)>(sv: Server<W>, w: W, s: seq<Tagged>): Scanned<Tagged, Item, W>
  {
    Streams(sv);
    Scan(Deciding(sv), w, s)
  }

  lemma DecodeFront<W(!new)>(sv: Server<W>, w: W, s: seq<Tagged>)
    ensures Decide(sv, w, s).Hold? ==> Decode(sv, w, s) == Scanned([], s, w)
    ensures Decide(sv, w, s).Take? ==>
      var f := Decide(sv, w, s);
      0 < f.n <= |s| && Decode(sv, w, s) == Decode(sv, f.mode, s[f.n..]).After(f.items)
  {
    Streams(sv);
  }

  // ---------------------------------------------------------------- decisions and what follows

  lemma TerminatorStands(s: seq<Byte>, from: nat, t: seq<Byte>)
    requires from <= |s| && Terminator(s, from) < |s|
    ensures Terminator(s + t, from) == Terminator(s, from)
  {
    var end := Terminator(s, from);
    assert (s + t)[end] == s[end];
    assert forall i :: from <= i < end ==> (s + t)[i] == s[i];
  }

  /** Once a terminator has arrived, a report, or the lack of one, does not depend on what follows. */
  lemma ParsedStands(s: seq<Byte>, t: seq<Byte>)
    requires HasIntroducer(s) && !IsPartial(s)
    ensures Parsed(s + t) == Parsed(s) && HasIntroducer(s + t) && !IsPartial(s + t)
  {
    PartialHasNoTerminator(s);
    TerminatorStands(s, 3, t);
    var end := Terminator(s, 3);
    assert (s + t)[..3] == s[..3];
    assert (s + t)[3..end] == s[3..end] && (s + t)[end] == s[end];
  }

  lemma NoIntroducerStands(s: seq<Byte>, t: seq<Byte>)
    requires s != [] && !HasIntroducer(s) && !IsIntroducerPrefix(s)
    ensures !HasIntroducer(s + t) && !IsIntroducerPrefix(s + t)
  {
  }

  /** Only a decision on a bare `ESC` or `ESC [` may be revised when more arrives. */
  lemma DecisionStands<W>(sv: Server<W>, w: W, s: seq<Tagged>, t: seq<Tagged>)
    requires Decide(sv, w, s).Take? && !IsIntroducerPrefix(Bytes(s))
    ensures Decide(sv, w, s + t) == Decide(sv, w, s)
  {
    assert Bytes(s + t) == Bytes(s) + Bytes(t);
    if HasIntroducer(Bytes(s)) {
      ParsedStands(Bytes(s), Bytes(t));
      assert !IsIntroducerPrefix(Bytes(s + t));
    } else {
      NoIntroducerStands(Bytes(s), Bytes(t));
    }
  }

  // ---------------------------------------------------------------- where a stream may be cut

  /** `p` is the `ESC` or `ESC [` that `s` ends with. */
  predicate EndsIn(s: seq<Tagged>, p: seq<Tagged>)
  {
    IsIntroducerPrefix(Bytes(p)) && |p| <= |s| && s[|s| - |p|..] == p
  }

  /**
   The cut after `s` falls inside an introducer: nothing was held back, although `s` ends in `ESC`
   or `ESC [` and, with `t`, that is no plain Escape key.
   */
  ghost predicate Splits<W(!new)>(sv: Server<W>, w: W, s: seq<Tagged>, t: seq<Tagged>)
  {
    var r := Decode(sv, w, s);
    r.pending == [] && exists p :: EndsIn(s, p) && Decide(sv, r.mode, p + t) != Take([Key(ESC)], 1, r.mode)
  }

  lemma EndsInTail(s: seq<Tagged>, n: nat, p: seq<Tagged>)
    requires 0 < n <= |s|
    requires (n == 1 && !IsIntroducerPrefix(Bytes(s))) || IsTerminator(s[n - 1].b)
    ensures EndsIn(s, p) <==> EndsIn(s[n..], p)
  {
    if |p| <= |s| - n {
      assert s[n..][|s| - n - |p|..] == s[|s| - |p|..];
    }
  }

  lemma TakenReport<W>(sv: Server<W>, w: W, s: seq<Tagged>)
    requires Decide(sv, w, s).Take?
    ensures var n := Decide(sv, w, s).n; 0 < n <= |s| && (n == 1 || IsTerminator(s[n - 1].b))
  {
    hide Parsed;
    if Parsed(Bytes(s)).Some? { ParsedShape(Bytes(s)); }
  }

  ghost predicate Stands<W(!new)>(sv: Server<W>, w: W, s: seq<Tagged>, t: seq<Tagged>)
  {
    Streams(sv);
    StandsAlong(Deciding(sv), w, s, t)
  }

  lemma StandsFront<W(!new)>(sv: Server<W>, w: W, s: seq<Tagged>, t: seq<Tagged>)
    ensures var f := Decide(sv, w, s);
            Stands(sv, w, s, t)
              == (f.Take? ==> Decide(sv, w, s + t) == f && 0 < f.n <= |s| && Stands(sv, f.mode, s[f.n..], t))
  {
    Streams(sv);
  }

  lemma SplitsAtPrefix<W(!new)>(sv: Server<W>, w: W, s: seq<Tagged>, t: seq<Tagged>)
    requires IsIntroducerPrefix(Bytes(s)) && !sv.selecting(w)
    ensures Decide(sv, w, s) == Take([Key(ESC)], 1, w)
    ensures Decode(sv, w, s).pending == [] && Decode(sv, w, s).mode == w
    ensures Splits(sv, w, s, t) <==> Decide(sv, w, s + t) != Decide(sv, w, s)
    ensures Stands(sv, w, s[1..], t)
  {
    assert Bytes(s)[0] == INTRODUCER[0];
    DecodeFront(sv, w, s);
    DecodeFront(sv, w, s[1..]);
    if |s| > 1 {
      assert |s| == 2 && Bytes(s)[1] == INTRODUCER[1];
      assert Bytes(s[1..])[0] == INTRODUCER[1];
      DecodeFront(sv, w, s[1..][1..]);
    }
    StandsFront(sv, w, s[1..], t);
    if |s| > 1 { StandsFront(sv, w, s[1..][1..], t); }
    assert EndsIn(s, s) by { assert s[0..] == s; }
    forall p | EndsIn(s, p) ensures p == s {
      assert Bytes(p)[0] == INTRODUCER[0] && p[0] == s[|s| - |p|];
    }
  }

  lemma {:induction false} StandsUnlessSplit<W(!new)>(sv: Server<W>, w: W, s: seq<Tagged>, t: seq<Tagged>)
    ensures Stands(sv, w, s, t) <==> !Splits(sv, w, s, t)
    decreases |s|
  {
    StandsFront(sv, w, s, t);
    DecodeFront(sv, w, s);
    var f := Decide(sv, w, s);
    if f.Take? {
      if IsIntroducerPrefix(Bytes(s)) {
        SplitsAtPrefix(sv, w, s, t);
      } else {
        DecisionStands(sv, w, s, t);
        TakenReport(sv, w, s);
        StandsUnlessSplit(sv, f.mode, s[f.n..], t);
        forall p ensures EndsIn(s, p) <==> EndsIn(s[f.n..], p) { EndsInTail(s, f.n, p); }
      }
    }
  }

  /**
   Cutting a stream in two: one read or two decode alike, and leave the server alike, exactly when
   the cut does not fall inside an introducer with no selection pending.
   */
  lemma CutMattersOnlyInsideIntroducer<W(!new)>(sv: Server<W>, w: W, s: seq<Tagged>, t: seq<Tagged>)
    ensures var first := Decode(sv, w, s);
            Decode(sv, w, s + t) == Decode(sv, first.mode, first.pending + t).After(first.items) <==>
            !Splits(sv, w, s, t)
  {
    StandsUnlessSplit(sv, w, s, t);
    Streams(sv);
    Revisions(sv);
    CutMattersUnlessStanding(Deciding(sv), w, s, t);
  }

  lemma Revisions<W(!new)>(sv: Server<W>)
    ensures RevisionsShow(Deciding(sv))
  {
    forall w: W, s, t | Decide(sv, w, s).Take? && Decide(sv, w, s + t) != Decide(sv, w, s)
      ensures Decide(sv, w, s).items != []
      ensures Decide(sv, w, s + t).Take?
        ==> Decide(sv, w, s + t).items != [] && Decide(sv, w, s + t).items[0] != Decide(sv, w, s).items[0]
    {
      if Decide(sv, w, s + t).Take? { FirstItemDiffers(sv, w, s, t); }
    }
  }

  lemma FirstItemDiffers<W>(sv: Server<W>, w: W, s: seq<Tagged>, t: seq<Tagged>)
    requires Decide(sv, w, s).Take? && Decide(sv, w, s + t).Take? && Decide(sv, w, s) != Decide(sv, w, s + t)
    ensures Decide(sv, w, s).items[0] != Decide(sv, w, s + t).items[0]
  {
    if !IsIntroducerPrefix(Bytes(s)) {
      DecisionStands(sv, w, s, t);
      assert false;
    }
    assert (s + t)[0] == s[0];
  }

  /** A complete report cut after its `ESC` or its `ESC [` survives exactly when a selection is pending. */
  lemma IntroducerCutNeedsSelection<W(!new)>(sv: Server<W>, w: W, s: seq<Tagged>, k: nat)
    requires Parsed(Bytes(s)).Some? && 1 <= k <= 2
    ensures var first := Decode(sv, w, s[..k]);
            Decode(sv, w, s) == Decode(sv, first.mode, first.pending + s[k..]).After(first.items) <==> sv.selecting(w)
  {
    assert s == s[..k] + s[k..];
    CutMattersOnlyInsideIntroducer(sv, w, s[..k], s[k..]);
    assert IsIntroducerPrefix(Bytes(s[..k]));
    DecodeFront(sv, w, s[..k]);
    if !sv.selecting(w) {
      SplitsAtPrefix(sv, w, s[..k], s[k..]);
    }
  }

  // ---------------------------------------------------------------- whole streams

  /** `ESC [ <` lies across the boundary between `s` and `t`. */
  ghost predicate CutsIntroducer(s: seq<Tagged>, t: seq<Tagged>)
  {
    exists p :: EndsIn(s, p) && HasIntroducer(Bytes(p + t))
  }

  /** No boundary between reads falls inside an introducer. */
  ghost predicate IntroducersWhole(before: seq<Tagged>, chunks: seq<seq<Tagged>>)
    decreases |chunks|
  {
    chunks != [] ==>
      && !CutsIntroducer(before + chunks[0], Flat(chunks[1..]))
      && IntroducersWhole(before + chunks[0], chunks[1..])
  }

  lemma SplitIsACut<W(!new)>(sv: Server<W>, w: W, s: seq<Tagged>, t: seq<Tagged>)
    requires Splits(sv, w, s, t)
    ensures CutsIntroducer(s, t)
  {
    var r := Decode(sv, w, s);
    var p :| EndsIn(s, p) && Decide(sv, r.mode, p + t) != Take([Key(ESC)], 1, r.mode);
    assert Bytes(p)[0] == INTRODUCER[0];
    assert (p + t)[0] == p[0];
    if !HasIntroducer(Bytes(p + t)) {
      NothingPendingNotSelecting(sv, w, s, p);
    }
  }

  /** Nothing is pending after a trailing `ESC` or `ESC [` only when no selection is. */
  lemma {:induction false} NothingPendingNotSelecting<W(!new)>(sv: Server<W>, w: W, s: seq<Tagged>, p: seq<Tagged>)
    requires EndsIn(s, p) && Decode(sv, w, s).pending == []
    ensures !sv.selecting(Decode(sv, w, s).mode)
    decreases |s|
  {
    DecodeFront(sv, w, s);
    var f := Decide(sv, w, s);
    if IsIntroducerPrefix(Bytes(s)) {
      SplitsAtPrefix(sv, w, s, []);
    } else {
      TakenReport(sv, w, s);
      EndsInTail(s, f.n, p);
      NothingPendingNotSelecting(sv, f.mode, s[f.n..], p);
    }
  }

  lemma CutOfSuffix(before: seq<Tagged>, s: seq<Tagged>, t: seq<Tagged>)
    requires CutsIntroducer(s, t) && |s| <= |before| && before[|before| - |s|..] == s
    ensures CutsIntroducer(before, t)
  {
    var p :| EndsIn(s, p) && HasIntroducer(Bytes(p + t));
    assert before[|before| - |p|..] == s[|s| - |p|..];
  }

  /**
   However a stream is cut into frames, except inside an introducer, the reports, the keys and the
   state of the server are those of the whole stream, each report with the picture of its first byte.
   */
  lemma FramesDoNotMatter<W(!new)>(sv: Server<W>, w: W, chunks: seq<seq<Tagged>>)
    requires IntroducersWhole([], chunks)
    ensures Progresses(Deciding(sv)) && ScanReads(Deciding(sv), w, [], chunks) == Decode(sv, w, Flat(chunks))
  {
    Streams(sv);
    WholeIntroducersStand(sv, w, [], [], chunks);
    StandingReads(Deciding(sv), w, [], chunks);
    assert [] + Flat(chunks) == Flat(chunks);
  }

  lemma {:induction false} WholeIntroducersStand<W(!new)>(
    sv: Server<W>, w: W, before: seq<Tagged>, pending: seq<Tagged>, chunks: seq<seq<Tagged>>)
    requires IsSuffix(pending, before) && IntroducersWhole(before, chunks)
    ensures Progresses(Deciding(sv)) && ReadsStand(Deciding(sv), w, pending, chunks)
    decreases |chunks|
  {
    Streams(sv);
    if chunks != [] {
      var (s, t) := (pending + chunks[0], Flat(chunks[1..]));
      var first := Decode(sv, w, s);
      UncutStands(sv, w, before, pending, chunks[0], t);
      PendingIsASuffix(Deciding(sv), w, s);
      SuffixOfLonger(first.pending, s, pending, before, chunks[0]);
      WholeIntroducersStand(sv, first.mode, before + chunks[0], first.pending, chunks[1..]);
    }
  }

  lemma UncutStands<W(!new)>(
    sv: Server<W>, w: W, before: seq<Tagged>, pending: seq<Tagged>, chunk: seq<Tagged>, t: seq<Tagged>)
    requires IsSuffix(pending, before) && !CutsIntroducer(before + chunk, t)
    ensures Stands(sv, w, pending + chunk, t)
  {
    var s := pending + chunk;
    StandsUnlessSplit(sv, w, s, t);
    if Splits(sv, w, s, t) {
      SplitIsACut(sv, w, s, t);
      SuffixOfLonger(s, s, pending, before, chunk);
      CutOfSuffix(before + chunk, s, t);
    }
  }

  lemma SuffixOfLonger(p: seq<Tagged>, s: seq<Tagged>, pending: seq<Tagged>, before: seq<Tagged>, chunk: seq<Tagged>)
    requires IsSuffix(p, s) && s == pending + chunk && IsSuffix(pending, before)
    ensures IsSuffix(p, before + chunk)
  {
    var all := before + chunk;
    assert all[|all| - |s|..] == s;
    assert all[|all| - |p|..] == s[|s| - |p|..];
  }

  /** With a selection pending throughout, the stream may be cut anywhere at all. */
  lemma SelectionHoldsIntroducers<W(!new)>(sv: Server<W>, w: W, chunks: seq<seq<Tagged>>)
    requires forall u :: sv.selecting(u)
    ensures Progresses(Deciding(sv)) && ScanReads(Deciding(sv), w, [], chunks) == Decode(sv, w, Flat(chunks))
  {
    Streams(sv);
    forall u: W, s, t | Decide(sv, u, s).Take? ensures Decide(sv, u, s + t) == Decide(sv, u, s) {
      DecisionStands(sv, u, s, t);
    }
    ChunkingDoesNotMatter(Deciding(sv), w, [], chunks);
    assert [] + Flat(chunks) == Flat(chunks);
  }

  // ---------------------------------------------------------------- nothing is lost

  /** No complete report is there, and more may come of it. */
  predicate Undecided<W>(sv: Server<W>, w: W, s: seq<Tagged>)
  {
    s == [] || (Parsed(Bytes(s)).None? && (IsPartial(Bytes(s)) || (IsIntroducerPrefix(Bytes(s)) && sv.selecting(w))))
  }

  /**
   The items are the stream, front to back: a complete report wherever one starts outside another,
   under the number of its first byte and acted on in order, every other byte as a key; and what is
   left over is undecided.
   */
  ghost predicate Accounts<W(!new)>(
    sv: Server<W>, w: W, s: seq<Tagged>, items: seq<Item>, pending: seq<Tagged>, last: W)
    decreases |items|
  {
    if items == [] then s == pending && w == last && Undecided(sv, w, s)
    else
      && !Undecided(sv, w, s)
      && match (items[0], Parsed(Bytes(s)))
         case (Pointer(report, epoch), Some((r, n))) =>
           && report == r && epoch == s[0].epoch
           && Accounts(sv, sv.handle(w, report, epoch), s[n..], items[1..], pending, last)
         case (Key(b), None) => b == s[0].b && Accounts(sv, w, s[1..], items[1..], pending, last)
         case _ => false
  }

  lemma {:induction false} StreamIsAccountedFor<W(!new)>(sv: Server<W>, w: W, s: seq<Tagged>)
    ensures var r := Decode(sv, w, s); Accounts(sv, w, s, r.items, r.pending, r.mode)
    decreases |s|
  {
    hide Parsed, IsPartial, IsIntroducerPrefix;
    DecodeFront(sv, w, s);
    var f := Decide(sv, w, s);
    if f.Take? {
      var rest := Decode(sv, f.mode, s[f.n..]);
      StreamIsAccountedFor(sv, f.mode, s[f.n..]);
      assert (f.items + rest.items)[1..] == rest.items;
    }
  }

  // ---------------------------------------------------------------- which picture a report belongs to

  /** The same bytes, possibly tagged with other pictures. */
  predicate SameBytes(s: seq<Tagged>, t: seq<Tagged>) { Bytes(s) == Bytes(t) }

  lemma SameDecision<W>(sv: Server<W>, w: W, s: seq<Tagged>, t: seq<Tagged>)
    requires SameBytes(s, t)
    ensures Decide(sv, w, s).Hold? == Decide(sv, w, t).Hold?
    ensures Decide(sv, w, s).Take? ==>
      && s != [] && t != [] && Decide(sv, w, s).n == Decide(sv, w, t).n
      && (if Decide(sv, w, s).items[0].Pointer? && s[0].epoch != t[0].epoch
          then Decide(sv, w, t).items != [] && Decide(sv, w, t).items[0] != Decide(sv, w, s).items[0]
          else Decide(sv, w, t) == Decide(sv, w, s))
  {
    if s != [] { assert Bytes(s)[0] == Bytes(t)[0]; }
  }

  /** Wherever a report starts in `s`, `t` carries the same picture. */
  ghost predicate PicturesAgree<W(!new)>(sv: Server<W>, w: W, s: seq<Tagged>, t: seq<Tagged>)
    requires |s| == |t|
    decreases |s|
  {
    match Decide(sv, w, s)
    case Hold => true
    case Take(items, n, next) =>
      && (items[0].Pointer? ==> s[0].epoch == t[0].epoch)
      && (0 < n <= |s| ==> PicturesAgree(sv, next, s[n..], t[n..]))
  }

  /** Both lists have an item at some place, and not the same one; nothing put after them repairs that. */
  ghost predicate Diverge<T(!new)>(a: seq<T>, b: seq<T>)
  {
    exists i :: 0 <= i < |a| && i < |b| && a[i] != b[i]
  }

  lemma DivergeBefore<T(!new)>(before: seq<T>, a: seq<T>, b: seq<T>)
    requires Diverge(a, b)
    ensures Diverge(before + a, before + b)
  {
    var i :| 0 <= i < |a| && i < |b| && a[i] != b[i];
    assert (before + a)[|before| + i] == a[i] && (before + b)[|before| + i] == b[i];
  }

  lemma DivergeAfter<T(!new)>(a: seq<T>, x: seq<T>, b: seq<T>, y: seq<T>)
    requires Diverge(a, b)
    ensures Diverge(a + x, b + y) && a + x != b + y
  {
    var i :| 0 <= i < |a| && i < |b| && a[i] != b[i];
    assert (a + x)[i] == a[i] && (b + y)[i] == b[i];
  }

  /** Two taggings of one stream decode alike exactly when they agree wherever a report starts. */
  lemma {:induction false} TagsMatterAtReports<W(!new)>(sv: Server<W>, w: W, s: seq<Tagged>, t: seq<Tagged>)
    requires SameBytes(s, t)
    ensures var (x, y) := (Decode(sv, w, s), Decode(sv, w, t));
            if PicturesAgree(sv, w, s, t) then x.items == y.items && x.mode == y.mode && |x.pending| == |y.pending|
            else Diverge(x.items, y.items)
    decreases |s|
  {
    SameDecision(sv, w, s, t);
    DecodeFront(sv, w, s);
    DecodeFront(sv, w, t);
    var (f, g) := (Decide(sv, w, s), Decide(sv, w, t));
    if f.Take? {
      var (x, y) := (Decode(sv, f.mode, s[f.n..]), Decode(sv, g.mode, t[f.n..]));
      if f == g {
        assert SameBytes(s[f.n..], t[f.n..]) by {
          assert Bytes(s[f.n..]) == Bytes(s)[f.n..] && Bytes(t[f.n..]) == Bytes(t)[f.n..];
        }
        TagsMatterAtReports(sv, f.mode, s[f.n..], t[f.n..]);
        if Diverge(x.items, y.items) { DivergeBefore(f.items, x.items, y.items); }
      } else {
        assert f.items[0] != g.items[0];
        DivergeAfter(f.items, x.items, g.items, y.items);
      }
    }
  }

  /** What the server remembers of held bytes: one picture for all of them, that of the first. */
  function Relabelled(held: seq<Tagged>): seq<Tagged>
  {
    TagAll(Bytes(held), FirstEpoch(held))
  }

  function FirstEpoch(held: seq<Tagged>): Epoch { if held == [] then None else held[0].epoch }

  lemma RelabelledBytes(held: seq<Tagged>, bytes: seq<Tagged>)
    ensures SameBytes(held + bytes, Relabelled(held) + bytes)
  {
  }

  /** What the server may hold from one frame to the next. */
  predicate MayBeHeld(held: seq<Tagged>)
  {
    held == [] || IsPartial(Bytes(held)) || IsIntroducerPrefix(Bytes(held))
  }

  lemma PendingMayBeHeld<W(!new)>(sv: Server<W>, w: W, s: seq<Tagged>)
    ensures MayBeHeld(Decode(sv, w, s).pending)
  {
    hide Parsed;
    Streams(sv);
    PendingHolds(Deciding(sv), w, s);
  }

  /** Some report starts among the held bytes, past the first, under another picture. */
  predicate HoldsForeignReport(held: seq<Tagged>, bytes: seq<Tagged>)
  {
    exists j :: 0 < j < |held| && Parsed(Bytes(held + bytes)[j..]).Some? && held[j].epoch != held[0].epoch
  }

  /**
   A frame is decoded with the right pictures exactly when every complete report that starts among
   the held bytes, past the first, came with the first one's picture.
   */
  lemma HeldReportsKeepTheirPicture<W(!new)>(sv: Server<W>, w: W, held: seq<Tagged>, bytes: seq<Tagged>)
    requires MayBeHeld(held)
    ensures Decode(sv, w, Relabelled(held) + bytes).items == Decode(sv, w, held + bytes).items
       <==> forall j :: 0 < j < |held| && Parsed(Bytes(held + bytes)[j..]).Some? ==> held[j].epoch == held[0].epoch
  {
    hide Parsed, IsPartial, IsIntroducerPrefix, PicturesAgree;
    RelabelledBytes(held, bytes);
    TagsMatterAtReports(sv, w, held + bytes, Relabelled(held) + bytes);
    ForeignReportsMatter(sv, w, held, bytes);
  }

  lemma ForeignReportsMatter<W(!new)>(sv: Server<W>, w: W, held: seq<Tagged>, bytes: seq<Tagged>)
    requires MayBeHeld(held)
    ensures PicturesAgree(sv, w, held + bytes, Relabelled(held) + bytes) <==> !HoldsForeignReport(held, bytes)
  {
    hide Parsed, IsPartial, IsIntroducerPrefix, PicturesAgree;
    var (s, t) := (held + bytes, Relabelled(held) + bytes);
    if HoldsForeignReport(held, bytes) {
      var j :| 0 < j < |held| && Parsed(Bytes(s)[j..]).Some? && held[j].epoch != held[0].epoch;
      ForeignReportIsReached(sv, w, held, s, t, 0, j);
      assert s[0..] == s && t[0..] == t;
    } else {
      forall i | 0 <= i < |s| && Parsed(Bytes(s)[i..]).Some? ensures s[i].epoch == t[i].epoch {
        if 0 < i < |held| { assert held[i].epoch == held[0].epoch; }
      }
      AgreesWhereReportsParse(sv, w, s, t);
    }
  }

  lemma {:induction false} AgreesWhereReportsParse<W(!new)>(sv: Server<W>, w: W, s: seq<Tagged>, t: seq<Tagged>)
    requires |s| == |t|
    requires forall i :: 0 <= i < |s| && Parsed(Bytes(s)[i..]).Some? ==> s[i].epoch == t[i].epoch
    ensures PicturesAgree(sv, w, s, t)
    decreases |s|
  {
    hide Parsed;
    var f := Decide(sv, w, s);
    if f.Take? {
      assert Bytes(s)[0..] == Bytes(s);
      DecodeFront(sv, w, s);
      forall i | 0 <= i < |s[f.n..]| && Parsed(Bytes(s[f.n..])[i..]).Some?
        ensures s[f.n..][i].epoch == t[f.n..][i].epoch
      {
        assert Bytes(s[f.n..])[i..] == Bytes(s)[f.n + i..];
      }
      AgreesWhereReportsParse(sv, f.mode, s[f.n..], t[f.n..]);
    }
  }

  /** The bytes before a report that starts among held bytes are passed on one by one. */
  lemma PassesAsKey(held: seq<Tagged>, s: seq<Tagged>, i: nat, j: nat)
    requires MayBeHeld(held) && held <= s && i < j < |held| && Parsed(Bytes(s)[j..]).Some?
    ensures var tail := Bytes(s)[i..]; Parsed(tail).None? && !IsPartial(tail) && !IsIntroducerPrefix(tail)
  {
    hide Parsed;
    var (bytes, tail, report) := (Bytes(s), Bytes(s)[i..], Bytes(s)[j..]);
    ParsedShape(report);
    var last := Parsed(report).value.1 - 1;
    assert tail[j - i + last] == report[last];
    assert tail[j - i] == report[0];
    forall m | 0 <= m < |held| - i ensures !IsTerminator(tail[m]) {
      HeldHasNoTerminator(held, i + m);
    }
    if Parsed(tail).Some? {
      ParsedShape(tail);
      if Parsed(tail).value.1 > j - i {
        ReportHasOneEscape(report, last);
        ReportHasOneEscape(tail, j - i);
      }
    }
  }

  lemma HeldHasNoTerminator(held: seq<Tagged>, i: nat)
    requires MayBeHeld(held) && i < |held|
    ensures !IsTerminator(held[i].b)
  {
    if IsIntroducerPrefix(Bytes(held)) { assert Bytes(held)[i] == INTRODUCER[i]; }
  }

  lemma {:induction false} ForeignReportIsReached<W(!new)>(
    sv: Server<W>, w: W, held: seq<Tagged>, s: seq<Tagged>, t: seq<Tagged>, i: nat, j: nat)
    requires MayBeHeld(held) && held <= s && |s| == |t| && i <= j < |held|
    requires Parsed(Bytes(s)[j..]).Some? && s[j].epoch != t[j].epoch
    ensures !PicturesAgree(sv, w, s[i..], t[i..])
    decreases j - i
  {
    hide Parsed, IsPartial, IsIntroducerPrefix, PicturesAgree;
    if i == j {
      ReportDisagrees(sv, w, s, t, j);
    } else {
      ForeignReportIsReached(sv, w, held, s, t, i + 1, j);
      PassesAsKey(held, s, i, j);
      KeyThenDisagrees(sv, w, s, t, i);
    }
  }

  /** Frame after frame as the server decodes them, holding bytes under their first one's picture. */
  function ServerReads<W(!new)>(sv: Server<W>, w: W, held: seq<Tagged>, frames: seq<seq<Tagged>>): (r: (seq<Item>, W))
    decreases |frames|
  {
    if frames == [] then ([], w) else
    var first := Decode(sv, w, held + frames[0]);
    var (items, last) := ServerReads(sv, first.mode, Relabelled(first.pending), frames[1..]);
    (first.items + items, last)
  }

  /** Of the bytes held over from frame to frame, none but the first starts a report under another picture. */
  ghost predicate NoForeign<W(!new)>(sv: Server<W>, w: W, held: seq<Tagged>, frames: seq<seq<Tagged>>)
    decreases |frames|
  {
    frames != [] ==>
      && !HoldsForeignReport(held, frames[0])
      && var first := Decode(sv, w, held + frames[0]); NoForeign(sv, first.mode, first.pending, frames[1..])
  }

  lemma PendingEnds<W(!new)>(sv: Server<W>, w: W, s: seq<Tagged>)
    ensures IsSuffix(Decode(sv, w, s).pending, s)
  {
    Streams(sv);
    PendingIsASuffix(Deciding(sv), w, s);
  }

  /** What is pending after a frame starts where the held bytes do, or after them. */
  lemma PendingStartsOutside<W(!new)>(sv: Server<W>, w: W, held: seq<Tagged>, frame: seq<Tagged>)
    requires MayBeHeld(held)
    ensures var p := Decode(sv, w, held + frame).pending;
            IsSuffix(p, held + frame) && (p == held + frame || |p| <= |frame|)
  {
    hide Parsed;
    var s := held + frame;
    var p := Decode(sv, w, s).pending;
    PendingEnds(sv, w, s);
    var k := |s| - |p|;
    if 0 < k < |held| {
      PendingMayBeHeld(sv, w, s);
      assert p[0] == s[k] == held[k] && Bytes(p)[0] == INTRODUCER[0];
      assert !IsIntroducerPrefix(Bytes(held)) by { assert held[k].b == ESC; }
      forall i | 0 <= i < |s| ensures !IsTerminator(s[i].b) {
        if i < k { HeldHasNoTerminator(held, i); } else { HeldHasNoTerminator(p, i - k); }
      }
      assert Bytes(held) <= Bytes(s);
      assert IsPartial(Bytes(s));
      PartialHolds(sv, w, s);
    }
  }

  lemma WholeReport<W(!new)>(sv: Server<W>, w: W, s: seq<Tagged>)
    requires Parsed(Bytes(s)).Some? && Parsed(Bytes(s)).value.1 == |s|
    ensures var (report, epoch) := (Parsed(Bytes(s)).value.0, s[0].epoch);
            Decode(sv, w, s) == Scanned([Pointer(report, epoch)], [], sv.handle(w, report, epoch))
  {
    hide Parsed;
    DecodeFront(sv, w, s);
    DecodeFront(sv, Decide(sv, w, s).mode, []);
    assert s[|s|..] == [];
  }

  lemma PartialHolds<W(!new)>(sv: Server<W>, w: W, s: seq<Tagged>)
    requires IsPartial(Bytes(s))
    ensures Decode(sv, w, s) == Scanned([], s, w)
  {
    PartialHasNoTerminator(Bytes(s));
    DecodeFront(sv, w, s);
  }

  /** A frame without such reports leaves the server holding the right bytes under the right picture. */
  lemma PendingRelabels<W(!new)>(sv: Server<W>, w: W, held: seq<Tagged>, frame: seq<Tagged>)
    requires MayBeHeld(held) && !HoldsForeignReport(held, frame)
    ensures var (x, y) := (Decode(sv, w, held + frame), Decode(sv, w, Relabelled(held) + frame));
            x.items == y.items && x.mode == y.mode && Relabelled(x.pending) == Relabelled(y.pending)
  {
    hide Parsed, IsPartial, IsIntroducerPrefix, PicturesAgree, HoldsForeignReport, Decode;
    var (s, t) := (held + frame, Relabelled(held) + frame);
    RelabelledBytes(held, frame);
    ForeignReportsMatter(sv, w, held, frame);
    TagsMatterAtReports(sv, w, s, t);
    PendingStartsOutside(sv, w, held, frame);
    var (p, q) := (Decode(sv, w, s).pending, Decode(sv, w, t).pending);
    PendingEnds(sv, w, t);
    if |p| <= |frame| {
      assert p == frame[|frame| - |p|..] == q;
    } else {
      assert q == t;
    }
  }

  /**
   Over any run of frames, every report is acted on under its first byte's picture if and only if no
   frame completes a report that started, under another number, past the first of the held bytes.
   */
  lemma {:induction false} EveryReportHasItsPicture<W(!new)>(
    sv: Server<W>, w: W, held: seq<Tagged>, frames: seq<seq<Tagged>>)
    requires MayBeHeld(held)
    ensures Progresses(Deciding(sv))
    ensures ServerReads(sv, w, Relabelled(held), frames).0 == ScanReads(Deciding(sv), w, held, frames).items
       <==> NoForeign(sv, w, held, frames)
    ensures NoForeign(sv, w, held, frames)
       ==> ServerReads(sv, w, Relabelled(held), frames).1 == ScanReads(Deciding(sv), w, held, frames).mode
    decreases |frames|
  {
    Streams(sv);
    if frames != [] {
      var (first, second) := (Decode(sv, w, held + frames[0]), Decode(sv, w, Relabelled(held) + frames[0]));
      var right := ScanReads(Deciding(sv), first.mode, first.pending, frames[1..]).items;
      var left := ServerReads(sv, second.mode, Relabelled(second.pending), frames[1..]).0;
      if HoldsForeignReport(held, frames[0]) {
        RelabelledBytes(held, frames[0]);
        ForeignReportsMatter(sv, w, held, frames[0]);
        TagsMatterAtReports(sv, w, held + frames[0], Relabelled(held) + frames[0]);
        DivergeAfter(first.items, right, second.items, left);
      } else {
        PendingRelabels(sv, w, held, frames[0]);
        PendingMayBeHeld(sv, w, held + frames[0]);
        EveryReportHasItsPicture(sv, first.mode, first.pending, frames[1..]);
        assert (first.items + left)[|first.items|..] == left && (first.items + right)[|first.items|..] == right;
      }
    }
  }

  /**
   An introducer left over from one frame, followed in the next by the first part of a report, is
   held with it; the report, once complete, is then acted on under the wrong picture.
   */
  lemma StrayIntroducerTakesThePicture<W(!new)>(
    sv: Server<W>, w: W, text: seq<Byte>, k: nat, stray: Epoch, own: Epoch, last: Epoch)
    requires Parsed(text).Some? && Parsed(text).value.1 == |text| && 3 <= k < |text| && stray != own
    ensures var held := TagAll(INTRODUCER, stray) + TagAll(text[..k], own);
            var frame := TagAll(text[k..], last);
            && MayBeHeld(held)
            && Decode(sv, w, Relabelled(held) + frame).items != Decode(sv, w, held + frame).items
  {
    hide Parsed;
    var held := TagAll(INTRODUCER, stray) + TagAll(text[..k], own);
    var frame := TagAll(text[k..], last);
    ReportEndsWithItsTerminator(text);
    assert Bytes(held) == INTRODUCER + text[..k];
    assert forall i :: 0 <= i < k ==> Bytes(held)[i + 3] == text[i];
    assert IsPartial(Bytes(held));
    HeldReportsKeepTheirPicture(sv, w, held, frame);
    assert Bytes(held + frame)[3..] == text;
    assert held[3].epoch == own && held[0].epoch == stray;
  }

  lemma ReportEndsWithItsTerminator(text: seq<Byte>)
    requires Parsed(text).Some? && Parsed(text).value.1 == |text|
    ensures forall i :: 0 <= i < |text| - 1 ==> !IsTerminator(text[i])
  {
    assert text[0] == INTRODUCER[0] && text[1] == INTRODUCER[1] && text[2] == INTRODUCER[2];
  }

  lemma ReportDisagrees<W(!new)>(sv: Server<W>, w: W, s: seq<Tagged>, t: seq<Tagged>, i: nat)
    requires |s| == |t| && i < |s| && Parsed(Bytes(s)[i..]).Some? && s[i].epoch != t[i].epoch
    ensures !PicturesAgree(sv, w, s[i..], t[i..])
  {
    var (report, n) := Parsed(Bytes(s)[i..]).value;
    ReportDecides(sv, w, s, i, report, n);
  }

  lemma KeyThenDisagrees<W(!new)>(sv: Server<W>, w: W, s: seq<Tagged>, t: seq<Tagged>, i: nat)
    requires |s| == |t| && i < |s|
    requires var tail := Bytes(s)[i..];
             Parsed(tail).None? && !IsPartial(tail) && !IsIntroducerPrefix(tail)
    requires !PicturesAgree(sv, w, s[i + 1..], t[i + 1..])
    ensures !PicturesAgree(sv, w, s[i..], t[i..])
  {
    KeyDecides(sv, w, s, i);
    assert s[i..][1..] == s[i + 1..] && t[i..][1..] == t[i + 1..];
  }

  // ---------------------------------------------------------------- the server's loop

  /** The keyboard bytes among the items. */
  function Keys(items: seq<Item>): seq<Byte>
  {
    if items == [] then [] else (if items[0].Key? then [items[0].b] else []) + Keys(items[1..])
  }

  lemma {:induction false} KeysConcat(a: seq<Item>, b: seq<Item>)
    ensures Keys(a + b) == Keys(a) + Keys(b)
  {
    if a == [] {
      assert a + b == b;
    } else {
      assert (a + b)[1..] == a[1..] + b && (a + b)[0] == a[0];
      KeysConcat(a[1..], b);
      var head := if a[0].Key? then [a[0].b] else [];
      assert head + (Keys(a[1..]) + Keys(b)) == head + Keys(a[1..]) + Keys(b);
    }
  }

  ghost predicate GoesOn<W(!new)>(
    sv: Server<W>, whole: Scanned<Tagged, Item, W>, w: W, s: seq<Tagged>, i: nat, done: seq<Item>)
  {
    Streams(sv);
    Continues(Deciding(sv), whole, w, s, i, done)
  }

  lemma StartDecoding<W(!new)>(sv: Server<W>, w: W, s: seq<Tagged>)
    ensures GoesOn(sv, Decode(sv, w, s), w, s, 0, [])
  {
    assert s[0..] == s;
    assert [] + Decode(sv, w, s).items == Decode(sv, w, s).items;
  }

  lemma ReportDecides<W>(sv: Server<W>, w: W, s: seq<Tagged>, i: nat, report: Report, n: nat)
    requires i < |s| && Parsed(Bytes(s)[i..]) == Some((report, n))
    ensures i + n <= |s|
      && Decide(sv, w, s[i..]) == Take([Pointer(report, s[i].epoch)], n, sv.handle(w, report, s[i].epoch))
  {
    assert Bytes(s[i..]) == Bytes(s)[i..];
  }

  lemma KeyDecides<W>(sv: Server<W>, w: W, s: seq<Tagged>, i: nat)
    requires i < |s|
    requires var tail := Bytes(s)[i..];
             Parsed(tail).None? && !IsPartial(tail) && !(IsIntroducerPrefix(tail) && sv.selecting(w))
    ensures Decide(sv, w, s[i..]) == Take([Key(s[i].b)], 1, w)
  {
    assert Bytes(s[i..]) == Bytes(s)[i..];
  }

  lemma TakeReport<W(!new)>(
    sv: Server<W>, whole: Scanned<Tagged, Item, W>, w: W, s: seq<Tagged>, i: nat, done: seq<Item>, report: Report,
    next: W, i': nat, done': seq<Item>)
    requires i < |s| && GoesOn(sv, whole, w, s, i, done)
    requires i <= i' && Parsed(Bytes(s)[i..]) == Some((report, i' - i))
    requires next == sv.handle(w, report, s[i].epoch) && done' == done + [Pointer(report, s[i].epoch)]
    ensures i < i' <= |s| && GoesOn(sv, whole, next, s, i', done')
    ensures Keys(done') == Keys(done)
  {
    hide Parsed;
    Streams(sv);
    ReportDecides(sv, w, s, i, report, i' - i);
    ContinuesPast(Deciding(sv), whole, w, s, i, done);
    KeysConcat(done, [Pointer(report, s[i].epoch)]);
  }

  lemma TakeKey<W(!new)>(
    sv: Server<W>, whole: Scanned<Tagged, Item, W>, w: W, s: seq<Tagged>, i: nat, done: seq<Item>, i': nat,
    done': seq<Item>)
    requires i < |s| && GoesOn(sv, whole, w, s, i, done)
    requires var tail := Bytes(s)[i..];
             Parsed(tail).None? && !IsPartial(tail) && !(IsIntroducerPrefix(tail) && sv.selecting(w))
    requires i' == i + 1 && done' == done + [Key(s[i].b)]
    ensures GoesOn(sv, whole, w, s, i', done')
    ensures Keys(done') == Keys(done) + [s[i].b]
  {
    hide Parsed;
    Streams(sv);
    KeyDecides(sv, w, s, i);
    ContinuesPast(Deciding(sv), whole, w, s, i, done);
    KeysConcat(done, [Key(s[i].b)]);
  }

  lemma StopAt<W(!new)>(sv: Server<W>, whole: Scanned<Tagged, Item, W>, w: W, s: seq<Tagged>, i: nat, done: seq<Item>)
    requires i <= |s| && GoesOn(sv, whole, w, s, i, done)
    requires var tail := Bytes(s)[i..];
             tail == [] || (Parsed(tail).None? && (IsPartial(tail) || (IsIntroducerPrefix(tail) && sv.selecting(w))))
    ensures whole == Scanned(done, s[i..], w) && Bytes(s[i..]) == Bytes(s)[i..]
  {
    Streams(sv);
    assert Bytes(s[i..]) == Bytes(s)[i..];
    ContinuesPast(Deciding(sv), whole, w, s, i, done);
  }

  /** The scanning loop over held and new bytes; a report is handled as soon as it is found. */
  method ExtractReports<W(!new)>(
    sv: Server<W>, world: W, combined: seq<Byte>, inheritedLen: nat, inheritedEpoch: Epoch, frameEpoch: Epoch,
    ghost s: seq<Tagged>)
    returns (rest: seq<Byte>, pending: seq<Byte>, pendingEpoch: Epoch, w: W)
    requires Bytes(s) == combined
    requires forall i :: 0 <= i < |s| ==> s[i].epoch == if i < inheritedLen then inheritedEpoch else frameEpoch
    ensures var r := Decode(sv, world, s);
            rest == Keys(r.items) && pending == Bytes(r.pending) && pendingEpoch == FirstEpoch(r.pending) && w == r.mode
  {
    hide Parsed;
    ghost var whole, done: seq<Item> := Decode(sv, world, s), [];
    StartDecoding(sv, world, s);
    rest, pending, pendingEpoch, w := [], [], None, world;
    var i := 0;
    while i < |combined|
      invariant 0 <= i <= |combined|
      invariant GoesOn(sv, whole, w, s, i, done)
      invariant rest == Keys(done)
      invariant pending == [] && pendingEpoch == None
    {
      var epoch := if i < inheritedLen then inheritedEpoch else frameEpoch;
      assert s[i] == Tagged(combined[i], epoch);
      var tail := combined[i..];
      var parsed := Parse(tail);
      if parsed.Some? {
        var next, i' := sv.handle(w, parsed.value.0, epoch), i + parsed.value.1;
        ghost var done' := done + [Pointer(parsed.value.0, epoch)];
        TakeReport(sv, whole, w, s, i, done, parsed.value.0, next, i', done');
        w, i, done := next, i', done';
      } else if IsPartial(tail) || (IsIntroducerPrefix(tail) && sv.selecting(w)) {
        StopAt(sv, whole, w, s, i, done);
        pending, pendingEpoch := tail, epoch;
        return;
      } else {
        ghost var done' := done + [Key(combined[i])];
        TakeKey(sv, whole, w, s, i, done, i + 1, done');
        done := done';
        rest := rest + [combined[i]];
        i := i + 1;
      }
    }
    StopAt(sv, whole, w, s, i, done);
  }

  class ClientInput<W(!new)> {
    const server: Server<W>
    var world: W
    var pendingMouse: seq<Byte>
    var pendingMouseEpoch: Epoch

    constructor (server: Server<W>, world: W)
      ensures this.server == server && this.world == world && pendingMouse == [] && pendingMouseEpoch == None
    {
      this.server, this.world, pendingMouse, pendingMouseEpoch := server, world, [], None;
    }

    /** Act on the reports in one frame, in order, and return the bytes that are keyboard input. */
    method ExtractAndHandleMouse(bytes: seq<Byte>, frameEpoch: Epoch) returns (rest: seq<Byte>)
      modifies this
      ensures var r :=
        Decode(server, old(world), TagAll(old(pendingMouse), old(pendingMouseEpoch)) + TagAll(bytes, frameEpoch));
              && rest == Keys(r.items)
              && world == r.mode
              && pendingMouse == Bytes(r.pending)
              && pendingMouseEpoch == FirstEpoch(r.pending)
    {
      var inheritedEpoch := if pendingMouse == [] then None else pendingMouseEpoch;
      ghost var s := TagAll(pendingMouse, pendingMouseEpoch) + TagAll(bytes, frameEpoch);
      rest, pendingMouse, pendingMouseEpoch, world :=
        ExtractReports(server, world, pendingMouse + bytes, |pendingMouse|, inheritedEpoch, frameEpoch, s);
    }
  }
}
