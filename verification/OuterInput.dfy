/**
 Decoding what the outer terminal itself sends: focus reports are taken out of the byte stream,
 except inside a bracketed paste, and everything else passes through in order.
 */
module OuterInput {
  import opened Common
  import opened Streaming

  /** `CSI I`, `CSI O`, `CSI 200~` and `CSI 201~`. */
  const FOCUS_GAINED: seq<Byte> := [ESC, 0x5b, 0x49]
  const FOCUS_LOST: seq<Byte> := [ESC, 0x5b, 0x4f]
  const PASTE_START: seq<Byte> := [ESC, 0x5b, 0x32, 0x30, 0x30, 0x7e]
  const PASTE_END: seq<Byte> := [ESC, 0x5b, 0x32, 0x30, 0x31, 0x7e]

  datatype Event = Input(bytes: seq<Byte>) | FocusChanged(focused: bool)

  function FocusReport(focused: bool): seq<Byte> { if focused then FOCUS_GAINED else FOCUS_LOST }

  // ---------------------------------------------------------------- specification

  /** The stream item by item: an ordinary byte, or a whole focus report. */
  datatype Item = Plain(b: Byte) | Focus(focused: bool)

  function Plains(s: seq<Byte>): seq<Item>
  {
    seq(|s|, i requires 0 <= i < |s| => Plain(s[i]))
  }

  /** The bytes an item stands for. */
  function Spell(item: Item): seq<Byte>
  {
    match item case Plain(b) => [b] case Focus(f) => FocusReport(f)
  }

  predicate StartsWith(s: seq<Byte>, prefix: seq<Byte>) { prefix <= s }

  /** What the front of a stream decides, inside a paste or outside. */
  function Decide(paste: bool, s: seq<Byte>): Front<Item, bool>
  {
    if s == [] then Hold
    else if paste then
      if StartsWith(s, PASTE_END) then Take(Plains(PASTE_END), |PASTE_END|, false)
      else if StartsWith(PASTE_END, s) then Hold
      else Take([Plain(s[0])], 1, true)
    else if StartsWith(s, PASTE_START) then Take(Plains(PASTE_START), |PASTE_START|, true)
    else if StartsWith(s, FOCUS_GAINED) then Take([Focus(true)], |FOCUS_GAINED|, false)
    else if StartsWith(s, FOCUS_LOST) then Take([Focus(false)], |FOCUS_GAINED|, false)
    else if StartsWith(FOCUS_GAINED, s) || StartsWith(FOCUS_LOST, s) || StartsWith(PASTE_START, s) then Hold
    else Take([Plain(s[0])], 1, false)
  }

  /** What may be held back: a proper prefix of a marker that is legal in the current mode. */
  predicate LegalPending(paste: bool, pending: seq<Byte>)
  {
    if paste then pending < PASTE_END
    else pending < FOCUS_GAINED || pending < FOCUS_LOST || pending < PASTE_START
  }

  lemma HeldIsLegal(paste: bool, s: seq<Byte>)
    ensures Decide(paste, s).Hold? <==> LegalPending(paste, s)
  {
    PrefixAt(FOCUS_GAINED, s);
    PrefixAt(FOCUS_LOST, s);
    if LegalPending(false, s) && |s| > 2 {
      assert s[2] == PASTE_START[2];
      assert PASTE_START[2] != FOCUS_GAINED[2] && PASTE_START[2] != FOCUS_LOST[2];
    }
  }

  lemma PrefixAt(m: seq<Byte>, s: seq<Byte>)
    ensures m <= s ==> forall i :: 0 <= i < |m| ==> s[i] == m[i]
    ensures m <= s && |m| == |s| ==> m == s
  {
  }

  lemma PrefixWithMore(m: seq<Byte>, s: seq<Byte>, t: seq<Byte>)
    ensures m <= s ==> m <= s + t
    ensures !(m <= s) && !(s <= m) ==> !(m <= s + t) && !(s + t <= m)
  {
    if m <= s {
      assert (s + t)[..|m|] == s[..|m|];
    }
    if m <= s + t && |m| <= |s| {
      assert s[..|m|] == (s + t)[..|m|];
    }
    if m <= s + t && |s| < |m| {
      assert m[..|s|] == (s + t)[..|m|][..|s|] == s;
    }
    if s + t <= m {
      assert m[..|s|] == m[..|s + t|][..|s|] == s;
    }
  }

  /** A decision once taken does not depend on what follows. */
  lemma DecisionStands(paste: bool, s: seq<Byte>, t: seq<Byte>)
    requires Decide(paste, s).Take?
    ensures Decide(paste, s + t) == Decide(paste, s)
  {
    PrefixWithMore(PASTE_END, s, t);
    PrefixWithMore(PASTE_START, s, t);
    PrefixWithMore(FOCUS_GAINED, s, t);
    PrefixWithMore(FOCUS_LOST, s, t);
    if !paste && |s| >= 3 {
      assert (s + t)[2] == s[2];
      PrefixAt(PASTE_START, s + t);
      PrefixAt(FOCUS_GAINED, s + t);
      PrefixAt(FOCUS_GAINED, s);
      PrefixAt(FOCUS_LOST, s);
    }
  }

  lemma {:induction false} RenderPlains(s: seq<Byte>)
    ensures Render(Plains(s), Spell) == s
  {
    if s != [] {
      assert Plains(s)[1..] == Plains(s[1..]);
      RenderPlains(s[1..]);
    }
  }

  lemma DecisionIsFaithful(paste: bool, s: seq<Byte>)
    requires Decide(paste, s).Take?
    ensures 0 < Decide(paste, s).n <= |s|
    ensures Render(Decide(paste, s).items, Spell) == s[..Decide(paste, s).n]
  {
    RenderPlains(PASTE_END);
    RenderPlains(PASTE_START);
    var f := Decide(paste, s);
    if |f.items| == 1 {
      assert f.items[1..] == [];
    }
  }

  /** The decoder meets what a streaming decoder needs. */
  lemma IsStreaming()
    ensures Progresses(Decide) && DecisionsStand(Decide) && Faithful(Decide, Spell)
  {
    forall paste: bool, s: seq<Byte> | Decide(paste, s).Take?
      ensures 0 < Decide(paste, s).n <= |s| && Render(Decide(paste, s).items, Spell) == s[..Decide(paste, s).n]
    {
      DecisionIsFaithful(paste, s);
    }
    forall paste: bool, s: seq<Byte>, t: seq<Byte> | Decide(paste, s).Take?
      ensures Decide(paste, s + t) == Decide(paste, s)
    {
      DecisionStands(paste, s, t);
    }
  }

  /** Decode a whole buffer. */
  ghost function Decode(paste: bool, s: seq<Byte>): Scanned<Byte, Item, bool>
  {
    IsStreaming();
    Scan(Decide, paste, s)
  }

  lemma DecodeFront(paste: bool, s: seq<Byte>)
    ensures Decide(paste, s).Take? ==> Decide(paste, s).n <= |s|
    ensures Decode(paste, s) ==
      match Decide(paste, s)
      case Hold => Scanned([], s, paste)
      case Take(items, n, next) => if n <= |s| then Decode(next, s[n..]).After(items) else Scanned([], s, paste)
  {
    IsStreaming();
  }

  /** Nothing is lost, and what is held back is legal. */
  lemma DecodeConserves(paste: bool, s: seq<Byte>)
    ensures var r := Decode(paste, s);
            Render(r.items, Spell) + r.pending == s && LegalPending(r.mode, r.pending)
  {
    IsStreaming();
    ScanConserves(Decide, Spell, paste, s);
    PendingHolds(Decide, paste, s);
    HeldIsLegal(Decode(paste, s).mode, Decode(paste, s).pending);
  }

  // ---------------------------------------------------------------- events

  function Flatten(events: seq<Event>): seq<Item>
  {
    if events == [] then [] else
    (match events[0] case Input(bytes) => Plains(bytes) case FocusChanged(f) => [Focus(f)]) + Flatten(events[1..])
  }

  /** Inputs are maximal: none is empty and no two are adjacent. */
  predicate Grouped(events: seq<Event>)
  {
    events != [] ==>
      && (events[0].Input? ==> events[0].bytes != [] && (|events| > 1 ==> events[1].FocusChanged?))
      && Grouped(events[1..])
  }

  lemma {:induction false} GroupedAppend(events: seq<Event>, e: Event)
    requires Grouped(events) && (e.Input? ==> e.bytes != [] && (events == [] || events[|events| - 1].FocusChanged?))
    ensures Grouped(events + [e])
  {
    if events != [] {
      assert (events + [e])[1..] == events[1..] + [e];
      GroupedAppend(events[1..], e);
    }
  }

  /** The leading run of ordinary bytes. */
  function Leading(items: seq<Item>): (n: nat)
    ensures n <= |items| && (n < |items| ==> items[n].Focus?) && forall i :: 0 <= i < n ==> items[i].Plain?
  {
    if items == [] || items[0].Focus? then 0 else 1 + Leading(items[1..])
  }

  function BytesOf(items: seq<Item>): seq<Byte>
    requires forall i :: 0 <= i < |items| ==> items[i].Plain?
  {
    seq(|items|, i requires 0 <= i < |items| => items[i].b)
  }

  /** The one grouped event list for a stream of items: adjacent bytes are merged. */
  function Group(items: seq<Item>): seq<Event>
    decreases |items|
  {
    if items == [] then []
    else if items[0].Focus? then [FocusChanged(items[0].focused)] + Group(items[1..])
    else [Input(BytesOf(items[..Leading(items)]))] + Group(items[Leading(items)..])
  }

  lemma {:induction false} GroupIsUnique(events: seq<Event>)
    requires Grouped(events)
    ensures Group(Flatten(events)) == events
    decreases |events|
  {
    if events != [] {
      var rest := events[1..];
      GroupIsUnique(rest);
      match events[0]
      case FocusChanged(f) =>
        assert Flatten(events)[1..] == Flatten(rest);
      case Input(bytes) =>
        var items := Flatten(events);
        assert items == Plains(bytes) + Flatten(rest);
        assert rest != [] ==> rest[0] == events[1] && Flatten(rest)[0].Focus?;
        assert Leading(items) == |bytes| by {
          assert forall i :: 0 <= i < |bytes| ==> items[i].Plain?;
          assert Leading(items) < |items| ==> items[Leading(items)].Focus?;
        }
        assert items[..|bytes|] == Plains(bytes) && items[|bytes|..] == Flatten(rest);
        assert BytesOf(Plains(bytes)) == bytes;
    }
  }

  lemma GroupFront(items: seq<Item>)
    requires items != []
    ensures items[0].Focus? ==> Group(items) == [FocusChanged(items[0].focused)] + Group(items[1..])
    ensures items[0].Plain? ==>
      var n := Leading(items);
      && 0 < n && Group(items) == [Input(BytesOf(items[..n]))] + Group(items[n..])
      && Plains(BytesOf(items[..n])) == items[..n]
  {
  }

  lemma FlattenFront(e: Event, rest: seq<Event>)
    ensures Flatten([e] + rest) ==
            (match e case Input(bytes) => Plains(bytes) case FocusChanged(f) => [Focus(f)]) + Flatten(rest)
  {
    assert ([e] + rest)[1..] == rest;
  }

  /** Grouping keeps the stream: its items can be read off the events again. */
  lemma {:induction false} GroupKeepsItems(items: seq<Item>)
    ensures Flatten(Group(items)) == items
    decreases |items|
  {
    hide Group, Flatten, Leading;
    if items == [] {
      NothingGrouped();
    } else {
      GroupFront(items);
      var n := if items[0].Focus? then 1 else Leading(items);
      GroupKeepsItems(items[n..]);
      if items[0].Focus? {
        FlattenFront(FocusChanged(items[0].focused), Group(items[1..]));
        assert items == [items[0]] + items[1..];
      } else {
        FlattenFront(Input(BytesOf(items[..n])), Group(items[n..]));
        assert items == items[..n] + items[n..];
      }
    }
  }

  lemma NothingGrouped()
    ensures Flatten(Group([])) == []
  {
  }

  lemma {:induction false} FlattenConcat(a: seq<Event>, b: seq<Event>)
    ensures Flatten(a + b) == Flatten(a) + Flatten(b)
  {
    if a == [] {
      assert a + b == b;
    } else {
      assert (a + b)[1..] == a[1..] + b;
      FlattenConcat(a[1..], b);
    }
  }

  /** Inputs are maximal so far, and the next byte may start a new one. */
  predicate OpenEnded(events: seq<Event>)
  {
    Grouped(events) && (events == [] || events[|events| - 1].FocusChanged?)
  }

  /** What a read returns and leaves, given what its buffer decodes to. */
  ghost predicate Yields(r: Scanned<Byte, Item, bool>, events: seq<Event>, held: seq<Byte>, paste: bool)
  {
    events == Group(r.items) && held == r.pending && paste == r.mode
  }

  /** Decoding `rest` after what is already in `events` and `raw` completes the whole. */
  ghost predicate Completes(
    whole: Scanned<Byte, Item, bool>, paste: bool, rest: seq<Byte>, events: seq<Event>, raw: seq<Byte>)
  {
    Decode(paste, rest).After(Flatten(events) + Plains(raw)) == whole
  }

  lemma TakeStep(paste: bool, s: seq<Byte>, at: nat, before: seq<Item>)
    requires at < |s| && Decide(paste, s[at..]).Take?
    ensures var f := Decide(paste, s[at..]);
            at + f.n <= |s| && Decode(paste, s[at..]).After(before)
              == Decode(f.mode, s[at + f.n..]).After(before + f.items)
  {
    DecodeFront(paste, s[at..]);
    IsStreaming();
    var f := Decide(paste, s[at..]);
    assert s[at..][f.n..] == s[at + f.n..];
    AfterAfter(Decode(f.mode, s[at + f.n..]), before, f.items);
  }

  lemma CollectStep(
    whole: Scanned<Byte, Item, bool>, paste: bool, s: seq<Byte>, at: nat, events: seq<Event>, raw: seq<Byte>,
    bytes: seq<Byte>, mode: bool)
    requires at < |s| && Completes(whole, paste, s[at..], events, raw)
    requires Decide(paste, s[at..]) == Take(Plains(bytes), |bytes|, mode)
    ensures at + |bytes| <= |s| && Completes(whole, mode, s[at + |bytes|..], events, raw + bytes)
  {
    hide Decide, Decode, Flatten;
    TakeStep(paste, s, at, Flatten(events) + Plains(raw));
    assert Flatten(events) + Plains(raw) + Plains(bytes) == Flatten(events) + Plains(raw + bytes);
  }

  lemma AppendFocus(events: seq<Event>, focused: bool)
    requires Grouped(events)
    ensures OpenEnded(events + [FocusChanged(focused)])
    ensures Flatten(events + [FocusChanged(focused)]) == Flatten(events) + [Focus(focused)]
  {
    FlattenConcat(events, [FocusChanged(focused)]);
    GroupedAppend(events, FocusChanged(focused));
    assert [FocusChanged(focused)][1..] == [];
  }

  lemma FocusStep(
    whole: Scanned<Byte, Item, bool>, s: seq<Byte>, at: nat, events: seq<Event>, raw: seq<Byte>, pushed: seq<Event>,
    focused: bool)
    requires at < |s| && Completes(whole, false, s[at..], events, raw)
    requires Decide(false, s[at..]) == Take([Focus(focused)], |FOCUS_GAINED|, false)
    requires Grouped(pushed) && Flatten(pushed) == Flatten(events) + Plains(raw)
    ensures at + |FOCUS_GAINED| <= |s|
    ensures Completes(whole, false, s[at + |FOCUS_GAINED|..], pushed + [FocusChanged(focused)], [])
    ensures OpenEnded(pushed + [FocusChanged(focused)])
  {
    TakeStep(false, s, at, Flatten(pushed));
    AppendFocus(pushed, focused);
    assert Plains([]) == [];
    assert Flatten(pushed) + [Focus(focused)] + [] == Flatten(pushed) + [Focus(focused)];
  }

  lemma FinishStep(
    whole: Scanned<Byte, Item, bool>, paste: bool, rest: seq<Byte>, events: seq<Event>, raw: seq<Byte>,
    pushed: seq<Event>)
    requires Completes(whole, paste, rest, events, raw) && Decide(paste, rest).Hold?
    requires Grouped(pushed) && Flatten(pushed) == Flatten(events) + Plains(raw)
    ensures Yields(whole, pushed, rest, paste)
  {
    DecodeFront(paste, rest);
    assert Flatten(events) + Plains(raw) + [] == Flatten(pushed);
    GroupIsUnique(pushed);
  }

  lemma StartStep(paste: bool, s: seq<Byte>)
    ensures Completes(Decode(paste, s), paste, s[0..], [], [])
  {
    assert s[0..] == s && Flatten([]) + Plains([]) == [];
    assert [] + Decode(paste, s).items == Decode(paste, s).items;
  }

  /** What can be taken: one focus report outside a paste, or plain bytes. */
  lemma TakenItems(paste: bool, s: seq<Byte>)
    ensures match Decide(paste, s)
            case Hold => true
            case Take(items, n, next) =>
              && 0 < n <= |s| && items != []
              && (if items[0].Focus? then !paste && !next && n == |FOCUS_GAINED| && items == [items[0]]
                  else items == Plains(s[..n]))
  {
  }

  // ---------------------------------------------------------------- the decoder

  class OuterInputDecoder {
    var pending: seq<Byte>
    var inBracketedPaste: bool

    ghost predicate Valid()
      reads this
    {
      LegalPending(inBracketedPaste, pending)
    }

    constructor ()
      ensures Valid() && pending == [] && !inBracketedPaste
    {
      pending := [];
      inBracketedPaste := false;
    }

    /** Decode one read, after the bytes held back from the previous one. */
    method Feed(bytes: seq<Byte>) returns (events: seq<Event>)
      modifies this
      ensures Yields(Decode(old(inBracketedPaste), old(pending) + bytes), events, pending, inBracketedPaste)
      ensures Valid()
    {
      DecodeConserves(inBracketedPaste, pending + bytes);
      events, pending, inBracketedPaste := FeedBuffer(inBracketedPaste, pending + bytes);
    }

    /** Release what is held back as ordinary input; a held paste end also ends the paste. */
    method FlushPending() returns (event: Option<Event>)
      modifies this
      ensures event == if old(pending) == [] then None else Some(Input(old(pending)))
      ensures pending == []
      ensures inBracketedPaste == (old(inBracketedPaste) && old(pending) == [])
      ensures Valid()
    {
      if pending == [] {
        return None;
      }
      if inBracketedPaste {
        inBracketedPaste := false;
      }
      event := Some(Input(pending));
      pending := [];
    }
  }

  /** Move collected bytes, if any, into the event list. */
  method PushInput(events: seq<Event>, bytes: seq<Byte>) returns (events': seq<Event>)
    requires OpenEnded(events)
    ensures Grouped(events') && Flatten(events') == Flatten(events) + Plains(bytes)
  {
    if bytes == [] {
      return events;
    }
    events' := events + [Input(bytes)];
    GroupedAppend(events, Input(bytes));
    FlattenConcat(events, [Input(bytes)]);
    assert [Input(bytes)][1..] == [];
  }

  /** The last collected bytes go out; what is undecided is held back. */
  method FinishRead(
    ghost whole: Scanned<Byte, Item, bool>, ghost paste: bool, ghost rest: seq<Byte>, events: seq<Event>,
    raw: seq<Byte>)
    returns (events': seq<Event>)
    requires Completes(whole, paste, rest, events, raw) && OpenEnded(events)
    requires rest == [] || Decide(paste, rest).Hold?
    ensures Yields(whole, events', rest, paste)
  {
    events' := PushInput(events, raw);
    FinishStep(whole, paste, rest, events, raw, events');
  }

  /** One turn of the decoding loop on a decided front: take it and move the cursor past it. */
  method TakeFront(
    ghost whole: Scanned<Byte, Item, bool>, paste: bool, s: seq<Byte>, cursor: nat, events: seq<Event>, raw: seq<Byte>)
    returns (events': seq<Event>, raw': seq<Byte>, cursor': nat, paste': bool)
    requires cursor < |s| && Completes(whole, paste, s[cursor..], events, raw) && OpenEnded(events)
    requires Decide(paste, s[cursor..]).Take?
    ensures cursor < cursor' <= |s|
    ensures Completes(whole, paste', s[cursor'..], events', raw') && OpenEnded(events')
  {
    hide Decide, Decode, Flatten, Grouped, Completes;
    var tail := s[cursor..];
    TakenItems(paste, tail);
    var Take(items, n, next) := Decide(paste, tail);
    cursor', paste' := cursor + n, next;
    if items[0].Focus? {
      var pushed := PushInput(events, raw);
      FocusStep(whole, s, cursor, events, raw, pushed, items[0].focused);
      events', raw' := pushed + [FocusChanged(items[0].focused)], [];
    } else {
      CollectStep(whole, paste, s, cursor, events, raw, tail[..n], next);
      events', raw' := events, raw + tail[..n];
    }
  }

  /** The decoding loop: one cursor over the buffer, collecting raw bytes between focus reports. */
  method FeedBuffer(paste0: bool, combined: seq<Byte>) returns (events: seq<Event>, held: seq<Byte>, paste: bool)
    ensures Yields(Decode(paste0, combined), events, held, paste)
  {
    events, paste := [], paste0;
    var raw: seq<Byte> := [];
    var cursor := 0;
    ghost var whole := Decode(paste, combined);
    StartStep(paste, combined);
    while cursor < |combined|
      invariant 0 <= cursor <= |combined|
      invariant Completes(whole, paste, combined[cursor..], events, raw)
      invariant OpenEnded(events)
    {
      if Decide(paste, combined[cursor..]).Hold? {
        break;
      }
      events, raw, cursor, paste := TakeFront(whole, paste, combined, cursor, events, raw);
    }
    held := combined[cursor..];
    events := FinishRead(whole, paste, held, events, raw);
  }

  // ---------------------------------------------------------------- whole runs

  /**
   Chunking independence: however a stream is cut into reads, with no idle flush between them,
   the items, and so the merged events, and the final state are those of one read of the whole.
   */
  lemma CutsDoNotMatter(paste: bool, pending: seq<Byte>, chunks: seq<seq<Byte>>)
    requires LegalPending(paste, pending)
    ensures Progresses(Decide)
    ensures ScanReads(Decide, paste, pending, chunks) == Decode(paste, pending + Flat(chunks))
  {
    IsStreaming();
    HeldIsLegal(paste, pending);
    ChunkingDoesNotMatter(Decide, paste, pending, chunks);
  }

  /** What a read after each other of several reads returns, all put together. */
  ghost function FedEvents(paste: bool, pending: seq<Byte>, chunks: seq<seq<Byte>>): seq<Event>
    decreases |chunks|
  {
    if chunks == [] then [] else
    var r := Decode(paste, pending + chunks[0]);
    Group(r.items) + FedEvents(r.mode, r.pending, chunks[1..])
  }

  lemma {:induction false} FedItems(paste: bool, pending: seq<Byte>, chunks: seq<seq<Byte>>)
    ensures Progresses(Decide)
    ensures Flatten(FedEvents(paste, pending, chunks)) == ScanReads(Decide, paste, pending, chunks).items
    decreases |chunks|
  {
    IsStreaming();
    if chunks != [] {
      var r := Decode(paste, pending + chunks[0]);
      FedItems(r.mode, r.pending, chunks[1..]);
      FlattenConcat(Group(r.items), FedEvents(r.mode, r.pending, chunks[1..]));
      GroupKeepsItems(r.items);
    }
  }

  /**
   Chunking independence of events: the events of all reads of a stream, adjacent inputs merged, are
   those of one read of the whole, and so are the mode and the bytes held back at the end.
   */
  lemma CutsDoNotMatterToEvents(paste: bool, pending: seq<Byte>, chunks: seq<seq<Byte>>)
    requires LegalPending(paste, pending)
    ensures Progresses(Decide)
    ensures var whole := Decode(paste, pending + Flat(chunks));
      && Group(Flatten(FedEvents(paste, pending, chunks))) == Group(whole.items)
      && ScanReads(Decide, paste, pending, chunks).mode == whole.mode
      && ScanReads(Decide, paste, pending, chunks).pending == whole.pending
  {
    FedItems(paste, pending, chunks);
    CutsDoNotMatter(paste, pending, chunks);
  }

  datatype State = State(paste: bool, pending: seq<Byte>)

  datatype Op = Read(bytes: seq<Byte>) | IdleFlush

  /** The items one call emits, and the state it leaves. */
  ghost function Step(st: State, op: Op): (seq<Item>, State)
  {
    match op
    case Read(bytes) =>
      var r := Decode(st.paste, st.pending + bytes);
      (r.items, State(r.mode, r.pending))
    case IdleFlush => (Plains(st.pending), State(st.paste && st.pending == [], []))
  }

  ghost function Run(st: State, ops: seq<Op>): (seq<Item>, State)
    decreases |ops|
  {
    if ops == [] then ([], st) else
    var (items, next) := Step(st, ops[0]);
    var (rest, last) := Run(next, ops[1..]);
    (items + rest, last)
  }

  function Fed(ops: seq<Op>): seq<Byte>
  {
    if ops == [] then [] else (if ops[0].Read? then ops[0].bytes else []) + Fed(ops[1..])
  }

  lemma StepConserves(st: State, op: Op)
    ensures var (items, next) := Step(st, op);
            && Render(items, Spell) + next.pending == st.pending + Fed([op])
            && LegalPending(next.paste, next.pending)
  {
    assert [op][1..] == [];
    match op
    case Read(bytes) => DecodeConserves(st.paste, st.pending + bytes);
    case IdleFlush => RenderPlains(st.pending);
  }

  /** Conservation over every run, flushes included: bytes in are bytes out plus what is held. */
  lemma {:induction false} NothingIsLost(st: State, ops: seq<Op>)
    requires LegalPending(st.paste, st.pending)
    ensures var (items, last) := Run(st, ops);
            Render(items, Spell) + last.pending == st.pending + Fed(ops) && LegalPending(last.paste, last.pending)
    decreases |ops|
  {
    if ops != [] {
      var next := Step(st, ops[0]).1;
      StepConserves(st, ops[0]);
      NothingIsLost(next, ops[1..]);
      Telescope(Step(st, ops[0]).0, Run(next, ops[1..]).0, st.pending, next.pending, Run(next, ops[1..]).1.pending,
        Fed([ops[0]]), Fed(ops[1..]));
      FedSplit(ops);
    }
  }

  lemma FedSplit(ops: seq<Op>)
    requires ops != []
    ensures Fed(ops) == Fed([ops[0]]) + Fed(ops[1..])
  {
    assert [ops[0]][1..] == [];
  }

  lemma Telescope(a: seq<Item>, b: seq<Item>, p: seq<Byte>, q: seq<Byte>, r: seq<Byte>, fa: seq<Byte>, fb: seq<Byte>)
    requires Render(a, Spell) + q == p + fa && Render(b, Spell) + r == q + fb
    ensures Render(a + b, Spell) + r == p + (fa + fb)
  {
    RenderConcat(a, b, Spell);
    calc {
      Render(a + b, Spell) + r;
      Render(a, Spell) + (Render(b, Spell) + r);
      (Render(a, Spell) + q) + fb;
      p + (fa + fb);
    }
  }

  /**
   Releasing held bytes leaves a paste: a focus report read next is recognised, as it is outside a
   paste anyway; only in a paste with nothing held is it passed on as text.
   */
  lemma FlushLeavesPaste(st: State, focused: bool)
    ensures var (items, next) := Step(st, IdleFlush);
      && items == Plains(st.pending) && next.pending == []
      && Step(next, Read(FocusReport(focused)))
        == if st.paste && st.pending == [] then (Plains(FocusReport(focused)), State(true, []))
           else ([Focus(focused)], State(false, []))
  {
    var s := FocusReport(focused);
    assert [] + s == s;
    FocusOutside(focused);
    FocusInside(focused);
  }

  lemma FocusOutside(focused: bool)
    ensures Decode(false, FocusReport(focused)) == Scanned([Focus(focused)], [], false)
  {
    var s := FocusReport(focused);
    assert s[2] != PASTE_START[2] && FOCUS_GAINED[2] != FOCUS_LOST[2];
    DecodeFront(false, s);
    DecodeFront(false, []);
    assert s[3..] == [];
  }

  lemma FocusInside(focused: bool)
    ensures Decode(true, FocusReport(focused)) == Scanned(Plains(FocusReport(focused)), [], true)
  {
    var s := FocusReport(focused);
    PlainInPaste(s);
    PlainInPaste(s[1..]);
    PlainInPaste(s[1..][1..]);
    DecodeFront(true, []);
    assert s[1..][1..][1..] == [];
    assert [Plain(s[0])] + ([Plain(s[1])] + ([Plain(s[2])] + [])) == Plains(s);
  }

  lemma PlainInPaste(s: seq<Byte>)
    requires s != [] && (s[0] != ESC || (|s| > 2 && s[2] != PASTE_END[2]))
    ensures Decode(true, s) == Decode(true, s[1..]).After([Plain(s[0])])
  {
    DecodeFront(true, s);
    assert PASTE_END[0] == ESC;
  }

  /** Up to five bytes are held back, not two: a paste marker may be cut before its last byte. */
  lemma FiveBytesMayBeHeld()
    ensures forall paste, s :: |Decode(paste, s).pending| <= 5
    ensures Decode(false, PASTE_START[..5]) == Scanned([], PASTE_START[..5], false)
  {
    forall paste, s ensures |Decode(paste, s).pending| <= 5 {
      DecodeConserves(paste, s);
    }
    HeldIsLegal(false, PASTE_START[..5]);
    DecodeFront(false, PASTE_START[..5]);
  }

  // ---------------------------------------------------------------- which reports are recognised

  predicate MarkerAt(s: seq<Byte>, i: nat, marker: seq<Byte>)
  {
    i < |s| && StartsWith(s[i..], marker)
  }

  /** Inside a bracketed paste before byte `i`: the last paste marker completed there decides. */
  predicate PastingAt(paste: bool, s: seq<Byte>, i: nat)
  {
    if i == 0 then paste
    else if PastingAt(paste, s, i - 1) then !(i >= 6 && MarkerAt(s, i - 6, PASTE_END))
    else i >= 6 && MarkerAt(s, i - 6, PASTE_START)
  }

  /** Where the focus reports among `items` start in the stream, from `base` on. */
  function Reports(items: seq<Item>, base: nat): set<(nat, bool)>
  {
    if items == [] then {}
    else if items[0].Focus? then {(base, items[0].focused)} + Reports(items[1..], base + 3)
    else Reports(items[1..], base + 1)
  }

  lemma {:induction false} ReportsOfPlains(bytes: seq<Byte>, rest: seq<Item>, base: nat)
    ensures Reports(Plains(bytes) + rest, base) == Reports(rest, base + |bytes|)
  {
    if bytes == [] {
      assert Plains(bytes) + rest == rest;
    } else {
      assert (Plains(bytes) + rest)[1..] == Plains(bytes[1..]) + rest;
      ReportsOfPlains(bytes[1..], rest, base + 1);
    }
  }

  lemma {:induction false} ReportsShift(items: seq<Item>, base: nat, i: nat, f: bool)
    ensures (base + i, f) in Reports(items, base) <==> (i, f) in Reports(items, 0)
    ensures forall p :: p in Reports(items, base) ==> p.0 >= base
  {
    ReportsShiftBy(items, 0, base, i, f);
  }

  lemma {:induction false} ReportsShiftBy(items: seq<Item>, base: nat, d: nat, i: nat, f: bool)
    ensures (d + i, f) in Reports(items, d + base) <==> (i, f) in Reports(items, base)
    ensures forall p :: p in Reports(items, d + base) ==> p.0 >= d + base
    decreases |items|
  {
    if items != [] {
      ReportsShiftBy(items[1..], base + if items[0].Focus? then 3 else 1, d, i, f);
    }
  }

  /** The front of a stream is one byte that starts no marker, a focus report, or a paste marker. */
  datatype Shape = OneByte | FocusFront | PasteFront

  ghost predicate HasShape(paste: bool, s: seq<Byte>, sh: Shape)
  {
    match sh
    case OneByte => |s| >= 1 && !StartsWith(s, if paste then PASTE_END else PASTE_START)
    case FocusFront => |s| >= 3 && !paste && s[1] != ESC && s[2] != ESC && !StartsWith(s, PASTE_START)
    case PasteFront =>
      |s| >= 6 && StartsWith(s, if paste then PASTE_END else PASTE_START) && forall k :: 0 < k < 6 ==> s[k] != ESC
  }

  function Width(sh: Shape): nat { match sh case OneByte => 1 case FocusFront => 3 case PasteFront => 6 }

  lemma MarkersStartWithEscape(s: seq<Byte>, i: nat, marker: seq<Byte>)
    requires MarkerAt(s, i, marker) && marker != [] && marker[0] == ESC
    ensures s[i] == ESC
  {
    assert s[i..][0] == s[i];
    PrefixAt(marker, s[i..]);
  }

  lemma MarkerShift(s: seq<Byte>, n: nat, at: nat, marker: seq<Byte>)
    requires n <= |s|
    ensures MarkerAt(s, n + at, marker) <==> MarkerAt(s[n..], at, marker)
  {
    if n + at < |s| {
      assert s[n..][at..] == s[n + at..];
    }
  }

  lemma NoMarkerInside(paste: bool, s: seq<Byte>, sh: Shape, k: nat)
    requires HasShape(paste, s, sh) && 0 < k < Width(sh)
    ensures !MarkerAt(s, k, PASTE_END) && !MarkerAt(s, k, PASTE_START)
  {
    if MarkerAt(s, k, PASTE_END) { MarkersStartWithEscape(s, k, PASTE_END); }
    if MarkerAt(s, k, PASTE_START) { MarkersStartWithEscape(s, k, PASTE_START); }
  }

  /** The marker that would end the current mode was completed just before byte `i`. */
  predicate Toggles(paste: bool, s: seq<Byte>, i: nat)
  {
    i >= 6 && MarkerAt(s, i - 6, if paste then PASTE_END else PASTE_START)
  }

  lemma PastingUnfold(paste: bool, s: seq<Byte>, i: nat)
    requires i > 0
    ensures var before := PastingAt(paste, s, i - 1); PastingAt(paste, s, i) == (before != Toggles(before, s, i))
  {
  }

  lemma ToggleShift(paste: bool, s: seq<Byte>, sh: Shape, i: nat)
    requires HasShape(paste, s, sh) && i > 0
    ensures var before := PastingAt(paste, s, Width(sh) + i - 1);
            Toggles(before, s, Width(sh) + i) <==> Toggles(before, s[Width(sh)..], i)
  {
    var n := Width(sh);
    if i >= 6 {
      MarkerShift(s, n, i - 6, PASTE_END);
      MarkerShift(s, n, i - 6, PASTE_START);
    } else if n + i > 6 {
      NoMarkerInside(paste, s, sh, n + i - 6);
    } else if n + i == 6 {
      PastingStart(paste, s);
      assert s[0..] == s;
    }
  }

  lemma FrontFits(paste: bool, s: seq<Byte>, sh: Shape)
    requires HasShape(paste, s, sh)
    ensures 0 < Width(sh) <= |s|
  {
  }

  /** Past a front the paste mode carries over: no marker straddles the cut. */
  lemma {:induction false} PastingShift(paste: bool, s: seq<Byte>, sh: Shape, i: nat)
    requires HasShape(paste, s, sh)
    ensures PastingAt(paste, s, Width(sh) + i) == PastingAt(paste != sh.PasteFront?, s[Width(sh)..], i)
    decreases i
  {
    hide PastingAt, Toggles, HasShape, Width;
    FrontFits(paste, s, sh);
    var n := Width(sh);
    if i == 0 {
      PastingAcrossFront(paste, s, sh);
    } else {
      PastingShift(paste, s, sh, i - 1);
      ToggleShift(paste, s, sh, i);
      PastingUnfold(paste, s, n + i);
      PastingUnfold(paste != sh.PasteFront?, s[n..], i);
    }
  }

  lemma PastingAcrossFront(paste: bool, s: seq<Byte>, sh: Shape)
    requires HasShape(paste, s, sh)
    ensures PastingAt(paste, s, Width(sh)) == (paste != sh.PasteFront?)
    ensures PastingAt(paste != sh.PasteFront?, s[Width(sh)..], 0) == (paste != sh.PasteFront?)
  {
    PastingFrom(paste, s, Width(sh) - 1);
    PastingUnfold(paste, s, Width(sh));
    assert s[0..] == s;
  }

  lemma {:induction false} PastingFrom(paste: bool, s: seq<Byte>, j: nat)
    requires j < 6
    ensures PastingAt(paste, s, j) == paste
  {
    if j > 0 { PastingFrom(paste, s, j - 1); }
  }

  lemma PastingStart(paste: bool, s: seq<Byte>)
    ensures forall j: nat :: j < 6 ==> PastingAt(paste, s, j) == paste
  {
    forall j: nat | j < 6 ensures PastingAt(paste, s, j) == paste { PastingFrom(paste, s, j); }
  }

  /** A focus report starts at byte `i` of `s`, outside any paste. */
  ghost predicate ReportAt(paste: bool, s: seq<Byte>, i: nat, f: bool)
  {
    MarkerAt(s, i, FocusReport(f)) && !PastingAt(paste, s, i)
  }

  lemma ReportShift(paste: bool, s: seq<Byte>, sh: Shape, i: nat, f: bool)
    requires HasShape(paste, s, sh)
    ensures ReportAt(paste, s, Width(sh) + i, f) <==> ReportAt(paste != sh.PasteFront?, s[Width(sh)..], i, f)
    ensures forall k :: 0 < k < Width(sh) ==> !ReportAt(paste, s, k, f)
  {
    var n := Width(sh);
    PastingShift(paste, s, sh, i);
    if n + i < |s| {
      assert s[n..][i..] == s[n + i..];
    }
    forall k | 0 < k < n ensures !ReportAt(paste, s, k, f) {
      if MarkerAt(s, k, FocusReport(f)) { MarkersStartWithEscape(s, k, FocusReport(f)); }
    }
  }

  lemma FrontShape(paste: bool, s: seq<Byte>) returns (sh: Shape)
    requires Decide(paste, s).Take?
    ensures HasShape(paste, s, sh) && Decide(paste, s).n == Width(sh)
      && Decide(paste, s).mode == (paste != sh.PasteFront?)
    ensures Decide(paste, s).items == (match sh
      case OneByte => Plains(s[..1])
      case FocusFront => [Focus(StartsWith(s, FOCUS_GAINED))]
      case PasteFront => Plains(s[..6]))
    ensures forall f :: ReportAt(paste, s, 0, f) <==> sh.FocusFront? && f == StartsWith(s, FOCUS_GAINED)
  {
    assert s[0..] == s;
    PrefixAt(PASTE_END, s);
    PrefixAt(PASTE_START, s);
    PrefixAt(FOCUS_GAINED, s);
    PrefixAt(FOCUS_LOST, s);
    if |s| > 2 {
      assert FOCUS_GAINED[2] != FOCUS_LOST[2] && PASTE_START[2] != FOCUS_GAINED[2] && PASTE_START[2] != FOCUS_LOST[2];
    }
    if StartsWith(s, if paste then PASTE_END else PASTE_START) {
      sh := PasteFront;
    } else if !paste && (StartsWith(s, FOCUS_GAINED) || StartsWith(s, FOCUS_LOST)) {
      sh := FocusFront;
    } else {
      sh := OneByte;
    }
  }

  lemma HeldHasNoReport(paste: bool, s: seq<Byte>, i: nat, f: bool)
    requires Decide(paste, s).Hold?
    ensures !ReportAt(paste, s, i, f)
  {
    HeldIsLegal(paste, s);
    if ReportAt(paste, s, i, f) {
      MarkersStartWithEscape(s, i, FocusReport(f));
      if i == 0 {
        assert s[0..] == s;
        PastingFrom(paste, s, 0);
        HeldIsShort(paste, s, f);
      } else {
        HeldHasOneEscape(paste, s, i);
      }
    }
  }

  lemma HeldHasOneEscape(paste: bool, s: seq<Byte>, i: nat)
    requires LegalPending(paste, s) && 0 < i < |s|
    ensures s[i] != ESC
  {
  }

  lemma HeldIsShort(paste: bool, s: seq<Byte>, f: bool)
    requires LegalPending(paste, s) && !paste
    ensures !StartsWith(s, FocusReport(f))
  {
    PrefixAt(FocusReport(f), s);
    PrefixAt(s, PASTE_START);
    if |s| > 2 {
      assert s[2] == PASTE_START[2] != FocusReport(f)[2];
    }
  }

  /**
   The focus reports recognised are exactly those that start outside every bracketed paste, where
   paste mode is read off the stream itself: on after a start marker seen outside, off after an end
   marker seen inside.
   */
  lemma {:induction false} ReportsOutsidePaste(paste: bool, s: seq<Byte>, i: nat, f: bool)
    ensures (i, f) in Reports(Decode(paste, s).items, 0) <==> ReportAt(paste, s, i, f)
    decreases |s|
  {
    hide Decide, Decode, HasShape, ReportAt;
    DecodeFront(paste, s);
    match Decide(paste, s)
    case Hold => HeldHasNoReport(paste, s, i, f);
    case Take(items, n, next) =>
      TakenItems(paste, s);
      var sh := FrontShape(paste, s);
      var rest := Decode(next, s[n..]).items;
      if i >= n {
        ReportsOutsidePaste(next, s[n..], i - n, f);
        ReportShift(paste, s, sh, i - n, f);
      } else {
        ReportShift(paste, s, sh, 0, f);
      }
      ReportsShift(rest, n, SatSub(i, n), f);
      if sh.FocusFront? {
        assert (items + rest)[1..] == rest;
      } else {
        ReportsOfPlains(s[..n], rest, 0);
      }
  }

  // ---------------------------------------------------------------- when more than two bytes are held

  /** The end of a stream is the first `k` bytes of the paste marker that would be taken there. */
  ghost predicate EndsInMarker(paste: bool, s: seq<Byte>, k: nat)
  {
    k <= |s| && k < 6 && s[|s| - k..] == (if PastingAt(paste, s, |s| - k) then PASTE_END else PASTE_START)[..k]
  }

  /** Whether the stream ends so does not change when decided bytes before are dropped. */
  lemma EndShift(paste: bool, s: seq<Byte>, sh: Shape, k: nat)
    requires HasShape(paste, s, sh) && Width(sh) + k <= |s|
    ensures EndsInMarker(paste, s, k) <==> EndsInMarker(paste != sh.PasteFront?, s[Width(sh)..], k)
  {
    hide PastingAt, HasShape, Width;
    FrontFits(paste, s, sh);
    var n := Width(sh);
    PastingShift(paste, s, sh, |s| - n - k);
    assert s[n..][|s| - n - k..] == s[|s| - k..];
  }

  /** No front reaches into a marker at the end. */
  lemma FrontStopsBefore(paste: bool, s: seq<Byte>, sh: Shape, k: nat)
    requires HasShape(paste, s, sh) && 0 < k < |s| && EndsInMarker(paste, s, k)
    ensures Width(sh) + k <= |s|
  {
    assert s[|s| - k..][0] == s[|s| - k] == ESC;
  }

  /** The stream ends in three to five bytes of a paste marker. */
  ghost predicate EndsInPasteMarker(paste: bool, s: seq<Byte>)
  {
    exists k: nat :: 3 <= k <= 5 && EndsInMarker(paste, s, k)
  }

  lemma MarkerOutlastsFront(paste: bool, s: seq<Byte>, sh: Shape)
    requires HasShape(paste, s, sh) && Decide(paste, s).Take?
    ensures |s| >= Width(sh)
    ensures EndsInPasteMarker(paste, s) <==> EndsInPasteMarker(paste != sh.PasteFront?, s[Width(sh)..])
  {
    hide Decide;
    if EndsInPasteMarker(paste, s) {
      var k: nat :| 3 <= k <= 5 && EndsInMarker(paste, s, k);
      if k == |s| { WholeMarkerIsHeld(paste, s, k); }
      FrontStopsBefore(paste, s, sh, k);
      EndShift(paste, s, sh, k);
    }
    if EndsInPasteMarker(paste != sh.PasteFront?, s[Width(sh)..]) {
      var k: nat :| 3 <= k <= 5 && EndsInMarker(paste != sh.PasteFront?, s[Width(sh)..], k);
      EndShift(paste, s, sh, k);
    }
  }

  /** More than two bytes are held back exactly when the stream ends in three to five bytes of a paste marker. */
  lemma {:induction false} MoreThanTwoAreHeld(paste: bool, s: seq<Byte>)
    ensures |Decode(paste, s).pending| > 2 <==> EndsInPasteMarker(paste, s)
    decreases |s|
  {
    hide Decide, EndsInPasteMarker;
    DecodeFront(paste, s);
    if Decide(paste, s).Hold? {
      HeldEndsInMarker(paste, s);
    } else {
      TakenItems(paste, s);
      var sh := FrontShape(paste, s);
      MarkerOutlastsFront(paste, s, sh);
      MoreThanTwoAreHeld(Decide(paste, s).mode, s[Width(sh)..]);
    }
  }

  lemma WholeMarkerIsHeld(paste: bool, s: seq<Byte>, k: nat)
    requires |s| == k && 0 < k && EndsInMarker(paste, s, k)
    ensures Decide(paste, s).Hold?
  {
    PastingFrom(paste, s, 0);
    assert s[0..] == s;
    assert LegalPending(paste, s) by { assert s <= (if paste then PASTE_END else PASTE_START); }
    HeldIsLegal(paste, s);
  }

  lemma HeldEndsInMarker(paste: bool, s: seq<Byte>)
    requires Decide(paste, s).Hold?
    ensures |s| > 2 <==> EndsInPasteMarker(paste, s)
  {
    HeldIsLegal(paste, s);
    if |s| > 2 {
      PastingFrom(paste, s, 0);
      assert s[|s| - |s|..] == s;
      assert s <= (if paste then PASTE_END else PASTE_START);
      assert EndsInMarker(paste, s, |s|);
    }
  }
}
