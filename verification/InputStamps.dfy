/**
 From the terminal to the server. The attached client reads the terminal in bursts, decodes each
 burst, and stamps every decoded event, when it writes it, with the number of the picture published
 last; pictures are published by another thread meanwhile. So what the decoder holds back, and what
 waits to be written, may be stamped with a later picture than the one it was typed at.
 */
module InputStamps {
  import opened Common
  import opened Mouse
  import opened Streaming
  import MouseStream
  import OuterInput

  /** A byte and how many pictures had been published when it was read. */
  datatype Typed = Typed(b: Byte, at: nat)

  /** A decoded event waiting to be written, with the bytes it was decoded from. */
  datatype Outgoing = Outgoing(event: OuterInput.Event, typed: seq<Typed>)

  /** A written event, and how many pictures had been published by then. */
  datatype Sent = Sent(event: OuterInput.Event, typed: seq<Typed>, at: nat)

  /** The client: the numbers published so far, its decoder, what waits, what was written, all that was read. */
  datatype Client = Client(
    numbers: seq<nat>,
    paste: bool,
    held: seq<Typed>,
    queue: seq<Outgoing>,
    sent: seq<Sent>,
    read: seq<Typed>)
  {
    /** How many pictures have been published. */
    function Now(): nat { SatSub(|numbers|, 1) }
  }

  /** Number zero stands for no picture at all. */
  const START: Client := Client([0], false, [], [], [], [])

  function Bytes(typed: seq<Typed>): seq<Byte>
  {
    seq(|typed|, i requires 0 <= i < |typed| => typed[i].b)
  }

  function ReadAt(bytes: seq<Byte>, at: nat): seq<Typed>
  {
    seq(|bytes|, i requires 0 <= i < |bytes| => Typed(bytes[i], at))
  }

  /** The bytes an event stands for. */
  function Spelled(e: OuterInput.Event): seq<Byte>
  {
    match e case Input(bytes) => bytes case FocusChanged(f) => OuterInput.FocusReport(f)
  }

  /** Hand out the decoded bytes to their events. */
  function Deal(events: seq<OuterInput.Event>, typed: seq<Typed>): seq<Outgoing>
  {
    if events == [] then [] else
    var n := Min(|Spelled(events[0])|, |typed|);
    [Outgoing(events[0], typed[..n])] + Deal(events[1..], typed[n..])
  }

  datatype Op = Read(bytes: seq<Byte>) | Idle | Write | Publish(number: nat)

  /** The input thread reads again only when everything is written; the other thread publishes at any time. */
  ghost function Step(c: Client, op: Op): Client
  {
    match op
    case Read(bytes) =>
      if c.queue != [] then c else
      var all := c.held + ReadAt(bytes, c.Now());
      var r := OuterInput.Decode(c.paste, Bytes(all));
      var taken := SatSub(|all|, |r.pending|);
      c.(paste := r.mode, held := all[taken..], queue := Deal(OuterInput.Group(r.items), all[..taken]),
         read := c.read + ReadAt(bytes, c.Now()))
    case Idle =>
      if c.queue != [] || c.held == [] then c else
      c.(paste := false, held := [], queue := [Outgoing(OuterInput.Input(Bytes(c.held)), c.held)])
    case Write =>
      if c.queue == [] then c else
      c.(queue := c.queue[1..], sent := c.sent + [Sent(c.queue[0].event, c.queue[0].typed, c.Now())])
    case Publish(number) => c.(numbers := c.numbers + [number])
  }

  ghost function Run(c: Client, ops: seq<Op>): Client
    decreases |ops|
  {
    if ops == [] then c else Run(Step(c, ops[0]), ops[1..])
  }

  /** Numbers published later are larger, as the frame protocol has it below the wrap-around. */
  ghost predicate PublishesRising(c: Client, ops: seq<Op>)
    decreases |ops|
  {
    ops != [] ==>
      && (ops[0].Publish? ==> c.numbers != [] && c.numbers[|c.numbers| - 1] < ops[0].number)
      && PublishesRising(Step(c, ops[0]), ops[1..])
  }

  // ---------------------------------------------------------------- what every step keeps

  function QueuedBytes(queue: seq<Outgoing>): seq<Typed>
  {
    if queue == [] then [] else queue[0].typed + QueuedBytes(queue[1..])
  }

  function SentBytes(sent: seq<Sent>): seq<Typed>
  {
    if sent == [] then [] else sent[0].typed + SentBytes(sent[1..])
  }

  ghost predicate Rising(numbers: seq<nat>) { forall i, j :: 0 <= i < j < |numbers| ==> numbers[i] < numbers[j] }

  ghost predicate NotAfter(typed: seq<Typed>, now: nat) { forall i :: 0 <= i < |typed| ==> typed[i].at <= now }

  ghost predicate Invariant(c: Client)
  {
    && c.numbers != [] && Rising(c.numbers)
    && OuterInput.LegalPending(c.paste, Bytes(c.held))
    && c.read == SentBytes(c.sent) + QueuedBytes(c.queue) + c.held
    && NotAfter(c.held, c.Now())
    && (forall i :: 0 <= i < |c.queue| ==>
          Spelled(c.queue[i].event) == Bytes(c.queue[i].typed) && NotAfter(c.queue[i].typed, c.Now()))
    && (forall i :: 0 <= i < |c.sent| ==>
          && Spelled(c.sent[i].event) == Bytes(c.sent[i].typed) && NotAfter(c.sent[i].typed, c.sent[i].at)
          && c.sent[i].at <= c.Now())
  }

  function SpelledAll(events: seq<OuterInput.Event>): seq<Byte>
  {
    if events == [] then [] else Spelled(events[0]) + SpelledAll(events[1..])
  }

  lemma TakeAndHold(all: seq<Typed>, taken: seq<Byte>, held: seq<Byte>)
    requires taken + held == Bytes(all)
    ensures var n := |all| - |held|;
      && n == |taken| && Bytes(all[..n]) == taken && Bytes(all[n..]) == held && all[..n] + all[n..] == all
  {
    var n := |taken|;
    assert |Bytes(all)| == |all| == |taken| + |held|;
    assert Bytes(all)[..n] == taken && Bytes(all)[n..] == held;
  }

  /** Dealing hands out every byte, in order, each event its own. */
  lemma {:induction false} DealIsExact(events: seq<OuterInput.Event>, typed: seq<Typed>, now: nat)
    requires SpelledAll(events) == Bytes(typed) && NotAfter(typed, now)
    ensures var q := Deal(events, typed);
      && QueuedBytes(q) == typed && |q| == |events|
      && forall i :: 0 <= i < |q| ==>
           q[i].event == events[i] && Spelled(q[i].event) == Bytes(q[i].typed) && NotAfter(q[i].typed, now)
  {
    if events != [] {
      hide Spelled;
      var (n, rest) := (|Spelled(events[0])|, events[1..]);
      TakeAndHold(typed, Spelled(events[0]), SpelledAll(rest));
      assert |typed| - |SpelledAll(rest)| == n;
      DealIsExact(rest, typed[n..], now);
      var (first, later) := (Outgoing(events[0], typed[..n]), Deal(rest, typed[n..]));
      assert Deal(events, typed) == [first] + later && ([first] + later)[1..] == later;
    }
  }

  lemma {:induction false} SpelledItems(events: seq<OuterInput.Event>)
    ensures Render(OuterInput.Flatten(events), OuterInput.Spell) == SpelledAll(events)
  {
    if events != [] {
      SpelledItems(events[1..]);
      var first := match events[0]
        case Input(bytes) => OuterInput.Plains(bytes)
        case FocusChanged(f) => [OuterInput.Focus(f)];
      RenderConcat(first, OuterInput.Flatten(events[1..]), OuterInput.Spell);
      match events[0]
      case Input(bytes) => OuterInput.RenderPlains(bytes);
      case FocusChanged(f) => assert first[1..] == [];
    }
  }

  /** The events of a read spell what it took. */
  lemma DecodedSpells(paste: bool, s: seq<Byte>)
    ensures var r := OuterInput.Decode(paste, s);
      && SpelledAll(OuterInput.Group(r.items)) + r.pending == s
      && OuterInput.LegalPending(r.mode, r.pending)
  {
    var r := OuterInput.Decode(paste, s);
    OuterInput.DecodeConserves(paste, s);
    OuterInput.GroupKeepsItems(r.items);
    SpelledItems(OuterInput.Group(r.items));
  }

  /** What a read leaves held, and what it queues. */
  lemma ReadDeals(c: Client, bytes: seq<Byte>)
    requires c.queue == [] && NotAfter(c.held, c.Now())
    ensures var t := Step(c, Read(bytes));
      && t == c.(paste := t.paste, held := t.held, queue := t.queue, read := c.read + ReadAt(bytes, c.Now()))
      && QueuedBytes(t.queue) + t.held == c.held + ReadAt(bytes, c.Now())
      && OuterInput.LegalPending(t.paste, Bytes(t.held)) && NotAfter(t.held, c.Now())
      && forall i :: 0 <= i < |t.queue| ==>
           Spelled(t.queue[i].event) == Bytes(t.queue[i].typed) && NotAfter(t.queue[i].typed, c.Now())
  {
    hide Spelled, OuterInput.LegalPending, OuterInput.Decode, OuterInput.Group, QueuedBytes, SpelledAll, NotAfter;
    hide ReadAt, Deal;
    var all := c.held + ReadAt(bytes, c.Now());
    var r := OuterInput.Decode(c.paste, Bytes(all));
    DecodedSpells(c.paste, Bytes(all));
    var (events, taken) := (OuterInput.Group(r.items), |all| - |r.pending|);
    TakeAndHold(all, SpelledAll(events), r.pending);
    NoneAfter(c.held, bytes, c.Now(), taken);
    DealIsExact(events, all[..taken], c.Now());
    var t := Step(c, Read(bytes));
    assert t.held == all[taken..] && t.queue == Deal(events, all[..taken]) && t.paste == r.mode;
  }

  lemma NoneAfter(held: seq<Typed>, bytes: seq<Byte>, now: nat, n: nat)
    requires NotAfter(held, now) && n <= |held + ReadAt(bytes, now)|
    ensures var all := held + ReadAt(bytes, now); NotAfter(all[..n], now) && NotAfter(all[n..], now)
  {
    var all := held + ReadAt(bytes, now);
    assert forall i :: 0 <= i < |all| ==> all[i].at <= now;
  }

  lemma ReadKeeps(c: Client, bytes: seq<Byte>)
    requires Invariant(c) && c.queue == []
    ensures Invariant(Step(c, Read(bytes)))
  {
    hide Step, Spelled, OuterInput.LegalPending, NotAfter, Rising, SentBytes, ReadAt;
    ReadDeals(c, bytes);
    var t := Step(c, Read(bytes));
    Regrouped(SentBytes(c.sent), c.held, ReadAt(bytes, c.Now()), QueuedBytes(t.queue), t.held);
  }

  lemma Regrouped(sent: seq<Typed>, held: seq<Typed>, now: seq<Typed>, queued: seq<Typed>, held': seq<Typed>)
    requires queued + held' == held + now
    ensures sent + [] + held + now == sent + queued + held'
  {
    assert sent + [] == sent;
    assert sent + held + now == sent + (held + now) && sent + queued + held' == sent + (queued + held');
  }

  lemma IdleKeeps(c: Client)
    requires Invariant(c) && c.queue == [] && c.held != []
    ensures Invariant(Step(c, Idle))
  {
    hide NotAfter, Rising, SentBytes;
    var out := Outgoing(OuterInput.Input(Bytes(c.held)), c.held);
    assert [out][1..] == [] && QueuedBytes([out]) == c.held;
    assert SentBytes(c.sent) + [] + c.held == SentBytes(c.sent) + c.held + [];
    NothingHeld(c.Now());
  }

  lemma NothingHeld(now: nat)
    ensures NotAfter([], now) && OuterInput.LegalPending(false, Bytes([]))
  {
  }

  lemma {:induction false} OneMoreSent(sent: seq<Sent>, more: Sent)
    ensures SentBytes(sent + [more]) == SentBytes(sent) + more.typed
  {
    if sent == [] {
      assert [more][1..] == [] && more.typed + [] == more.typed;
    } else {
      assert (sent + [more])[1..] == sent[1..] + [more];
      OneMoreSent(sent[1..], more);
    }
  }

  lemma OneLessQueued(sent: seq<Typed>, queue: seq<Outgoing>, held: seq<Typed>)
    requires queue != []
    ensures sent + QueuedBytes(queue) + held == sent + queue[0].typed + QueuedBytes(queue[1..]) + held
  {
    hide QueuedBytes;
    QueueFront(queue);
    var (first, rest) := (queue[0].typed, QueuedBytes(queue[1..]));
    assert sent + (first + rest) == sent + first + rest;
  }

  lemma QueueFront(queue: seq<Outgoing>)
    requires queue != []
    ensures QueuedBytes(queue) == queue[0].typed + QueuedBytes(queue[1..])
  {
  }

  lemma WriteKeeps(c: Client)
    requires Invariant(c) && c.queue != []
    ensures Invariant(Step(c, Write))
  {
    hide Spelled, OuterInput.LegalPending, NotAfter, Rising, SentBytes, QueuedBytes;
    OneMoreSent(c.sent, Sent(c.queue[0].event, c.queue[0].typed, c.Now()));
    OneLessQueued(SentBytes(c.sent), c.queue, c.held);
  }

  lemma StepKeeps(c: Client, op: Op)
    requires Invariant(c) && (op.Publish? ==> c.numbers[|c.numbers| - 1] < op.number)
    ensures Invariant(Step(c, op))
  {
    match op
    case Read(bytes) => if c.queue == [] { ReadKeeps(c, bytes); }
    case Idle => if c.queue == [] && c.held != [] { IdleKeeps(c); }
    case Write => if c.queue != [] { WriteKeeps(c); }
    case Publish(_) =>
  }

  lemma {:induction false} RunKeeps(c: Client, ops: seq<Op>)
    requires Invariant(c) && PublishesRising(c, ops)
    ensures Invariant(Run(c, ops))
    decreases |ops|
  {
    if ops != [] {
      StepKeeps(c, ops[0]);
      RunKeeps(Step(c, ops[0]), ops[1..]);
    }
  }

  lemma StartIsInvariant()
    ensures Invariant(START)
  {
  }

  /** Rising numbers tell moments apart. */
  lemma NumbersTellMoments(numbers: seq<nat>, i: nat, j: nat)
    requires Rising(numbers) && i <= j < |numbers|
    ensures numbers[i] == numbers[j] <==> i == j
  {
  }

  /**
   Over every interleaving of reads, idle flushes, writes and publications: what was written, what
   waits and what is held are the bytes read, in order; and a written byte is stamped with the number
   it was read under if and only if no picture was published between its read and its write.
   */
  lemma StampsMeetTheirRead(ops: seq<Op>)
    requires PublishesRising(START, ops)
    ensures var c := Run(START, ops);
      && SentBytes(c.sent) + QueuedBytes(c.queue) + c.held == c.read
      && forall i :: 0 <= i < |c.sent| ==>
           && Bytes(c.sent[i].typed) == Spelled(c.sent[i].event)
           && c.sent[i].at < |c.numbers|
           && forall j :: 0 <= j < |c.sent[i].typed| ==>
                var (stamped, typed) := (c.sent[i].at, c.sent[i].typed[j].at);
                typed <= stamped && (c.numbers[stamped] == c.numbers[typed] <==> typed == stamped)
  {
    hide Run, Spelled, SentBytes, QueuedBytes, OuterInput.LegalPending, Bytes, PublishesRising, Rising;
    StartIsInvariant();
    RunKeeps(START, ops);
    var c := Run(START, ops);
    forall i, j | 0 <= i < |c.sent| && 0 <= j < |c.sent[i].typed|
      ensures c.numbers[c.sent[i].at] == c.numbers[c.sent[i].typed[j].at] <==> c.sent[i].typed[j].at == c.sent[i].at
    {
      NumbersTellMoments(c.numbers, c.sent[i].typed[j].at, c.sent[i].at);
    }
  }

  function EventsOf(queue: seq<Outgoing>): seq<OuterInput.Event>
  {
    seq(|queue|, i requires 0 <= i < |queue| => queue[i].event)
  }

  lemma {:induction false} DealtEvents(events: seq<OuterInput.Event>, typed: seq<Typed>)
    ensures EventsOf(Deal(events, typed)) == events
  {
    if events != [] {
      var n := Min(|Spelled(events[0])|, |typed|);
      DealtEvents(events[1..], typed[n..]);
      assert Deal(events, typed)[1..] == Deal(events[1..], typed[n..]);
      assert EventsOf(Deal(events, typed)) == [events[0]] + EventsOf(Deal(events[1..], typed[n..]));
    }
  }

  /** The client decodes as the decoder does: a read or an idle flush leaves its state, and queues its items. */
  lemma FollowsTheDecoder(c: Client, op: Op)
    requires Invariant(c) && c.queue == [] && (op.Read? || op.Idle?)
    ensures var t := Step(c, op);
      OuterInput.Step(OuterInput.State(c.paste, Bytes(c.held)),
        match op case Read(bytes) => OuterInput.Read(bytes) case _ => OuterInput.IdleFlush)
      == (OuterInput.Flatten(EventsOf(t.queue)), OuterInput.State(t.paste, Bytes(t.held)))
  {
    hide OuterInput.Decode, OuterInput.Group, OuterInput.Flatten, Deal;
    match op
    case Read(bytes) =>
      var all := c.held + ReadAt(bytes, c.Now());
      assert Bytes(all) == Bytes(c.held) + bytes;
      var r := OuterInput.Decode(c.paste, Bytes(all));
      DecodedSpells(c.paste, Bytes(all));
      TakeAndHold(all, SpelledAll(OuterInput.Group(r.items)), r.pending);
      DealtEvents(OuterInput.Group(r.items), all[..|all| - |r.pending|]);
      OuterInput.GroupKeepsItems(r.items);
    case Idle =>
      var e := OuterInput.Input(Bytes(c.held));
      FlattenOne(e);
      assert |Bytes(c.held)| == |c.held| && Bytes([]) == [] && EventsOf([]) == [];
      if c.held != [] { assert EventsOf(Step(c, op).queue) == [e]; }
  }

  lemma FlattenOne(e: OuterInput.Event)
    requires e.Input?
    ensures OuterInput.Flatten([e]) == OuterInput.Plains(e.bytes) && OuterInput.Flatten([]) == []
    ensures OuterInput.Plains([]) == []
  {
    assert [e][1..] == [];
  }

  // ---------------------------------------------------------------- bursts

  function Stamped(queue: seq<Outgoing>, now: nat): (sent: seq<Sent>)
    ensures |sent| == |queue| && forall i :: 0 <= i < |sent| ==> sent[i].at == now
  {
    if queue == [] then [] else [Sent(queue[0].event, queue[0].typed, now)] + Stamped(queue[1..], now)
  }

  lemma {:induction false} StampedBytes(queue: seq<Outgoing>, now: nat)
    ensures SentBytes(Stamped(queue, now)) == QueuedBytes(queue)
  {
    if queue != [] {
      StampedBytes(queue[1..], now);
      assert Stamped(queue, now)[1..] == Stamped(queue[1..], now);
    }
  }

  function Writes(n: nat): seq<Op> { if n == 0 then [] else [Write] + Writes(n - 1) }

  lemma {:induction false} WritesDrain(c: Client, n: nat)
    requires n == |c.queue|
    ensures Run(c, Writes(n)) == c.(queue := [], sent := c.sent + Stamped(c.queue, c.Now()))
    decreases n
  {
    if n == 0 {
      assert c.sent + [] == c.sent;
    } else {
      var t := Step(c, Write);
      WritesDrain(t, n - 1);
      assert Writes(n)[1..] == Writes(n - 1);
      var first := [Sent(c.queue[0].event, c.queue[0].typed, c.Now())];
      assert c.sent + first + Stamped(t.queue, c.Now()) == c.sent + (first + Stamped(t.queue, c.Now()));
    }
  }

  /** One read, and all that it decodes written out before the next picture. */
  ghost function Burst(c: Client, bytes: seq<Byte>): Client
  {
    var r := Step(c, Read(bytes));
    Run(r, Writes(|r.queue|))
  }

  lemma LaterIsHeld(taken: seq<Typed>, rest: seq<Typed>, held: seq<Typed>, bytes: seq<Byte>, now: nat)
    requires taken + rest == held + ReadAt(bytes, now)
    ensures forall p :: 0 <= p < |taken| ==> (taken[p].at != now <==> p < |held| && held[p].at != now)
  {
    forall p | 0 <= p < |taken| ensures taken[p].at != now <==> p < |held| && held[p].at != now {
      assert taken[p] == (taken + rest)[p] == (held + ReadAt(bytes, now))[p];
    }
  }

  /**
   A burst takes what was held and then what was read, and of all its bytes the only ones stamped
   later than they were read are held ones, of which there are at most five.
   */
  lemma OnlyHeldBytesLag(c: Client, bytes: seq<Byte>)
    requires Invariant(c) && c.queue == []
    ensures Burst(c, bytes).queue == [] && c.sent <= Burst(c, bytes).sent && |c.held| <= 5
    ensures var written := Burst(c, bytes).sent[|c.sent|..];
            var typed := SentBytes(written);
      && typed + Burst(c, bytes).held == c.held + ReadAt(bytes, c.Now())
      && (forall i :: 0 <= i < |written| ==> written[i].at == c.Now())
      && (forall p :: 0 <= p < |typed| ==> (typed[p].at != c.Now() <==> p < |c.held| && c.held[p].at != c.Now()))
  {
    hide Step, Run, QueuedBytes, Spelled, Rising, SentBytes, NotAfter, ReadAt;
    var r := Step(c, Read(bytes));
    var written := Stamped(r.queue, c.Now());
    ReadDeals(c, bytes);
    WritesDrain(r, |r.queue|);
    StampedBytes(r.queue, c.Now());
    assert (c.sent + written)[|c.sent|..] == written;
    LaterIsHeld(QueuedBytes(r.queue), r.held, c.held, bytes, c.Now());
  }

  // ---------------------------------------------------------------- a report cut by two reads

  /** The frames of input the server gets. */
  function Frames(sent: seq<Sent>, numbers: seq<nat>): seq<seq<MouseStream.Tagged>>
  {
    if sent == [] then [] else
    (if sent[0].event.Input? && sent[0].at < |numbers|
     then [MouseStream.TagAll(sent[0].event.bytes, Some(numbers[sent[0].at]))] else [])
      + Frames(sent[1..], numbers)
  }

  /** The bytes of a report, after its first, start nothing the decoder would hold or take out. */
  lemma {:induction false} PlainDecodes(s: seq<Byte>)
    requires forall i :: 0 <= i < |s| ==> s[i] != ESC
    ensures OuterInput.Decode(false, s) == Scanned(OuterInput.Plains(s), [], false)
  {
    OuterInput.DecodeFront(false, s);
    if s == [] {
      assert OuterInput.Plains(s) == [];
    } else {
      NoMarker(s);
      PlainDecodes(s[1..]);
      assert OuterInput.Plains(s) == [OuterInput.Plain(s[0])] + OuterInput.Plains(s[1..]);
    }
  }

  lemma NoMarker(s: seq<Byte>)
    requires s != [] && (s[0] != ESC || INTRODUCER <= s)
    ensures OuterInput.Decide(false, s) == Take([OuterInput.Plain(s[0])], 1, false)
  {
    if INTRODUCER <= s {
      assert s[2] == INTRODUCER[2];
    }
  }

  /** A piece of a report that is no bare `ESC` or `ESC [`. */
  predicate Passes(s: seq<Byte>)
  {
    s != [] && (s[0] != ESC || INTRODUCER <= s) && forall i :: 0 < i < |s| ==> s[i] != ESC
  }

  /** It passes as one input. */
  lemma PiecePasses(s: seq<Byte>)
    requires Passes(s)
    ensures var r := OuterInput.Decode(false, s);
      r.pending == [] && !r.mode && OuterInput.Group(r.items) == [OuterInput.Input(s)]
  {
    hide OuterInput.Decide, OuterInput.Decode;
    OuterInput.DecodeFront(false, s);
    NoMarker(s);
    PlainDecodes(s[1..]);
    assert OuterInput.Plains(s) == [OuterInput.Plain(s[0])] + OuterInput.Plains(s[1..]);
    var event := [OuterInput.Input(s)];
    assert event[1..] == [] && OuterInput.Flatten(event) == OuterInput.Plains(s);
    OuterInput.GroupIsUnique(event);
  }

  /** A read of such a piece, with what was held before it, queues it as one input. */
  lemma ReadPasses(c: Client, bytes: seq<Byte>, piece: seq<Byte>)
    requires c.queue == [] && !c.paste && piece == Bytes(c.held) + bytes && Passes(piece)
    ensures Step(c, Read(bytes)) == c.(held := [], read := c.read + ReadAt(bytes, c.Now()),
      queue := [Outgoing(OuterInput.Input(piece), c.held + ReadAt(bytes, c.Now()))])
  {
    hide OuterInput.Decode, OuterInput.Group, Passes;
    var all := c.held + ReadAt(bytes, c.Now());
    assert Bytes(all) == piece;
    PiecePasses(piece);
    var r := OuterInput.Decode(false, piece);
    assert all[..|all|] == all && all[|all|..] == [];
    DealOne(OuterInput.Input(piece), all);
  }

  lemma DealOne(e: OuterInput.Event, typed: seq<Typed>)
    requires |Spelled(e)| == |typed|
    ensures Deal([e], typed) == [Outgoing(e, typed)]
  {
    assert [e][1..] == [] && typed[..|typed|] == typed;
  }

  /** A read of a bare `ESC` or `ESC [` is held. */
  lemma ReadHolds(c: Client, bytes: seq<Byte>)
    requires c.queue == [] && c.held == [] && !c.paste && IsIntroducerPrefix(bytes)
    ensures Step(c, Read(bytes))
      == c.(held := ReadAt(bytes, c.Now()), read := c.read + ReadAt(bytes, c.Now()), queue := [])
  {
    var all := [] + ReadAt(bytes, c.Now());
    assert all == ReadAt(bytes, c.Now()) && Bytes(all) == bytes;
    PrefixIsHeld(bytes);
    assert all[0..] == all && all[..0] == [];
  }

  lemma PrefixIsHeld(s: seq<Byte>)
    requires IsIntroducerPrefix(s)
    ensures OuterInput.Decode(false, s) == Scanned([], s, false) && OuterInput.Group([]) == []
  {
    assert s == INTRODUCER[..|s|] && OuterInput.FOCUS_GAINED[..2] == INTRODUCER[..2];
    assert OuterInput.LegalPending(false, s);
    OuterInput.HeldIsLegal(false, s);
    OuterInput.DecodeFront(false, s);
  }

  /** A report arrives in two reads, and a newer picture is published between them. */
  function CutRun(text: seq<Byte>, k: nat, first: nat, second: nat): seq<Op>
    requires k <= |text|
  {
    [Publish(first), Read(text[..k]), Write, Publish(second), Read(text[k..]), Write]
  }

  lemma FirstOp(c: Client, op: Op, rest: seq<Op>)
    ensures Run(c, [op] + rest) == Run(Step(c, op), rest)
    ensures PublishesRising(c, [op] + rest) <==>
      (op.Publish? ==> c.numbers != [] && c.numbers[|c.numbers| - 1] < op.number) && PublishesRising(Step(c, op), rest)
    ensures !op.Publish? ==> Step(c, op).numbers == c.numbers
  {
    assert ([op] + rest)[1..] == rest;
  }

  /** A picture, a burst with room for one write, a newer picture, another such burst. */
  lemma TwoBursts(c: Client, first: nat, x: seq<Byte>, second: nat, y: seq<Byte>)
    requires c.numbers != []
    ensures var ops := [Publish(first), Read(x), Write, Publish(second), Read(y), Write];
      && Run(c, ops)
        == Step(Step(Step(Step(Step(Step(c, Publish(first)), Read(x)), Write), Publish(second)), Read(y)), Write)
      && (PublishesRising(c, ops) <==> c.numbers[|c.numbers| - 1] < first < second)
  {
    hide Run, PublishesRising;
    var c1 := Step(c, Publish(first));
    assert c1.numbers == c.numbers + [first];
    hide Step;
    var (c2, c3) := (Step(c1, Read(x)), Step(Step(c1, Read(x)), Write));
    var (c4, c5) := (Step(c3, Publish(second)), Step(Step(c3, Publish(second)), Read(y)));
    assert [Publish(first)] + ([Read(x)] + ([Write] + ([Publish(second)] + ([Read(y)] + ([Write] + [])))))
      == [Publish(first), Read(x), Write, Publish(second), Read(y), Write];
    FirstOp(c, Publish(first), [Read(x)] + ([Write] + ([Publish(second)] + ([Read(y)] + ([Write] + [])))));
    FirstOp(c1, Read(x), [Write] + ([Publish(second)] + ([Read(y)] + ([Write] + []))));
    FirstOp(c2, Write, [Publish(second)] + ([Read(y)] + ([Write] + [])));
    FirstOp(c3, Publish(second), [Read(y)] + ([Write] + []));
    FirstOp(c4, Read(y), [Write] + []);
    FirstOp(c5, Write, []);
    NoOps(Step(c5, Write));
  }

  lemma NoOps(c: Client)
    ensures Run(c, []) == c && PublishesRising(c, [])
  {
  }

  lemma ReportPieces(text: seq<Byte>, k: nat)
    requires Parsed(text).Some? && Parsed(text).value.1 == |text| && 1 <= k < |text|
    ensures Passes(text) && INTRODUCER <= text
    ensures if k < 3 then IsIntroducerPrefix(text[..k]) else Passes(text[..k]) && Passes(text[k..])
  {
    hide Parsed;
    ParsedShape(text);
    forall i | 0 < i < |text| ensures text[i] != ESC { ReportHasOneEscape(text, i); }
    if k >= 3 { assert text[..k][..3] == text[..3]; }
  }

  /** What the server gets. */
  lemma FramesOfCut(text: seq<Byte>, k: nat, first: nat, second: nat)
    requires Parsed(text).Some? && Parsed(text).value.1 == |text| && 1 <= k < |text|
    ensures var c := Run(START, CutRun(text, k, first, second));
            Frames(c.sent, c.numbers) ==
              if k < 3 then [MouseStream.TagAll(text, Some(second))]
              else [MouseStream.TagAll(text[..k], Some(first)), MouseStream.TagAll(text[k..], Some(second))]
  {
    hide Parsed, Passes, IsIntroducerPrefix;
    ReportPieces(text, k);
    TwoBursts(START, first, text[..k], second, text[k..]);
    var c1 := Step(START, Publish(first));
    assert c1 == START.(numbers := [0, first]);
    if k < 3 {
      HeldThenWhole(c1, text, k, second);
    } else {
      PieceByPiece(c1, text, k, second);
    }
  }

  lemma HeldThenWhole(c: Client, text: seq<Byte>, k: nat, second: nat)
    requires k <= |text| && IsIntroducerPrefix(text[..k]) && Passes(text)
    requires c.queue == [] && c.held == [] && !c.paste && c.sent == [] && c.numbers != []
    ensures var t := Step(Step(Step(Step(Step(c, Read(text[..k])), Write), Publish(second)), Read(text[k..])), Write);
            Frames(t.sent, t.numbers) == [MouseStream.TagAll(text, Some(second))]
  {
    hide Passes, IsIntroducerPrefix, OuterInput.Decode, OuterInput.Group, Deal;
    ReadHolds(c, text[..k]);
    var c2 := Step(Step(Step(c, Read(text[..k])), Write), Publish(second));
    assert Bytes(c2.held) == text[..k] && text[..k] + text[k..] == text;
    ReadPasses(c2, text[k..], text);
    var t := Step(Step(c2, Read(text[k..])), Write);
    assert t.sent == [Sent(OuterInput.Input(text), t.sent[0].typed, |c.numbers|)];
    assert t.numbers[|c.numbers|] == second;
    OneFrame(t.sent[0], t.numbers, text);
  }

  lemma OneFrame(one: Sent, numbers: seq<nat>, text: seq<Byte>)
    requires one.event == OuterInput.Input(text) && one.at < |numbers|
    ensures Frames([one], numbers) == [MouseStream.TagAll(text, Some(numbers[one.at]))]
  {
    assert [one][1..] == [];
  }

  lemma PieceByPiece(c: Client, text: seq<Byte>, k: nat, second: nat)
    requires k <= |text| && Passes(text[..k]) && Passes(text[k..])
    requires c.queue == [] && c.held == [] && !c.paste && c.sent == [] && c.numbers != []
    ensures var t := Step(Step(Step(Step(Step(c, Read(text[..k])), Write), Publish(second)), Read(text[k..])), Write);
            Frames(t.sent, t.numbers) ==
              [MouseStream.TagAll(text[..k], Some(c.numbers[c.Now()])), MouseStream.TagAll(text[k..], Some(second))]
  {
    hide Passes, OuterInput.Decode, OuterInput.Group, Deal;
    assert Bytes([]) + text[..k] == text[..k] && Bytes([]) + text[k..] == text[k..];
    ReadPasses(c, text[..k], text[..k]);
    var c2 := Step(Step(Step(c, Read(text[..k])), Write), Publish(second));
    ReadPasses(c2, text[k..], text[k..]);
    var t := Step(Step(c2, Read(text[k..])), Write);
    var (one, two) := (t.sent[0], t.sent[1]);
    assert t.sent == [one, two] && t.sent[1..] == [two];
    assert t.numbers[c.Now()] == c.numbers[c.Now()] && t.numbers[|c.numbers|] == second;
    OneFrame(two, t.numbers, text[k..]);
  }

  lemma ServerReadsOne<W(!new)>(sv: MouseStream.Server<W>, w: W, held: seq<MouseStream.Tagged>,
    frame: seq<MouseStream.Tagged>)
    ensures var r := MouseStream.Decode(sv, w, held + frame);
            MouseStream.ServerReads(sv, w, held, [frame]) == (r.items, r.mode)
  {
    hide MouseStream.Decode;
    var r := MouseStream.Decode(sv, w, held + frame);
    assert [frame][1..] == [] && r.items + [] == r.items;
    assert MouseStream.ServerReads(sv, r.mode, MouseStream.Relabelled(r.pending), []) == ([], r.mode);
  }

  lemma ServerTakesWhole<W(!new)>(sv: MouseStream.Server<W>, w: W, text: seq<Byte>, epoch: MouseStream.Epoch)
    requires Parsed(text).Some? && Parsed(text).value.1 == |text|
    ensures var report := Parsed(text).value.0;
            MouseStream.ServerReads(sv, w, [], [MouseStream.TagAll(text, epoch)])
              == ([MouseStream.Pointer(report, epoch)], sv.handle(w, report, epoch))
  {
    hide Parsed, MouseStream.Decode;
    var t := MouseStream.TagAll(text, epoch);
    assert MouseStream.Bytes(t) == text && [] + t == t;
    MouseStream.WholeReport(sv, w, t);
    ServerReadsOne(sv, w, [], t);
  }

  /** The server acts on a report cut past its introducer under the number of the first piece. */
  lemma ServerTakesCut<W(!new)>(
    sv: MouseStream.Server<W>, w: W, text: seq<Byte>, k: nat, first: MouseStream.Epoch, second: MouseStream.Epoch)
    requires Parsed(text).Some? && Parsed(text).value.1 == |text| && 3 <= k < |text|
    ensures var report := Parsed(text).value.0;
            var frames := [MouseStream.TagAll(text[..k], first), MouseStream.TagAll(text[k..], second)];
            MouseStream.ServerReads(sv, w, [], frames)
              == ([MouseStream.Pointer(report, first)], sv.handle(w, report, first))
  {
    hide Parsed, MouseStream.Decode, IsPartial;
    var (s, t) := (MouseStream.TagAll(text[..k], first), MouseStream.TagAll(text[k..], second));
    CutIsPartial(text, k);
    assert MouseStream.Bytes(s) == text[..k] && [] + s == s;
    MouseStream.PartialHolds(sv, w, s);
    assert MouseStream.Relabelled(s) == s;
    assert MouseStream.Bytes(s + t) == text;
    MouseStream.WholeReport(sv, w, s + t);
    ServerReadsOne(sv, w, s, t);
    var rest := MouseStream.ServerReads(sv, w, s, [t]);
    assert [s, t][1..] == [t] && [] + rest.0 == rest.0;
  }

  lemma CutIsPartial(text: seq<Byte>, k: nat)
    requires Parsed(text).Some? && Parsed(text).value.1 == |text| && 3 <= k < |text|
    ensures IsPartial(text[..k])
  {
    hide ParseBody;
    MouseStream.ReportEndsWithItsTerminator(text);
    assert INTRODUCER <= text[..k] by { assert text[..k][..3] == text[..3]; }
  }

  /**
   End to end: a report arrives in two reads with a newer picture published between them. Whatever
   the server is doing, it acts on the report once, under the picture its first byte was typed at if
   and only if the cut falls past the introducer; cut inside, the first bytes were held and then
   stamped with the newer picture.
   */
  lemma CutReportMeetsItsPicture<W(!new)>(
    sv: MouseStream.Server<W>, w: W, text: seq<Byte>, k: nat, first: nat, second: nat)
    requires Parsed(text).Some? && Parsed(text).value.1 == |text| && 1 <= k < |text| && 0 < first < second
    ensures PublishesRising(START, CutRun(text, k, first, second))
    ensures var c := Run(START, CutRun(text, k, first, second));
            var stamp := Some(if k < 3 then second else first);
            var report := Parsed(text).value.0;
            MouseStream.ServerReads(sv, w, [], Frames(c.sent, c.numbers))
              == ([MouseStream.Pointer(report, stamp)], sv.handle(w, report, stamp))
  {
    hide Parsed, Run, Frames, Step;
    TwoBursts(START, first, text[..k], second, text[k..]);
    FramesOfCut(text, k, first, second);
    if k < 3 {
      ServerTakesWhole(sv, w, text, Some(second));
    } else {
      ServerTakesCut(sv, w, text, k, Some(first), Some(second));
    }
  }
}
