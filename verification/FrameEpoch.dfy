/**
 Which picture did the user click on? The server numbers every picture it sends to a client and
 remembers the last few interaction maps; the client publishes the number of a picture once it is on
 the terminal and stamps it on the input it sends. Server, channel, terminal and input run
 concurrently.
 */
module FrameEpoch {
  import opened Common

  const U64_MAX: nat := 0xffff_ffff_ffff_ffff
  const FRAME_HISTORY_LIMIT: nat := 32

  datatype Snapshot<M> = Snapshot(epoch: nat, interactions: M)

  datatype InputFrame<M> = Live | Missing | Applied(frame: Snapshot<M>)

  /** The server's side of one client: the next number and the pictures still remembered. */
  datatype Emitter<M> = Emitter(next: nat, history: seq<Snapshot<M>>)

  function Successor(epoch: nat): nat { if epoch == U64_MAX then 1 else epoch + 1 }

  function LastFew<T>(s: seq<T>): seq<T>
  {
    if |s| > FRAME_HISTORY_LIMIT then s[|s| - FRAME_HISTORY_LIMIT..] else s
  }

  /** Nothing to send: no bytes, and the newest remembered map is still the current one. */
  predicate Skips<M(==)>(e: Emitter<M>, noBytes: bool, map_: M)
  {
    noBytes && e.history != [] && e.history[|e.history| - 1].interactions == map_
  }

  /** After a picture is sent. The numbers start over after the largest, with an empty memory. */
  function Emitted<M>(e: Emitter<M>, map_: M): Emitter<M>
  {
    var kept := if e.next == U64_MAX then [] else e.history;
    Emitter(Successor(e.next), LastFew(kept + [Snapshot(e.next, map_)]))
  }

  /** The remembered picture of that number. */
  function Resolve<M>(history: seq<Snapshot<M>>, epoch: nat): InputFrame<M>
  {
    if history == [] then Missing
    else if history[0].epoch == epoch then Applied(history[0])
    else Resolve(history[1..], epoch)
  }

  /** The newest of all, and no fewer than may be kept. */
  ghost predicate Trimmed<T>(all: seq<T>, kept: seq<T>)
  {
    && |kept| <= |all| && kept == all[|all| - |kept|..]
    && (|kept| < |all| ==> |kept| >= FRAME_HISTORY_LIMIT)
  }

  lemma StartTrimming<T>(all: seq<T>)
    ensures Trimmed(all, all)
  {
  }

  lemma TrimOne<T>(all: seq<T>, kept: seq<T>)
    requires Trimmed(all, kept) && |kept| > FRAME_HISTORY_LIMIT
    ensures Trimmed(all, kept[1..])
  {
  }

  lemma StopTrimming<T>(all: seq<T>, kept: seq<T>)
    requires Trimmed(all, kept) && |kept| <= FRAME_HISTORY_LIMIT
    ensures kept == LastFew(all)
    ensures all != [] ==> kept != [] && kept[|kept| - 1] == all[|all| - 1]
  {
  }

  /** Forget the oldest until few enough are left. */
  method Trim<T>(all: seq<T>) returns (kept: seq<T>)
    ensures kept == LastFew(all)
    ensures all != [] ==> kept != [] && kept[|kept| - 1] == all[|all| - 1]
  {
    hide Trimmed, LastFew;
    kept := all;
    StartTrimming(all);
    while |kept| > FRAME_HISTORY_LIMIT
      invariant Trimmed(all, kept)
    {
      TrimOne(all, kept);
      kept := kept[1..];
    }
    StopTrimming(all, kept);
  }

  class ClientHandle<M(==)> {
    var nextFrameEpoch: nat
    var frameHistory: seq<Snapshot<M>>
    /** What has been sent on the way to this client, oldest first. */
    var out: seq<Msg>

    ghost function Value(): Emitter<M>
      reads this
    {
      Emitter(nextFrameEpoch, frameHistory)
    }

    constructor ()
      ensures Value() == Emitter(1, []) && out == []
    {
      nextFrameEpoch, frameHistory, out := 1, [], [];
    }

    /** Send a rendered picture, unless it changes neither the screen nor what a click would mean. */
    method EmitClient(noBytes: bool, interactions: M)
      modifies this
      ensures if Skips(old(Value()), noBytes, interactions)
              then Value() == old(Value()) && out == old(out)
              else Value() == Emitted(old(Value()), interactions) && out == old(out) + [FrameAt(old(nextFrameEpoch))]
      ensures frameHistory != [] && frameHistory[|frameHistory| - 1].interactions == interactions
    {
      var interactionsChanged := frameHistory == [] || frameHistory[|frameHistory| - 1].interactions != interactions;
      if noBytes && !interactionsChanged {
        return;
      }
      var epoch := nextFrameEpoch;
      nextFrameEpoch := if epoch == U64_MAX then 1 else epoch + 1;
      if epoch == U64_MAX {
        frameHistory := [];
      }
      frameHistory := Trim(frameHistory + [Snapshot(epoch, interactions)]);
      out := out + [FrameAt(epoch)];
    }

    /** The picture an input refers to: the live one when it names none. */
    method InputFrame(epoch: Option<nat>) returns (frame: InputFrame<M>)
      ensures frame == match epoch case None => Live case Some(e) => Resolve(frameHistory, e)
    {
      if epoch.None? {
        return Live;
      }
      var i := 0;
      while i < |frameHistory| && frameHistory[i].epoch != epoch.value
        invariant 0 <= i <= |frameHistory|
        invariant Resolve(frameHistory, epoch.value) == Resolve(frameHistory[i..], epoch.value)
      {
        assert frameHistory[i..][1..] == frameHistory[i + 1..];
        i := i + 1;
      }
      frame := if i < |frameHistory| then Applied(frameHistory[i]) else Missing;
    }
  }

  // ---------------------------------------------------------------- the memory, wrap-around included

  /** Consecutive numbers, none of them zero; the largest can only come first. */
  ghost predicate Contiguous<M>(e: Emitter<M>)
  {
    var h := e.history;
    && |h| <= FRAME_HISTORY_LIMIT
    && 0 < e.next <= U64_MAX
    && (h != [] ==>
          && 0 < h[0].epoch <= U64_MAX
          && (forall i :: 0 < i < |h| ==> h[i].epoch == (if h[0].epoch == U64_MAX then i else h[0].epoch + i))
          && e.next == Successor(h[|h| - 1].epoch)
          && (h[0].epoch != U64_MAX ==> h[0].epoch + |h| <= U64_MAX))
  }

  lemma FirstRemembered<M>(picture: Snapshot<M>)
    requires 0 < picture.epoch <= U64_MAX
    ensures Contiguous(Emitter(Successor(picture.epoch), [picture]))
  {
  }

  lemma OneMoreRemembered<M>(e: Emitter<M>, picture: Snapshot<M>)
    requires Contiguous(e) && picture.epoch == e.next != U64_MAX && e.history != [] && |e.history| < FRAME_HISTORY_LIMIT
    ensures Contiguous(Emitter(Successor(e.next), e.history + [picture]))
  {
    var (h, all) := (e.history, e.history + [picture]);
    assert all[0] == h[0] && all[|h|] == picture && |all| == |h| + 1;
    assert picture.epoch == (if h[0].epoch == U64_MAX then |h| else h[0].epoch + |h|) by {
      if |h| > 1 { assert h[|h| - 1].epoch == (if h[0].epoch == U64_MAX then |h| - 1 else h[0].epoch + (|h| - 1)); }
    }
    forall i | 0 < i < |all| ensures all[i].epoch == (if all[0].epoch == U64_MAX then i else all[0].epoch + i) {
      if i < |h| { assert all[i] == h[i]; }
    }
  }

  lemma OldestForgotten<M>(e: Emitter<M>)
    requires Contiguous(e) && |e.history| > 1
    ensures Contiguous(e.(history := e.history[1..]))
  {
    var (h, rest) := (e.history, e.history[1..]);
    assert rest[0] == h[1] && rest[|rest| - 1] == h[|h| - 1];
    forall i | 0 < i < |rest| ensures rest[i].epoch == rest[0].epoch + i {
      assert rest[i] == h[i + 1];
    }
  }

  /** Sending keeps the memory contiguous and bounded, for every number, wrap-around included. */
  lemma EmittingStaysContiguous<M>(e: Emitter<M>, map_: M)
    requires Contiguous(e)
    ensures Contiguous(Emitted(e, map_))
    ensures var h := Emitted(e, map_).history; h != [] && h[|h| - 1] == Snapshot(e.next, map_)
  {
    var (h, picture) := (e.history, Snapshot(e.next, map_));
    if e.next == U64_MAX || h == [] {
      FirstRemembered(picture);
      assert [] + [picture] == [picture];
    } else if |h| < FRAME_HISTORY_LIMIT {
      OneMoreRemembered(e, picture);
    } else {
      OldestForgotten(e);
      OneMoreRemembered(e.(history := h[1..]), picture);
      assert LastFew(h + [picture]) == h[1..] + [picture];
    }
  }

  /** So a number names at most one remembered picture, and zero names none. */
  lemma {:induction false} NumbersAreUnique<M>(e: Emitter<M>, epoch: nat)
    requires Contiguous(e)
    ensures forall i ::
      0 <= i < |e.history| && e.history[i].epoch == epoch ==> Resolve(e.history, epoch) == Applied(e.history[i])
    ensures Resolve(e.history, epoch) == Missing <==> forall i :: 0 <= i < |e.history| ==> e.history[i].epoch != epoch
    ensures Resolve(e.history, 0) == Missing
  {
    FirstOfItsNumber(e.history, epoch);
    FirstOfItsNumber(e.history, 0);
  }

  lemma {:induction false} FirstOfItsNumber<M>(h: seq<Snapshot<M>>, epoch: nat)
    ensures match Resolve(h, epoch)
            case Applied(f) =>
              exists i ::
                && 0 <= i < |h| && h[i] == f && f.epoch == epoch
                && forall j :: 0 <= j < i ==> h[j].epoch != epoch
            case Missing => forall i :: 0 <= i < |h| ==> h[i].epoch != epoch
            case Live => false
  {
    if h != [] && h[0].epoch != epoch {
      FirstOfItsNumber(h[1..], epoch);
      if Resolve(h, epoch).Applied? {
        var f := Resolve(h, epoch).frame;
        var i :|
          && 0 <= i < |h[1..]| && h[1..][i] == f && f.epoch == epoch
          && forall j :: 0 <= j < i ==> h[1..][j].epoch != epoch;
        assert h[i + 1] == f;
        assert forall j :: 0 < j < i + 1 ==> h[j] == h[1..][j - 1];
      }
    }
  }

  // ---------------------------------------------------------------- the whole system

  /** What the server sends: a numbered picture, other text for the terminal, a notice, the end. */
  datatype Msg = FrameAt(epoch: nat) | Text | Notice | Ending

  datatype Action = Write | Ignore | Stop

  function ReaderAction(msg: Msg): Action
  {
    match msg
    case FrameAt(_) => Write
    case Text => Write
    case Notice => Ignore
    case Ending => Stop
  }

  /** The client's reader thread: waiting, with a message written, with it flushed, or stopped. */
  datatype Reader = Waiting | Written(msg: Msg) | Flushed(msg: Msg) | Stopped

  /** An input on its way: its stamp, and for the record the picture then on the terminal. */
  datatype Stamp = Stamp(epoch: nat, shown: nat, unpublished: bool)

  /** How the server took an input, and how many pictures it had sent by then. */
  datatype Receipt<M> = Receipt(stamp: Stamp, answer: InputFrame<M>, sent: nat)

  datatype System<M> = System(
    server: Emitter<M>,
    channel: seq<Msg>,
    reader: Reader,
    applied: nat,
    inbound: seq<Stamp>,
    log: seq<Snapshot<M>>,
    shown: nat,
    receipts: seq<Receipt<M>>)

  function Start<M>(): System<M> { System(Emitter(1, []), [], Waiting, 0, [], [], 0, []) }

  /** One atomic step of one of the parties. */
  datatype Op<M> =
    | Emit(noBytes: bool, map_: M)
    | Send(other: Msg)
    | TakeMessage
    | Flush
    | Publish
    | Fail
    | TypeInput
    | Receive

  predicate Unpublished(r: Reader) { r.Flushed? && r.msg.FrameAt? }

  function Step<M(==)>(s: System<M>, op: Op<M>): System<M>
  {
    match op
    case Emit(noBytes, map_) =>
      if Skips(s.server, noBytes, map_) then s
      else
        s.(server := Emitted(s.server, map_),
           channel := s.channel + [FrameAt(s.server.next)],
           log := s.log + [Snapshot(s.server.next, map_)])
    case Send(msg) => if msg.FrameAt? then s else s.(channel := s.channel + [msg])
    case TakeMessage =>
      if s.channel == [] || !s.reader.Waiting? then s else
      var reader :=
        match ReaderAction(s.channel[0])
        case Write => Written(s.channel[0])
        case Ignore => Waiting
        case Stop => Stopped;
      s.(channel := s.channel[1..], reader := reader)
    case Flush =>
      if !s.reader.Written? then s else
      s.(reader := Flushed(s.reader.msg), shown := if s.reader.msg.FrameAt? then s.reader.msg.epoch else s.shown)
    case Publish =>
      if !s.reader.Flushed? then s else
      s.(reader := Waiting, applied := if s.reader.msg.FrameAt? then s.reader.msg.epoch else s.applied)
    case Fail => if s.reader.Flushed? then s else s.(reader := Stopped)
    case TypeInput => s.(inbound := s.inbound + [Stamp(s.applied, s.shown, Unpublished(s.reader))])
    case Receive =>
      if s.inbound == [] then s else
      s.(inbound := s.inbound[1..],
         receipts := s.receipts + [Receipt(s.inbound[0], Resolve(s.server.history, s.inbound[0].epoch), |s.log|)])
  }

  function Run<M(==)>(s: System<M>, ops: seq<Op<M>>): System<M>
    decreases |ops|
  {
    if ops == [] then s else Run(Step(s, ops[0]), ops[1..])
  }

  /** The pictures in the channel, oldest first, lie above `low` and reach at most `high`. */
  ghost predicate Rising(channel: seq<Msg>, low: nat, high: nat)
  {
    if channel == [] then low <= high
    else if channel[0].FrameAt? then low < channel[0].epoch && Rising(channel[1..], channel[0].epoch, high)
    else Rising(channel[1..], low, high)
  }

  lemma {:induction false} RisingAppend(channel: seq<Msg>, low: nat, high: nat, msg: Msg)
    requires Rising(channel, low, high)
    ensures low <= high
    ensures !msg.FrameAt? ==> Rising(channel + [msg], low, high)
    ensures msg == FrameAt(high + 1) ==> Rising(channel + [msg], low, high + 1)
  {
    if channel == [] {
      assert [msg][1..] == [];
    } else {
      assert (channel + [msg])[1..] == channel[1..] + [msg];
      RisingAppend(channel[1..], if channel[0].FrameAt? then channel[0].epoch else low, high, msg);
    }
  }

  lemma {:induction false} RisingFromLower(channel: seq<Msg>, low: nat, lower: nat, high: nat)
    requires Rising(channel, low, high) && lower <= low
    ensures low <= high && Rising(channel, lower, high)
    decreases |channel|
  {
    if channel != [] {
      if channel[0].FrameAt? {
        RisingFromLower(channel[1..], channel[0].epoch, channel[0].epoch, high);
      } else {
        RisingFromLower(channel[1..], low, lower, high);
      }
    }
  }

  /** Below the wrap-around the numbers count the pictures sent, and the memory is their tail. */
  ghost predicate Counts<M>(server: Emitter<M>, log: seq<Snapshot<M>>)
  {
    && |log| < U64_MAX
    && server == Emitter(|log| + 1, LastFew(log))
    && forall i :: 0 <= i < |log| ==> log[i].epoch == i + 1
  }

  lemma {:induction false} ResolveCounts<M>(log: seq<Snapshot<M>>, from: nat, epoch: nat)
    requires from <= |log| && epoch <= |log| && forall i :: 0 <= i < |log| ==> log[i].epoch == i + 1
    ensures Resolve(log[from..], epoch) == if epoch <= from then Missing else Applied(log[epoch - 1])
    decreases |log| - from
  {
    if from < |log| {
      assert log[from..][1..] == log[from + 1..] && log[from..][0] == log[from];
      ResolveCounts(log, from + 1, epoch);
    }
  }

  /** The last picture taken off the channel, and what the terminal and the stamps know of it. */
  ghost predicate ReaderFollows<M>(s: System<M>)
  {
    && s.applied <= s.shown <= |s.log|
    && match s.reader
       case Written(FrameAt(e)) => s.applied == s.shown < e && Rising(s.channel, e, |s.log|)
       case Flushed(FrameAt(e)) => s.applied < s.shown == e && Rising(s.channel, e, |s.log|)
       case _ => s.applied == s.shown && Rising(s.channel, s.shown, |s.log|)
  }

  /** A stamp is the picture on the terminal, except just before that picture is published. */
  ghost predicate Honest(stamp: Stamp, sent: nat)
  {
    stamp.epoch <= stamp.shown <= sent && (stamp.unpublished <==> stamp.epoch != stamp.shown)
  }

  /** What an input stamped so is taken for. */
  ghost predicate Answered<M>(r: Receipt<M>, log: seq<Snapshot<M>>)
  {
    && Honest(r.stamp, r.sent) && r.sent <= |log|
    && r.answer == (if r.stamp.epoch == 0 || r.stamp.epoch + FRAME_HISTORY_LIMIT <= r.sent then Missing
                    else Applied(log[r.stamp.epoch - 1]))
  }

  ghost predicate Invariant<M>(s: System<M>)
  {
    && Counts(s.server, s.log)
    && ReaderFollows(s)
    && (forall i :: 0 <= i < |s.inbound| ==> Honest(s.inbound[i], |s.log|))
    && (forall i :: 0 <= i < |s.receipts| ==> Answered(s.receipts[i], s.log))
  }

  lemma EmitKeeps<M>(s: System<M>, noBytes: bool, map_: M)
    requires Invariant(s) && |s.log| + 1 < U64_MAX
    ensures Invariant(Step(s, Emit(noBytes, map_)))
  {
    if !Skips(s.server, noBytes, map_) {
      var t := Step(s, Emit(noBytes, map_));
      assert t.server.history == LastFew(t.log);
      var taken := match s.reader case Written(FrameAt(e)) => e case _ => s.shown;
      RisingAppend(s.channel, taken, |s.log|, FrameAt(s.server.next));
      assert forall i :: 0 <= i < |s.log| ==> t.log[i] == s.log[i];
    }
  }

  lemma ReceiveKeeps<M>(s: System<M>)
    requires Invariant(s)
    ensures Invariant(Step(s, Receive))
  {
    hide Rising;
    if s.inbound != [] {
      var stamp := s.inbound[0];
      var from := if |s.log| > FRAME_HISTORY_LIMIT then |s.log| - FRAME_HISTORY_LIMIT else 0;
      assert s.server.history == s.log[from..];
      ResolveCounts(s.log, from, stamp.epoch);
    }
  }

  lemma ReaderKeeps<M>(s: System<M>, op: Op<M>)
    requires Invariant(s) && op in [TakeMessage, Flush, Publish, Fail]
    ensures Invariant(Step(s, op)) && Step(s, op).log == s.log
  {
    var taken := match s.reader case Written(FrameAt(e)) => e case _ => s.shown;
    RisingFromLower(s.channel, taken, s.shown, |s.log|);
  }

  lemma StepKeeps<M>(s: System<M>, op: Op<M>)
    requires Invariant(s) && |s.log| + 1 < U64_MAX
    ensures Invariant(Step(s, op)) && |Step(s, op).log| <= |s.log| + 1
  {
    match op
    case Emit(noBytes, map_) => EmitKeeps(s, noBytes, map_);
    case Receive => ReceiveKeeps(s);
    case Send(msg) =>
      if !msg.FrameAt? {
        RisingAppend(s.channel, match s.reader case Written(FrameAt(e)) => e case _ => s.shown, |s.log|, msg);
      }
    case TypeInput =>
    case _ => ReaderKeeps(s, op);
  }

  lemma {:induction false} RunKeeps<M>(s: System<M>, ops: seq<Op<M>>)
    requires Invariant(s) && |s.log| + |ops| < U64_MAX
    ensures Invariant(Run(s, ops))
    decreases |ops|
  {
    if ops != [] {
      StepKeeps(s, ops[0]);
      RunKeeps(Step(s, ops[0]), ops[1..]);
    }
  }

  /**
   Epoch safety. Over every interleaving, short of numbering as many pictures as there are numbers,
   an input is taken either for the very picture it is stamped with or for none: for none exactly
   when it was typed before the first picture or so many were sent since. And the picture it is
   stamped with is the one on the terminal exactly when that one had been published.
   */
  lemma InputsMeetTheirPicture<M>(ops: seq<Op<M>>, i: nat)
    requires |ops| < U64_MAX
    requires i < |Run(Start<M>(), ops).receipts|
    ensures var s := Run(Start<M>(), ops); var r := s.receipts[i];
      && r.stamp.shown <= r.sent <= |s.log|
      && (r.stamp.epoch == r.stamp.shown <==> !r.stamp.unpublished)
      && (r.answer == Missing <==> r.stamp.epoch == 0 || r.stamp.epoch + FRAME_HISTORY_LIMIT <= r.sent)
      && (r.answer != Missing ==>
            && 0 < r.stamp.epoch <= |s.log|
            && 0 < r.stamp.shown
            && r.answer == Applied(s.log[r.stamp.epoch - 1])
            && (r.answer == Applied(s.log[r.stamp.shown - 1]) <==> !r.stamp.unpublished))
  {
    RunKeeps(Start(), ops);
  }

  /** Every picture in the log was sent together with the map remembered for it. */
  lemma MapsBelongToTheirFrame<M>(s: System<M>, noBytes: bool, map_: M)
    requires Invariant(s) && |s.log| + 1 < U64_MAX
    ensures var t := Step(s, Emit(noBytes, map_));
      && t.log != [] && t.log[|t.log| - 1].interactions == map_ && s.log <= t.log
      && t.server.history[|t.server.history| - 1] == t.log[|t.log| - 1]
      && (t.channel == s.channel || t.channel == s.channel + [FrameAt(t.log[|t.log| - 1].epoch)])
      && (t.channel == s.channel <==> t.log == s.log)
      && (t.log == s.log <==> noBytes && s.log != [] && s.log[|s.log| - 1].interactions == map_)
  {
  }

  // ---------------------------------------------------------------- pictures arrive

  /** The number of the last picture among what is on its way, or of the one before. */
  function Newest(channel: seq<Msg>, before: nat): nat
  {
    if channel == [] then before else Newest(channel[1..], if channel[0].FrameAt? then channel[0].epoch else before)
  }

  lemma {:induction false} NewestAppend(channel: seq<Msg>, before: nat, msg: Msg)
    ensures Newest(channel + [msg], before) == if msg.FrameAt? then msg.epoch else Newest(channel, before)
    decreases |channel|
  {
    if channel == [] {
      assert [msg][1..] == [];
    } else {
      assert (channel + [msg])[1..] == channel[1..] + [msg];
      NewestAppend(channel[1..], if channel[0].FrameAt? then channel[0].epoch else before, msg);
    }
  }

  /** Unless the reader has stopped, the newest picture sent is on its way or shown. */
  ghost predicate NothingLost<M>(s: System<M>)
  {
    var taken := match s.reader case Written(FrameAt(e)) => e case _ => s.shown;
    s.reader.Stopped? || Newest(s.channel, taken) == |s.log|
  }

  lemma StepLosesNothing<M>(s: System<M>, op: Op<M>)
    requires Invariant(s) && NothingLost(s)
    ensures NothingLost(Step(s, op))
  {
    hide Resolve, LastFew;
    var taken := match s.reader case Written(FrameAt(e)) => e case _ => s.shown;
    match op
    case Emit(_, _) => NewestAppend(s.channel, taken, FrameAt(s.server.next));
    case Send(msg) => NewestAppend(s.channel, taken, msg);
    case _ =>
  }

  lemma {:induction false} RunLosesNothing<M>(s: System<M>, ops: seq<Op<M>>)
    requires Invariant(s) && NothingLost(s) && |s.log| + |ops| < U64_MAX
    ensures Invariant(Run(s, ops)) && NothingLost(Run(s, ops))
    decreases |ops|
  {
    if ops != [] {
      StepKeeps(s, ops[0]);
      StepLosesNothing(s, ops[0]);
      RunLosesNothing(Step(s, ops[0]), ops[1..]);
    }
  }

  /** The reader takes, shows and publishes what it finds, one message after another. */
  function CatchUp<M>(n: nat): seq<Op<M>> { if n == 0 then [] else [TakeMessage, Flush, Publish] + CatchUp(n - 1) }

  /** A message that does not end the connection is dealt with in one round. */
  lemma OneRound<M>(s: System<M>)
    requires s.reader.Waiting? && s.channel != [] && s.channel[0] != Ending
    ensures var t := Step(Step(Step(s, TakeMessage), Flush), Publish);
            var picture := s.channel[0].FrameAt?;
            t == s.(channel := s.channel[1..], shown := if picture then s.channel[0].epoch else s.shown,
                    applied := if picture then s.channel[0].epoch else s.applied)
  {
  }

  lemma {:induction false} CatchesUp<M>(s: System<M>)
    requires s.reader.Waiting? && s.applied == s.shown && Ending !in s.channel
    ensures var shown := Newest(s.channel, s.shown);
            Run(s, CatchUp(|s.channel|)) == s.(channel := [], shown := shown, applied := shown)
    decreases |s.channel|
  {
    hide Step;
    var n := |s.channel|;
    if n > 0 {
      OneRound(s);
      var t := Step(Step(Step(s, TakeMessage), Flush), Publish);
      RunThree(s, TakeMessage, Flush, Publish);
      RunConcat(s, [TakeMessage, Flush, Publish], CatchUp(n - 1));
      CatchesUp(t);
    }
  }

  /**
   Pictures arrive: from every state a run can reach in which the reader is between messages and the
   connection is not ending, once it has dealt with what is on its way the newest picture sent is on
   the terminal and published, and an input typed then is taken for it.
   */
  lemma NewestPictureArrives<M>(ops: seq<Op<M>>)
    requires |ops| < U64_MAX && Run(Start<M>(), ops).reader.Waiting? && Ending !in Run(Start<M>(), ops).channel
    ensures var s := Run(Start<M>(), ops); var t := Run(s, CatchUp(|s.channel|));
      && t == s.(channel := [], shown := |s.log|, applied := |s.log|)
      && Step(t, TypeInput).inbound == s.inbound + [Stamp(|s.log|, |s.log|, false)]
      && (s.log != [] ==> Resolve(s.server.history, |s.log|) == Applied(s.log[|s.log| - 1]))
  {
    hide Run, Invariant, NothingLost, CatchUp, Resolve, Step;
    StartLosesNothing<M>();
    RunLosesNothing(Start(), ops);
    var s := Run(Start<M>(), ops);
    NewestIsShown(s);
    NewestIsRemembered(s);
    InputNow(Run(s, CatchUp(|s.channel|)));
  }

  lemma StartLosesNothing<M>()
    ensures Invariant(Start<M>()) && NothingLost(Start<M>()) && |Start<M>().log| == 0
  {
  }

  lemma NewestIsShown<M>(s: System<M>)
    requires Invariant(s) && NothingLost(s) && s.reader.Waiting? && Ending !in s.channel
    ensures Run(s, CatchUp(|s.channel|)) == s.(channel := [], shown := |s.log|, applied := |s.log|)
  {
    CatchesUp(s);
  }

  lemma InputNow<M>(t: System<M>)
    ensures Step(t, TypeInput).inbound == t.inbound + [Stamp(t.applied, t.shown, Unpublished(t.reader))]
  {
  }

  lemma NewestIsRemembered<M>(s: System<M>)
    requires Invariant(s)
    ensures s.log != [] ==> Resolve(s.server.history, |s.log|) == Applied(s.log[|s.log| - 1])
  {
    hide Resolve;
    var from := if |s.log| > FRAME_HISTORY_LIMIT then |s.log| - FRAME_HISTORY_LIMIT else 0;
    assert s.server.history == s.log[from..];
    ResolveCounts(s.log, from, |s.log|);
  }

  /** The window is real: an input typed between flush and publication is taken for the picture before. */
  lemma UnpublishedInputsLag<M>(first: M, second: M)
    ensures var ops :=
      [Emit(false, first), TakeMessage, Flush, Publish, Emit(false, second), TakeMessage, Flush, TypeInput, Receive];
            var s := Run(Start(), ops);
            s.shown == 2 && s.log == [Snapshot(1, first), Snapshot(2, second)]
              && s.receipts == [Receipt(Stamp(1, 2, true), Applied(Snapshot(1, first)), 2)]
  {
    var show := [Emit(false, first), TakeMessage, Flush];
    var next := [Publish, Emit(false, second), TakeMessage];
    var click := [Flush, TypeInput, Receive];
    FirstShown(first);
    SecondWritten(first, second);
    ClickAfterFlush(first, second);
    RunConcat(Start(), show, next + click);
    RunConcat(Run(Start(), show), next, click);
    assert show + (next + click)
      == [Emit(false, first), TakeMessage, Flush, Publish, Emit(false, second), TakeMessage, Flush, TypeInput, Receive];
  }

  function ShowingFirst<M>(first: M): System<M>
  {
    System(Emitter(2, [Snapshot(1, first)]), [], Flushed(FrameAt(1)), 0, [], [Snapshot(1, first)], 1, [])
  }

  function WritingSecond<M>(first: M, second: M): System<M>
  {
    var log := [Snapshot(1, first), Snapshot(2, second)];
    System(Emitter(3, log), [], Written(FrameAt(2)), 1, [], log, 1, [])
  }

  lemma FirstShown<M>(first: M)
    ensures Run(Start(), [Emit(false, first), TakeMessage, Flush]) == ShowingFirst(first)
  {
    RunThree(Start(), Emit(false, first), TakeMessage, Flush);
  }

  lemma SecondWritten<M>(first: M, second: M)
    ensures Run(ShowingFirst(first), [Publish, Emit(false, second), TakeMessage]) == WritingSecond(first, second)
  {
    RunThree(ShowingFirst(first), Publish, Emit(false, second), TakeMessage);
  }

  lemma ClickAfterFlush<M>(first: M, second: M)
    ensures var s := Run(WritingSecond(first, second), [Flush, TypeInput, Receive]);
            s.shown == 2 && s.log == [Snapshot(1, first), Snapshot(2, second)]
              && s.receipts == [Receipt(Stamp(1, 2, true), Applied(Snapshot(1, first)), 2)]
  {
    RunThree(WritingSecond(first, second), Flush, TypeInput, Receive);
  }

  lemma {:induction false} RunConcat<M>(s: System<M>, a: seq<Op<M>>, b: seq<Op<M>>)
    ensures Run(s, a + b) == Run(Run(s, a), b)
    decreases |a|
  {
    if a == [] {
      assert a + b == b;
    } else {
      assert (a + b)[1..] == a[1..] + b;
      RunConcat(Step(s, a[0]), a[1..], b);
    }
  }

  lemma RunThree<M>(s: System<M>, x: Op<M>, y: Op<M>, z: Op<M>)
    ensures Run(s, [x, y, z]) == Step(Step(Step(s, x), y), z)
  {
    assert [x, y, z][1..] == [y, z] && [y, z][1..] == [z] && [z][1..] == [];
    assert Run(Step(Step(s, x), y), [z]) == Step(Step(Step(s, x), y), z);
  }
}
