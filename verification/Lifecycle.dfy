/**
 Agent lifecycles: hook processes run independently, so claims, reports and clears for one pane
 arrive in any order. Sequence numbers, ownership and tombstones decide what the pane shows.
 */
module Lifecycle {
  import opened Common
  import opened Agent

  /** Provider label plus session; without an owner it is a manual reporter. */
  datatype Identity = Identity(agent: string, owner: Option<string>)

  datatype Event =
    | Report(identity: Identity, claim: bool, state: AgentState, sequence: nat)
    | Clear(identity: Identity, sequence: nat)

  /** The latest accepted event of a pane. Without a status it is a tombstone. */
  datatype Entry = Entry(identity: Identity, sequence: nat, status: Option<Status>) {
    predicate EndedOwned() { status.None? && identity.owner.Some? }
  }

  function Claims(e: Event): bool { e.Report? && e.claim }

  /** Whether an entry lets an event through. */
  predicate Accepts(cur: Entry, e: Event)
  {
    && e.sequence > cur.sequence
    && match e
       case Report(identity, claim, _, _) => claim || (identity == cur.identity && !cur.EndedOwned())
       case Clear(identity, _) => identity == cur.identity
  }

  function Opened(e: Event): Entry
  {
    match e
    case Report(identity, _, state, sequence) => Entry(identity, sequence, Some(Fresh(identity.agent, state)))
    case Clear(identity, sequence) => Entry(identity, sequence, None)
  }

  /** The entry after an event on a live pane. */
  function Deliver(cur: Option<Entry>, e: Event): Option<Entry>
  {
    if cur.None? then Some(Opened(e))
    else if !Accepts(cur.value, e) then cur
    else if e.Report? && e.identity == cur.value.identity && cur.value.status.Some? then
      Some(Entry(e.identity, e.sequence, Some(Reported(cur.value.status.value, e.identity.agent, e.state))))
    else Some(Opened(e))
  }

  function Visible(cur: Option<Entry>): Option<Status>
  {
    if cur.Some? then cur.value.status else None
  }

  /** One pane's lifecycle, updated in place. */
  class AgentLifecycle {
    var identity: Identity
    var sequence: nat
    var status: Option<Status>

    ghost function View(): Entry
      reads this
    {
      Entry(identity, sequence, status)
    }

    constructor (e: Event)
      ensures View() == Opened(e)
    {
      identity := e.identity;
      sequence := e.sequence;
      status := if e.Report? then Some(Fresh(e.identity.agent, e.state)) else None;
    }

    constructor Of(entry: Entry)
      ensures View() == entry
    {
      identity := entry.identity;
      sequence := entry.sequence;
      status := entry.status;
    }

    /** Apply a newer report; true exactly when the visible status changed. */
    method Report(identity: Identity, claim: bool, state: AgentState, sequence: nat) returns (changed: bool)
      modifies this
      ensures Some(View()) == Deliver(Some(old(View())), Event.Report(identity, claim, state, sequence))
      ensures changed == (status != old(status))
    {
      if sequence <= this.sequence {
        return false;
      }
      var replacement := this.identity != identity;
      var endedOwnedLifecycle := status.None? && this.identity.owner.Some?;
      if (replacement || endedOwnedLifecycle) && !claim {
        return false;
      }
      var before := status;
      this.sequence := sequence;
      if !replacement {
        status := match status
          case Some(s) => Some(Reported(s, identity.agent, state))
          case None => Some(Fresh(identity.agent, state));
      } else {
        this.identity := identity;
        status := Some(Fresh(identity.agent, state));
      }
      return status != before;
    }

    /** Clear only this exact lifecycle; true exactly when a status went away. */
    method Clear(identity: Identity, sequence: nat) returns (changed: bool)
      modifies this
      ensures Some(View()) == Deliver(Some(old(View())), Event.Clear(identity, sequence))
      ensures changed == (status != old(status))
    {
      if this.identity != identity || sequence <= this.sequence {
        return false;
      }
      this.sequence := sequence;
      changed := status.Some?;
      status := None;
    }
  }

  // ---------------------------------------------------------------- runs

  function Run(cur: Option<Entry>, events: seq<Event>): Option<Entry>
    decreases |events|
  {
    if events == [] then cur else Run(Deliver(cur, events[0]), events[1..])
  }

  lemma {:induction false} RunConcat(cur: Option<Entry>, a: seq<Event>, b: seq<Event>)
    ensures Run(cur, a + b) == Run(Run(cur, a), b)
    decreases |a|
  {
    if a == [] {
      assert a + b == b;
    } else {
      assert (a + b)[1..] == a[1..] + b;
      RunConcat(Deliver(cur, a[0]), a[1..], b);
    }
  }

  /**
   Ownership, one event at a time: a rejected event changes nothing, an accepted one raises the
   sequence, the identity changes only by a newer claim, and a clear from any other identity
   removes nothing.
   */
  lemma OwnershipIsKept(cur: Entry, e: Event)
    ensures var next := Deliver(Some(cur), e).value;
            && (next == cur <==> !Accepts(cur, e))
            && (next != cur ==> next.sequence == e.sequence > cur.sequence)
            && (next.identity != cur.identity ==> Claims(e) && next.identity == e.identity && e.sequence > cur.sequence)
            && (e.Clear? && e.identity != cur.identity ==> next == cur)
            && (cur.status.Some? && next.status.None? ==> e.Clear? && e.identity == cur.identity)
  {
  }

  /**
   Ownership over whole runs: the sequence never decreases, and if the identity changed then some
   claim of the final identity, newer than the start, was delivered.
   */
  lemma {:induction false} OwnershipOverRuns(cur: Entry, events: seq<Event>)
    ensures var last := Run(Some(cur), events);
            && last.Some?
            && last.value.sequence >= cur.sequence
            && (last.value.sequence == cur.sequence ==> last.value == cur)
            && (last.value.identity != cur.identity ==>
                  exists i :: 0 <= i < |events| && Claims(events[i]) && events[i].identity == last.value.identity
                    && cur.sequence < events[i].sequence <= last.value.sequence)
    decreases |events|
  {
    if events != [] {
      var next := Deliver(Some(cur), events[0]).value;
      OwnershipIsKept(cur, events[0]);
      OwnershipOverRuns(next, events[1..]);
      var last := Run(Some(cur), events).value;
      if last.identity != cur.identity && last.identity != next.identity {
        var i :| 0 <= i < |events[1..]| && Claims(events[1..][i]) && events[1..][i].identity == last.identity
          && next.sequence < events[1..][i].sequence <= last.sequence;
        assert events[1..][i] == events[i + 1];
      }
    }
  }

  /**
   A status is only lost to a clear by the identity that ends up owning the pane; a replacement
   starts with a status, so this covers runs that change hands.
   */
  lemma {:induction false} LostStatusWasCleared(cur: Entry, events: seq<Event>)
    requires Run(Some(cur), events).Some?
    requires Run(Some(cur), events).value.status.None?
    requires cur.status.Some? || Run(Some(cur), events).value.identity != cur.identity
    ensures exists i ::
      0 <= i < |events| && events[i].Clear? && events[i].identity == Run(Some(cur), events).value.identity
    decreases |events|
  {
    if events != [] {
      var next := Deliver(Some(cur), events[0]).value;
      OwnershipIsKept(cur, events[0]);
      var last := Run(Some(cur), events).value;
      if next.status.Some? || last.identity != next.identity {
        LostStatusWasCleared(next, events[1..]);
        var i :| 0 <= i < |events[1..]| && events[1..][i].Clear? && events[1..][i].identity == last.identity;
        assert events[1..][i] == events[i + 1];
      } else {
        assert events[0].identity == last.identity;
      }
    }
  }

  /** An owned tombstone stays invisible, under its own identity, until something claims the pane. */
  lemma {:induction false} OwnedTombstoneStays(cur: Entry, events: seq<Event>)
    requires cur.EndedOwned()
    requires forall i :: 0 <= i < |events| ==> !Claims(events[i])
    ensures Run(Some(cur), events).Some?
    ensures Run(Some(cur), events).value.EndedOwned() && Run(Some(cur), events).value.identity == cur.identity
    decreases |events|
  {
    if events != [] {
      OwnedTombstoneStays(Deliver(Some(cur), events[0]).value, events[1..]);
    }
  }

  // ---------------------------------------------------------------- delivery order

  /** `e` is delivered, and every other event, like the start, is older. */
  predicate Highest(cur: Option<Entry>, events: seq<Event>, k: nat)
  {
    && k < |events|
    && (cur.Some? ==> cur.value.sequence < events[k].sequence)
    && forall i :: 0 <= i < |events| && i != k ==> events[i].sequence < events[k].sequence
  }

  /** Nothing older gets past an entry. */
  lemma {:induction false} OlderEventsBounce(cur: Entry, events: seq<Event>)
    requires forall i :: 0 <= i < |events| ==> events[i].sequence <= cur.sequence
    ensures Run(Some(cur), events) == Some(cur)
    decreases |events|
  {
    if events != [] { OlderEventsBounce(cur, events[1..]); }
  }

  lemma {:induction false} SequencesAreBounded(cur: Option<Entry>, events: seq<Event>, bound: nat)
    requires cur.Some? ==> cur.value.sequence < bound
    requires forall i :: 0 <= i < |events| ==> events[i].sequence < bound
    ensures Run(cur, events).Some? ==> Run(cur, events).value.sequence < bound
    decreases |events|
  {
    if events != [] { SequencesAreBounded(Deliver(cur, events[0]), events[1..], bound); }
  }

  /** Delivery up to the highest event, the highest event, and nothing after it. */
  lemma HighestIsLast(cur: Option<Entry>, events: seq<Event>, k: nat)
    requires Highest(cur, events, k)
    ensures var before := Run(cur, events[..k]);
            && (before.Some? ==> before.value.sequence < events[k].sequence)
            && (Deliver(before, events[k]).value.sequence == events[k].sequence
              ==> Run(cur, events) == Deliver(before, events[k]))
  {
    var before := Run(cur, events[..k]);
    SequencesAreBounded(cur, events[..k], events[k].sequence);
    var at := Deliver(before, events[k]);
    assert events == events[..k] + ([events[k]] + events[k + 1..]);
    RunConcat(cur, events[..k], [events[k]] + events[k + 1..]);
    assert ([events[k]] + events[k + 1..])[1..] == events[k + 1..];
    if at.value.sequence == events[k].sequence {
      OlderEventsBounce(at.value, events[k + 1..]);
    }
  }

  /** What order independence is about: identity, sequence and semantic state. */
  datatype Outcome = Outcome(identity: Identity, sequence: nat, state: Option<AgentState>)

  function OutcomeOf(cur: Option<Entry>): Option<Outcome>
  {
    if cur.None? then None else
    Some(Outcome(cur.value.identity, cur.value.sequence,
      if cur.value.status.Some? then Some(cur.value.status.value.state) else None))
  }

  /** The outcome `e` alone would have. */
  function Decided(e: Event): Outcome
  {
    Outcome(e.identity, e.sequence, if e.Report? then Some(Semantic(e.state)) else None)
  }

  /** A highest claim decides, in every order and from every older start. */
  lemma HighestClaimDecides(cur: Option<Entry>, events: seq<Event>, k: nat)
    requires Highest(cur, events, k) && Claims(events[k])
    ensures OutcomeOf(Run(cur, events)) == Some(Decided(events[k]))
  {
    HighestIsLast(cur, events, k);
  }

  predicate SharedIdentity(cur: Option<Entry>, events: seq<Event>, identity: Identity)
  {
    && (cur.Some? ==> cur.value.identity == identity)
    && forall i :: 0 <= i < |events| ==> events[i].identity == identity
  }

  lemma {:induction false} SharedIdentityStays(cur: Option<Entry>, events: seq<Event>, identity: Identity)
    requires SharedIdentity(cur, events, identity)
    ensures Run(cur, events).Some? ==> Run(cur, events).value.identity == identity
    decreases |events|
  {
    if events != [] { SharedIdentityStays(Deliver(cur, events[0]), events[1..], identity); }
  }

  /** When all events share one identity, a highest clear always leaves a tombstone. */
  lemma HighestClearLeavesATombstone(cur: Option<Entry>, events: seq<Event>, k: nat, identity: Identity)
    requires Highest(cur, events, k) && events[k].Clear? && SharedIdentity(cur, events, identity)
    ensures Run(cur, events) == Some(Entry(identity, events[k].sequence, None))
  {
    SharedIdentityStays(cur, events[..k], identity);
    HighestIsLast(cur, events, k);
  }

  /** When all events share one unowned identity, the highest event of any kind decides. */
  lemma HighestUnownedEventDecides(cur: Option<Entry>, events: seq<Event>, k: nat, identity: Identity)
    requires Highest(cur, events, k) && SharedIdentity(cur, events, identity) && identity.owner.None?
    ensures OutcomeOf(Run(cur, events)) == Some(Decided(events[k]))
  {
    SharedIdentityStays(cur, events[..k], identity);
    HighestIsLast(cur, events, k);
  }

  /** A clear is delivered that is newer than the start. Older ones bounce in every order. */
  predicate HasClear(cur: Option<Entry>, events: seq<Event>)
  {
    exists i :: 0 <= i < |events| && events[i].Clear? && (cur.Some? ==> events[i].sequence > cur.value.sequence)
  }

  /** Without such clears a shared identity never loses its status. */
  lemma {:induction false} NoClearKeepsStatus(cur: Option<Entry>, events: seq<Event>, identity: Identity)
    requires SharedIdentity(cur, events, identity) && !HasClear(cur, events)
    requires cur.Some? ==> cur.value.status.Some?
    ensures Run(cur, events).Some? ==> Run(cur, events).value.status.Some?
    decreases |events|
  {
    if events != [] {
      var next := Deliver(cur, events[0]);
      var rest := events[1..];
      forall i | 0 <= i < |rest| && rest[i].Clear? ensures next.Some? && rest[i].sequence <= next.value.sequence {
        assert rest[i] == events[i + 1];
      }
      NoClearKeepsStatus(next, rest, identity);
    }
  }

  /** The start is a tombstone that keeps unclaimed reports out. */
  predicate StartsEnded(cur: Option<Entry>) { cur.Some? && cur.value.EndedOwned() }

  /** An owned tombstone drops an unclaimed report for good when everything after it is older. */
  lemma TombstoneDropsReport(cur: Entry, e: Event, rest: seq<Event>)
    requires cur.EndedOwned() && e.Report? && !e.claim && e.identity == cur.identity && cur.sequence < e.sequence
    requires forall i :: 0 <= i < |rest| ==> rest[i].sequence < e.sequence
    ensures OutcomeOf(Run(Some(cur), [e] + rest)) != Some(Decided(e))
  {
    assert ([e] + rest)[1..] == rest;
    SequencesAreBounded(Some(cur), rest, e.sequence);
    OwnershipOverRuns(cur, rest);
  }

  /**
   The remaining case, an owned identity whose highest event is an unclaimed report, depends on
   delivery order exactly when the pane starts as that identity's tombstone or a newer clear is
   among the events: otherwise the report decides in every order, and in those cases some order
   drops the report.
   */
  lemma UnclaimedHighestDecidesIffNoClear(cur: Option<Entry>, events: seq<Event>, k: nat, identity: Identity)
    requires Highest(cur, events, k) && SharedIdentity(cur, events, identity) && identity.owner.Some?
    requires events[k].Report? && !events[k].claim
    ensures (forall order: seq<Event> :: multiset(order) == multiset(events) ==>
               OutcomeOf(Run(cur, order)) == Some(Decided(events[k])))
            <==> !StartsEnded(cur) && !HasClear(cur, events)
  {
    if StartsEnded(cur) || HasClear(cur, events) {
      var order := SomeOrderDrops(cur, events, k, identity);
    } else {
      forall order: seq<Event> | multiset(order) == multiset(events)
        ensures OutcomeOf(Run(cur, order)) == Some(Decided(events[k]))
      {
        EveryOrderKeeps(cur, events, order, k, identity);
      }
    }
  }

  lemma SomeOrderDrops(cur: Option<Entry>, events: seq<Event>, k: nat, identity: Identity) returns (order: seq<Event>)
    requires Highest(cur, events, k) && SharedIdentity(cur, events, identity) && identity.owner.Some?
    requires events[k].Report? && !events[k].claim && (StartsEnded(cur) || HasClear(cur, events))
    ensures multiset(order) == multiset(events) && OutcomeOf(Run(cur, order)) != Some(Decided(events[k]))
  {
    if StartsEnded(cur) {
      order := ToFront(events, k);
      ToFrontReorders(events, k);
      forall i | 0 <= i < |order[1..]| ensures order[1..][i].sequence < events[k].sequence {
        OthersAreOlderAt(events, order, k, i + 1, 0);
      }
      TombstoneDropsReport(cur.value, events[k], order[1..]);
      assert order == [events[k]] + order[1..];
    } else {
      var c :| 0 <= c < |events| && events[c].Clear? && (cur.Some? ==> events[c].sequence > cur.value.sequence);
      order := OneThenHighest(events, c, k);
      forall i | 0 <= i < |order[2..]| ensures order[2..][i].sequence < events[k].sequence {
        OthersAreOlderAt(events, order, k, i + 2, 1);
      }
      TombstoneDropsReport(Deliver(cur, order[0]).value, events[k], order[2..]);
      assert order[1..] == [events[k]] + order[2..];
    }
  }

  lemma EveryOrderKeeps(cur: Option<Entry>, events: seq<Event>, order: seq<Event>, k: nat, identity: Identity)
    requires multiset(order) == multiset(events)
    requires Highest(cur, events, k) && SharedIdentity(cur, events, identity) && events[k].Report?
    requires !StartsEnded(cur) && identity.owner.Some? && !HasClear(cur, events)
    ensures OutcomeOf(Run(cur, order)) == Some(Decided(events[k]))
  {
    var j := HighestInOrder(cur, events, order, k);
    SameMembers(cur, events, order);
    NoClearKeepsStatus(cur, order[..j], identity);
    SharedIdentityStays(cur, order[..j], identity);
    HighestIsLast(cur, order, j);
  }

  lemma SameMembers(cur: Option<Entry>, events: seq<Event>, order: seq<Event>)
    requires multiset(order) == multiset(events)
    ensures forall e :: e in order <==> e in events
    ensures forall i :: 0 <= i < |order| ==> order[i] in events
    ensures HasClear(cur, order) == HasClear(cur, events)
  {
    forall e ensures e in order <==> e in events {
      assert e in multiset(order) <==> e in multiset(events);
    }
    if HasClear(cur, order) {
      var i :| 0 <= i < |order| && order[i].Clear? && (cur.Some? ==> order[i].sequence > cur.value.sequence);
      assert order[i] in order && order[i] in events;
    }
    if HasClear(cur, events) {
      var i :| 0 <= i < |events| && events[i].Clear? && (cur.Some? ==> events[i].sequence > cur.value.sequence);
      assert events[i] in events && events[i] in order;
    }
  }

  /** The highest event occurs once, so every order has it once. */
  lemma HighestInOrder(cur: Option<Entry>, events: seq<Event>, order: seq<Event>, k: nat) returns (j: nat)
    requires multiset(order) == multiset(events) && Highest(cur, events, k)
    ensures Highest(cur, order, j) && order[j] == events[k]
  {
    SameMembers(cur, events, order);
    assert events[k] in order;
    j :| 0 <= j < |order| && order[j] == events[k];
    forall i | 0 <= i < |order| && i != j ensures order[i].sequence < order[j].sequence {
      OthersAreOlderAt(events, order, k, i, j);
    }
  }

  lemma OthersAreOlderAt(events: seq<Event>, order: seq<Event>, k: nat, i: nat, j: nat)
    requires multiset(order) == multiset(events) && Highest(None, events, k)
    requires i < |order| && j < |order| && i != j && order[j] == events[k]
    ensures order[i].sequence < events[k].sequence
  {
    SameMembers(None, events, order);
    var m :| 0 <= m < |events| && events[m] == order[i];
    if order[i].sequence >= events[k].sequence {
      assert m == k && order[i] == events[k];
      TwiceInSeq(order, i, j);
      OnceInSeq(events, k);
      assert false;
    }
  }

  lemma TwiceInSeq(s: seq<Event>, i: nat, j: nat)
    requires i < |s| && j < |s| && i != j && s[i] == s[j]
    ensures multiset(s)[s[i]] >= 2
  {
    var (a, b) := if i < j then (i, j) else (j, i);
    assert s == s[..a] + ([s[a]] + s[a + 1..b] + [s[b]] + s[b + 1..]);
  }

  lemma OnceInSeq(s: seq<Event>, k: nat)
    requires k < |s| && forall i :: 0 <= i < |s| && i != k ==> s[i] != s[k]
    ensures multiset(s)[s[k]] == 1
  {
    assert s == s[..k] + ([s[k]] + s[k + 1..]);
    assert s[k] !in s[..k] && s[k] !in s[k + 1..];
  }

  function ToFront(s: seq<Event>, i: nat): (t: seq<Event>)
    requires i < |s|
    ensures |t| == |s| && t[0] == s[i]
    ensures forall j :: 0 <= j < i ==> t[j + 1] == s[j]
    ensures forall j :: i < j < |s| ==> t[j] == s[j]
  {
    [s[i]] + s[..i] + s[i + 1..]
  }

  lemma ToFrontReorders(s: seq<Event>, i: nat)
    requires i < |s|
    ensures multiset(ToFront(s, i)) == multiset(s)
  {
    assert s == s[..i] + [s[i]] + s[i + 1..];
  }

  /** An order that delivers one event first and the highest second. */
  lemma OneThenHighest(events: seq<Event>, c: nat, k: nat) returns (order: seq<Event>)
    requires c < |events| && k < |events| && c != k
    ensures multiset(order) == multiset(events) && |order| == |events| >= 2
    ensures order[0] == events[c] && order[1] == events[k]
  {
    var front := ToFront(events, k);
    var at := if c < k then c + 1 else c;
    assert front[at] == events[c];
    order := ToFront(front, at);
    ToFrontReorders(events, k);
    ToFrontReorders(front, at);
  }

  /** Any two deliveries of the same events agree whenever one of the deciding cases applies. */
  lemma DeliveryOrderIsIrrelevant(cur: Option<Entry>, events: seq<Event>, order: seq<Event>, k: nat)
    requires multiset(order) == multiset(events) && Highest(cur, events, k)
    requires || Claims(events[k])
             || (&& SharedIdentity(cur, events, events[k].identity)
                 && (|| events[k].Clear?
                     || events[k].identity.owner.None?
                     || (!StartsEnded(cur) && !HasClear(cur, events))))
    ensures OutcomeOf(Run(cur, order)) == OutcomeOf(Run(cur, events)) == Some(Decided(events[k]))
  {
    var j := HighestInOrder(cur, events, order, k);
    SameMembers(cur, events, order);
    if Claims(events[k]) {
      HighestClaimDecides(cur, events, k);
      HighestClaimDecides(cur, order, j);
    } else if events[k].Clear? {
      HighestClearLeavesATombstone(cur, events, k, events[k].identity);
      HighestClearLeavesATombstone(cur, order, j, events[k].identity);
    } else if events[k].identity.owner.None? {
      HighestUnownedEventDecides(cur, events, k, events[k].identity);
      HighestUnownedEventDecides(cur, order, j, events[k].identity);
    } else {
      UnclaimedHighestDecidesIffNoClear(cur, events, k, events[k].identity);
    }
  }

  // ---------------------------------------------------------------- delivery order and what is displayed

  /** What the pane displays: nothing without a status. */
  function Displayed(cur: Option<Entry>): Option<AgentState>
  {
    if Visible(cur).Some? then Some(Visible(cur).value.Display()) else None
  }

  /** Something other than idle is displayed, so an idle report will complete a turn, or has. */
  predicate DisplaysTurn(cur: Option<Entry>) { Displayed(cur).Some? && Displayed(cur).value != Idle }

  /** The pane is the identity's, with a status that could have been reported under it. */
  predicate Sound(cur: Option<Entry>, identity: Identity)
  {
    cur.Some? ==>
      && cur.value.identity == identity
      && (cur.value.status.Some? ==> cur.value.status.value.Valid() && cur.value.status.value.agent == identity.agent)
  }

  /** Some report newer than the start is of another state than idle. */
  predicate ReportsTurn(cur: Option<Entry>, events: seq<Event>)
  {
    exists i ::
      && 0 <= i < |events| && events[i].Report? && events[i].state != Idle
      && (cur.Some? ==> events[i].sequence > cur.value.sequence)
  }

  /** What an accepted event of the pane's own identity displays. */
  lemma DeliveredDisplays(cur: Option<Entry>, e: Event, identity: Identity)
    requires Sound(cur, identity) && e.identity == identity
    ensures Sound(Deliver(cur, e), identity)
    ensures cur.Some? && !Accepts(cur.value, e) ==> Deliver(cur, e) == cur
    ensures cur.None? || Accepts(cur.value, e) ==>
      Displayed(Deliver(cur, e)) ==
        if e.Clear? then None
        else if e.state == Idle && DisplaysTurn(cur) then Some(Done)
        else Some(e.state)
  {
    if Visible(cur).Some? && e.Report? {
      ShownStatesEvolveAlone(Visible(cur).value, identity.agent, e.state);
    }
  }

  /** Of one identity, without newer clears, a displayed turn never goes back to idle unseen. */
  lemma {:induction false} TurnStaysDisplayed(cur: Option<Entry>, events: seq<Event>, identity: Identity)
    requires Sound(cur, identity) && SharedIdentity(cur, events, identity)
    requires DisplaysTurn(cur) && !HasClear(cur, events)
    ensures Sound(Run(cur, events), identity) && DisplaysTurn(Run(cur, events))
    decreases |events|
  {
    if events != [] {
      var (next, rest) := (Deliver(cur, events[0]), events[1..]);
      DeliveredDisplays(cur, events[0], identity);
      forall i | 0 <= i < |rest| && rest[i].Clear? ensures rest[i].sequence <= next.value.sequence {
        assert rest[i] == events[i + 1];
      }
      TurnStaysDisplayed(next, rest, identity);
    }
  }

  /** Of one identity, idle reports and clears alone display no turn. */
  lemma {:induction false} IdleStaysDisplayed(cur: Option<Entry>, events: seq<Event>, identity: Identity)
    requires Sound(cur, identity) && SharedIdentity(cur, events, identity)
    requires !DisplaysTurn(cur) && !ReportsTurn(cur, events)
    ensures Sound(Run(cur, events), identity) && !DisplaysTurn(Run(cur, events))
    decreases |events|
  {
    if events != [] {
      var (next, rest) := (Deliver(cur, events[0]), events[1..]);
      DeliveredDisplays(cur, events[0], identity);
      assert cur.None? || Accepts(cur.value, events[0]) ==> events[0].Clear? || events[0].state == Idle;
      forall i | 0 <= i < |rest| && rest[i].Report? && rest[i].state != Idle
        ensures rest[i].sequence <= next.value.sequence
      {
        assert rest[i] == events[i + 1];
      }
      IdleStaysDisplayed(next, rest, identity);
    }
  }

  lemma {:induction false} SoundStays(cur: Option<Entry>, events: seq<Event>, identity: Identity)
    requires Sound(cur, identity) && SharedIdentity(cur, events, identity)
    ensures Sound(Run(cur, events), identity)
    decreases |events|
  {
    if events != [] {
      DeliveredDisplays(cur, events[0], identity);
      SoundStays(Deliver(cur, events[0]), events[1..], identity);
    }
  }

  /** No tombstone keeps the newest event out: the identity is unowned, or none stands and it claims or none comes. */
  predicate Admits(cur: Option<Entry>, events: seq<Event>, identity: Identity, newest: Event)
  {
    identity.owner.None? || (!StartsEnded(cur) && (Claims(newest) || !HasClear(cur, events)))
  }

  /** A highest report displays itself, except that idle displays Done where a turn was displayed before it. */
  lemma HighestReportDisplays(cur: Option<Entry>, events: seq<Event>, k: nat, identity: Identity)
    requires Highest(cur, events, k) && events[k].Report? && Admits(cur, events, identity, events[k])
    requires Sound(cur, identity) && SharedIdentity(cur, events, identity)
    ensures Displayed(Run(cur, events)) ==
            if events[k].state == Idle && DisplaysTurn(Run(cur, events[..k])) then Some(Done) else Some(events[k].state)
  {
    hide Sound, Displayed, DisplaysTurn;
    SoundStays(cur, events[..k], identity);
    SharedIdentityStays(cur, events[..k], identity);
    if identity.owner.Some? && !HasClear(cur, events) { NoClearKeepsStatus(cur, events[..k], identity); }
    HighestIsLast(cur, events, k);
    DeliveredDisplays(Run(cur, events[..k]), events[k], identity);
  }

  /**
   Whether delivery order shows. A highest report of any state but idle displays itself in every
   order. A highest idle report displays the same in every order if and only if nothing can come
   before it that makes a difference: a clear, when the pane starts out displaying a turn, or a
   report of a turn, when it does not. That goes for every identity but an owned one with an unclaimed
   newest report and a tombstone to come or at the start, where even the state depends on the order.
   */
  lemma DisplayedAlikeIffNothingBetween(cur: Option<Entry>, events: seq<Event>, k: nat, identity: Identity)
    requires Highest(cur, events, k) && events[k].Report? && Admits(cur, events, identity, events[k])
    requires Sound(cur, identity) && SharedIdentity(cur, events, identity)
    ensures events[k].state != Idle ==>
      forall order: seq<Event> :: multiset(order) == multiset(events) ==>
        Displayed(Run(cur, order)) == Some(events[k].state)
    ensures events[k].state == Idle ==>
      ((forall order: seq<Event> :: multiset(order) == multiset(events) ==>
          Displayed(Run(cur, order)) == Displayed(Run(cur, events)))
        <==> if DisplaysTurn(cur) then !HasClear(cur, events) else !ReportsTurn(cur, events))
  {
    hide Sound, Displayed, DisplaysTurn, HasClear, ReportsTurn, Run, Admits;
    if events[k].state != Idle || !MayDiffer(cur, events) {
      forall order: seq<Event> | multiset(order) == multiset(events)
        ensures Displayed(Run(cur, order)) == Some(Settled(cur, events[k]))
      {
        DisplaysSettled(cur, events, order, k, identity);
      }
    } else {
      var order := OrderThatDiffers(cur, events, k, identity);
      var first := ToFront(events, k);
      ToFrontReorders(events, k);
      FirstInOrder(cur, events, first, k, identity);
    }
  }

  /** What the highest report displays when it is delivered first. */
  function Settled(cur: Option<Entry>, newest: Event): AgentState
    requires newest.Report?
  {
    if newest.state == Idle && DisplaysTurn(cur) then Done else newest.state
  }

  predicate MayDiffer(cur: Option<Entry>, events: seq<Event>)
  {
    if DisplaysTurn(cur) then HasClear(cur, events) else ReportsTurn(cur, events)
  }

  lemma SharedInOrder(cur: Option<Entry>, events: seq<Event>, order: seq<Event>, identity: Identity)
    requires multiset(order) == multiset(events) && SharedIdentity(cur, events, identity)
    ensures SharedIdentity(cur, order, identity)
    ensures HasClear(cur, order) == HasClear(cur, events) && ReportsTurn(cur, order) == ReportsTurn(cur, events)
  {
    SameMembers(cur, events, order);
    if ReportsTurn(cur, order) {
      var i :| 0 <= i < |order| && order[i].Report? && order[i].state != Idle
        && (cur.Some? ==> order[i].sequence > cur.value.sequence);
      assert order[i] in order && order[i] in events;
    }
    if ReportsTurn(cur, events) {
      var i :| 0 <= i < |events| && events[i].Report? && events[i].state != Idle
        && (cur.Some? ==> events[i].sequence > cur.value.sequence);
      assert events[i] in events && events[i] in order;
    }
  }

  /** When nothing can make a difference, what is displayed before the highest report stays as it was. */
  lemma BeforeHighest(cur: Option<Entry>, order: seq<Event>, j: nat, identity: Identity)
    requires j <= |order| && Sound(cur, identity) && SharedIdentity(cur, order, identity) && !MayDiffer(cur, order)
    ensures DisplaysTurn(Run(cur, order[..j])) == DisplaysTurn(cur)
  {
    hide Sound, DisplaysTurn;
    if DisplaysTurn(cur) {
      TurnStaysDisplayed(cur, order[..j], identity);
    } else {
      IdleStaysDisplayed(cur, order[..j], identity);
    }
  }

  lemma DisplaysSettled(cur: Option<Entry>, events: seq<Event>, order: seq<Event>, k: nat, identity: Identity)
    requires multiset(order) == multiset(events)
    requires Highest(cur, events, k) && events[k].Report? && Admits(cur, events, identity, events[k])
    requires Sound(cur, identity) && SharedIdentity(cur, events, identity)
    requires events[k].state != Idle || !MayDiffer(cur, events)
    ensures Displayed(Run(cur, order)) == Some(Settled(cur, events[k]))
  {
    hide Sound, Displayed, DisplaysTurn, HasClear, ReportsTurn;
    var j := HighestInOrder(cur, events, order, k);
    SharedInOrder(cur, events, order, identity);
    HighestReportDisplays(cur, order, j, identity);
    if events[k].state == Idle { BeforeHighest(cur, order, j, identity); }
  }

  lemma AtInOrder(cur: Option<Entry>, events: seq<Event>, order: seq<Event>, k: nat, j: nat)
    requires multiset(order) == multiset(events) && Highest(cur, events, k) && j < |order| && order[j] == events[k]
    ensures Highest(cur, order, j)
  {
    forall i | 0 <= i < |order| && i != j ensures order[i].sequence < order[j].sequence {
      OthersAreOlderAt(events, order, k, i, j);
    }
  }

  lemma FirstInOrder(cur: Option<Entry>, events: seq<Event>, order: seq<Event>, k: nat, identity: Identity)
    requires multiset(order) == multiset(events) && order != [] && k < |events| && order[0] == events[k]
    requires Highest(cur, events, k) && events[k].Report? && Admits(cur, events, identity, events[k])
    requires Sound(cur, identity) && SharedIdentity(cur, events, identity)
    ensures Displayed(Run(cur, order)) == Some(Settled(cur, events[k]))
  {
    hide Sound, Displayed, DisplaysTurn, HasClear;
    AtInOrder(cur, events, order, k, 0);
    SharedInOrder(cur, events, order, identity);
    HighestReportDisplays(cur, order, 0, identity);
  }

  lemma SecondInOrder(cur: Option<Entry>, events: seq<Event>, order: seq<Event>, k: nat, identity: Identity)
    requires multiset(order) == multiset(events) && |order| > 1 && k < |events| && order[1] == events[k]
    requires Highest(cur, events, k) && events[k].Report? && Admits(cur, events, identity, events[k])
    requires Sound(cur, identity) && SharedIdentity(cur, events, identity)
    ensures Displayed(Run(cur, order)) == Some(Settled(Deliver(cur, order[0]), events[k]))
  {
    hide Sound, Displayed, DisplaysTurn, HasClear, Deliver;
    AtInOrder(cur, events, order, k, 1);
    SharedInOrder(cur, events, order, identity);
    HighestReportDisplays(cur, order, 1, identity);
    assert order[..1] == [order[0]] && [order[0]][1..] == [];
    assert Run(cur, [order[0]]) == Deliver(cur, order[0]);
  }

  /** One event before the highest report is enough to make the difference. */
  lemma OrderThatDiffers(cur: Option<Entry>, events: seq<Event>, k: nat, identity: Identity) returns (order: seq<Event>)
    requires Highest(cur, events, k) && events[k].Report? && Admits(cur, events, identity, events[k])
    requires Sound(cur, identity) && SharedIdentity(cur, events, identity)
    requires events[k].state == Idle && MayDiffer(cur, events)
    ensures multiset(order) == multiset(events)
    ensures Displayed(Run(cur, order)) != Some(Settled(cur, events[k]))
  {
    var x: nat;
    if DisplaysTurn(cur) {
      x :| x < |events| && events[x].Clear? && (cur.Some? ==> events[x].sequence > cur.value.sequence);
    } else {
      x :| x < |events| && events[x].Report? && events[x].state != Idle
        && (cur.Some? ==> events[x].sequence > cur.value.sequence);
    }
    order := OneThenHighest(events, x, k);
    DeliveredDisplays(cur, events[x], identity);
    SecondInOrder(cur, events, order, k, identity);
  }

  /** The least failing input: a turn starts and ends, and the two reports arrive in either order. */
  lemma EndedTurnShowsByOrder(manual: string)
    ensures var id := Identity(manual, None);
            var (starts, ends) := (Event.Report(id, false, Working, 1), Event.Report(id, false, Idle, 2));
            && Displayed(Run(None, [starts, ends])) == Some(Done)
            && Displayed(Run(None, [ends, starts])) == Some(Idle)
  {
    var id := Identity(manual, None);
    var (starts, ends) := (Event.Report(id, false, Working, 1), Event.Report(id, false, Idle, 2));
    assert [starts, ends][1..] == [ends] && [ends, starts][1..] == [starts] && [ends][1..] == [] == [starts][1..];
    assert Run(Deliver(None, starts), [ends]) == Deliver(Deliver(None, starts), ends);
    assert Run(Deliver(None, ends), [starts]) == Deliver(Deliver(None, ends), starts);
  }

  // ---------------------------------------------------------------- replacement

  /** A status carries its own identity's agent, and may have been reported. */
  predicate OwnStatus(cur: Option<Entry>) { cur.Some? ==> Sound(cur, cur.value.identity) }

  lemma {:induction false} OwnStatusStays(cur: Option<Entry>, events: seq<Event>)
    requires OwnStatus(cur)
    ensures OwnStatus(Run(cur, events))
    decreases |events|
  {
    if events != [] { OwnStatusStays(Deliver(cur, events[0]), events[1..]); }
  }

  /** A replacement starts fresh: it displays its own report, whatever the owner before it was doing. */
  lemma ReplacementStartsFresh(cur: Entry, e: Event)
    requires e.Report? && Accepts(cur, e) && e.identity != cur.identity
    ensures Deliver(Some(cur), e).value.identity == e.identity && Displayed(Deliver(Some(cur), e)) == Some(e.state)
  {
  }

  /** The pane was the claimant's own before, and displayed a turn. */
  predicate EndsOwnTurn(before: Option<Entry>, e: Event)
  {
    before.Some? && before.value.identity == e.identity && DisplaysTurn(before)
  }

  /**
   What a highest claim displays, whoever else reported before it: itself; only an idle claim of the
   identity that already owned the pane displays Done, and exactly when that displayed a turn.
   */
  lemma HighestClaimDisplays(cur: Option<Entry>, events: seq<Event>, k: nat)
    requires OwnStatus(cur) && Highest(cur, events, k) && Claims(events[k])
    ensures var before := Run(cur, events[..k]);
            Displayed(Run(cur, events)) ==
              if events[k].state == Idle && EndsOwnTurn(before, events[k]) then Some(Done) else Some(events[k].state)
  {
    hide Run;
    var (before, e) := (Run(cur, events[..k]), events[k]);
    OwnStatusStays(cur, events[..k]);
    HighestIsLast(cur, events, k);
    if before.Some? && before.value.identity != e.identity {
      ReplacementStartsFresh(before.value, e);
    } else {
      DeliveredDisplays(before, e, e.identity);
    }
  }

  /** So a takeover displays what it claims, in every order in which the pane was another's just before it. */
  lemma TakeoverDisplaysItsClaim(cur: Option<Entry>, events: seq<Event>, order: seq<Event>, k: nat, j: nat)
    requires OwnStatus(cur) && Highest(cur, events, k) && Claims(events[k])
    requires multiset(order) == multiset(events) && j < |order| && order[j] == events[k]
    requires var before := Run(cur, order[..j]); before.None? || before.value.identity != events[k].identity
    ensures Displayed(Run(cur, order)) == Some(events[k].state)
  {
    AtInOrder(cur, events, order, k, j);
    HighestClaimDisplays(cur, order, j);
  }

  // ---------------------------------------------------------------- the daemon's table

  /** The daemon's lifecycle table. A pane that is absent or dead keeps no lifecycle. */
  class Registry {
    var live: set<PaneId>
    var entries: map<PaneId, Entry>

    constructor ()
      ensures live == {} && entries == map[]
    {
      live := {};
      entries := map[];
    }

    /** A pane's process starts, for the first time or again. */
    method Spawn(pane: PaneId)
      modifies this`live
      ensures live == old(live) + {pane}
    {
      live := live + {pane};
    }

    /** Panes end, and their lifecycles with them. */
    method End(panes: set<PaneId>)
      modifies this
      ensures live == old(live) - panes && entries == old(entries) - panes
    {
      live, entries := live - panes, entries - panes;
    }

    /** The agent's process is gone: its status goes, the rest of its lifecycle stays. */
    method DropStatus(pane: PaneId)
      modifies this`entries
      ensures entries == if pane in old(entries) then old(entries)[pane := old(entries)[pane].(status := None)]
        else old(entries)
    {
      if pane in entries {
        entries := entries[pane := entries[pane].(status := None)];
      }
    }

    /** Deliver a report or a clear; true exactly when the pane's visible status changed. */
    method Handle(pane: PaneId, e: Event) returns (changed: bool)
      modifies this`entries
      ensures pane in live ==> Lookup(entries, pane) == Deliver(Lookup(old(entries), pane), e)
      ensures pane !in live ==> entries == old(entries)
      ensures forall p :: p != pane ==> Lookup(entries, p) == Lookup(old(entries), p)
      ensures changed == (Visible(Lookup(entries, pane)) != Visible(Lookup(old(entries), pane)))
    {
      if pane !in live {
        return false;
      }
      if pane !in entries {
        entries := entries[pane := Opened(e)];
        return e.Report?;
      }
      var lifecycle := new AgentLifecycle.Of(entries[pane]);
      match e {
        case Report(identity, claim, state, sequence) =>
          changed := lifecycle.Report(identity, claim, state, sequence);
        case Clear(identity, sequence) =>
          changed := lifecycle.Clear(identity, sequence);
      }
      entries := entries[pane := Entry(lifecycle.identity, lifecycle.sequence, lifecycle.status)];
    }

    /** Mark a completed turn as seen. Tombstones and busy agents are left alone. */
    method Acknowledge(pane: PaneId) returns (changed: bool)
      modifies this`entries
      ensures forall p :: Lookup(entries, p) ==
                if p == pane then Seen(Lookup(old(entries), p)) else Lookup(old(entries), p)
      ensures changed == (Visible(Lookup(entries, pane)) != Visible(Lookup(old(entries), pane)))
    {
      if pane !in entries || entries[pane].status.None? {
        return false;
      }
      var s := entries[pane].status.value;
      entries := entries[pane := entries[pane].(status := Some(Acknowledged(s)))];
      return s.state == Idle && !s.acknowledged;
    }
  }

  function Seen(cur: Option<Entry>): Option<Entry>
  {
    if cur.Some? && cur.value.status.Some? then Some(cur.value.(status := Some(Acknowledged(cur.value.status.value))))
      else cur
  }
}
