/** One pane's agent status: the reported state, and whether a completion has been seen. */
module Agent {
  import opened Common

  datatype AgentState = Idle | Working | Blocked | Done | Unknown

  /** The stored status. `Done` is never stored: it is idle with an unseen completion. */
  datatype Status = Status(agent: string, state: AgentState, acknowledged: bool) {
    predicate Valid() { state != Done && (!acknowledged ==> state == Idle) }

    /** What the sidebar shows. */
    function Display(): AgentState { if state == Idle && !acknowledged then Done else state }
  }

  /** A `done` report means idle with something to look at. */
  function Semantic(reported: AgentState): AgentState { if reported == Done then Idle else reported }

  function Fresh(agent: string, reported: AgentState): Status
  {
    Status(agent, Semantic(reported), reported != Done)
  }

  /** The status after a newer report for the same pane. */
  function Reported(s: Status, agent: string, reported: AgentState): Status
  {
    var completes := s.state == Working || s.state == Blocked || (s.agent == agent && s.state == Unknown);
    var stillUnseen := s.state == Idle && !s.acknowledged;
    Status(agent, Semantic(reported), reported != Done && !(reported == Idle && (completes || stillUnseen)))
  }

  function Acknowledged(s: Status): Status
  {
    if s.state == Idle then s.(acknowledged := true) else s
  }

  /** The status as the daemon holds and updates it. */
  class AgentStatus {
    var agent: string
    var state: AgentState
    var acknowledged: bool

    ghost function View(): Status
      reads this
    {
      Status(agent, state, acknowledged)
    }

    constructor (agent: string, state: AgentState)
      ensures View() == Fresh(agent, state) && View().Valid()
    {
      this.agent := agent;
      this.state := Unknown;
      this.acknowledged := true;
      new;
      ApplyReportInner(state, false, false);
    }

    method ApplyReport(agent: string, state: AgentState)
      requires View().Valid()
      modifies this
      ensures View() == Reported(old(View()), agent, state) && View().Valid()
    {
      var sameAgent := this.agent == agent;
      this.agent := agent;
      ApplyReportInner(state, true, sameAgent);
    }

    method ApplyReportInner(reported: AgentState, hasPrevious: bool, sameAgent: bool)
      modifies this
      ensures agent == old(agent)
      ensures state == Semantic(reported)
      ensures !acknowledged <==>
                || reported == Done
                || (reported == Idle && hasPrevious && (
                      || old(state) == Working || old(state) == Blocked || (sameAgent && old(state) == Unknown)
                      || (old(state) == Idle && !old(acknowledged))))
    {
      var becameIdleAfterActivity := hasPrevious
        && (state == Working || state == Blocked || (sameAgent && state == Unknown));
      var wasUnacknowledgedIdle := hasPrevious && state == Idle && !acknowledged;
      match reported
      case Done =>
        state := Idle;
        acknowledged := false;
      case Idle =>
        state := Idle;
        acknowledged := !becameIdleAfterActivity && !wasUnacknowledgedIdle;
      case _ =>
        state := reported;
        acknowledged := true;
    }

    /** Done stands for idle with an unseen completion; every other state is shown as stored. */
    function DisplayState(): (s: AgentState)
      reads this
      ensures View().Valid() ==> (s == Done <==> state == Idle && !acknowledged)
      ensures s != Done ==> s == state
      ensures s == View().Display()
    {
      if state == Idle && !acknowledged then Done else state
    }

    /** Mark a completion as seen; true exactly when what is shown changes, from Done to Idle. */
    method Acknowledge() returns (changed: bool)
      requires View().Valid()
      modifies this
      ensures View() == Acknowledged(old(View())) && View().Valid() && View().Display() != Done
      ensures changed == (old(View()).Display() == Done) == (View().Display() != old(View()).Display())
    {
      if state == Idle && !acknowledged {
        acknowledged := true;
        return true;
      } else {
        return false;
      }
    }
  }

  /**
   What is shown is all there is to know: what a report or an acknowledgement will show next
   depends on what is shown now, not on how it came about.
   */
  lemma ShownStatesEvolveAlone(s: Status, agent: string, reported: AgentState)
    requires s.Valid()
    ensures var turnEnds := s.Display() in [Working, Blocked, Done] || (s.Display() == Unknown && s.agent == agent);
            Reported(s, agent, reported).Display() == if reported == Idle && turnEnds then Done else reported
    ensures Acknowledged(s).Display() == if s.Display() == Done then Idle else s.Display()
    ensures Fresh(agent, reported).Display() == reported
  {
  }

  // ---------------------------------------------------------------- a history specification

  datatype Event = Report(agent: string, state: AgentState) | Ack

  /** The status after a history; a first acknowledgement finds nothing to acknowledge. */
  function After(history: seq<Event>): Option<Status>
  {
    if history == [] then None else
    var before := After(history[..|history| - 1]);
    match history[|history| - 1]
    case Report(agent, state) =>
      if before.Some? then Some(Reported(before.value, agent, state)) else Some(Fresh(agent, state))
    case Ack =>
      if before.Some? then Some(Acknowledged(before.value)) else None
  }

  /** The position of the last report among the first `n` events. */
  function LastReport(history: seq<Event>, n: nat): (r: Option<nat>)
    requires n <= |history|
    ensures r.Some? ==> r.value < n && history[r.value].Report? && forall j :: r.value < j < n ==> history[j].Ack?
    ensures r.None? ==> forall j :: 0 <= j < n ==> history[j].Ack?
  {
    if n == 0 then None
    else if history[n - 1].Report? then Some(n - 1)
    else LastReport(history, n - 1)
  }

  /**
   Event `i` completes a turn: an explicit `done`, or an idle report whose predecessor left the
   agent active, or left the same agent in an unknown state.
   */
  ghost predicate Completes(history: seq<Event>, i: nat)
    requires i < |history|
  {
    && history[i].Report?
    && (|| history[i].state == Done
        || (&& history[i].state == Idle
            && LastReport(history, i).Some?
            && var previous := history[LastReport(history, i).value];
               || previous.state == Working
               || previous.state == Blocked
               || (previous.state == Unknown && previous.agent == history[i].agent)))
  }

  /** Event `j` withdraws a completion: somebody looked, or the agent is busy again. */
  predicate Withdraws(e: Event)
  {
    e.Ack? || Semantic(e.state) != Idle
  }

  ghost predicate Unseen(history: seq<Event>)
  {
    exists i :: 0 <= i < |history| && Completes(history, i) && forall j :: i < j < |history| ==> !Withdraws(history[j])
  }

  lemma CompletesPrefix(history: seq<Event>, n: nat, i: nat)
    requires i < n <= |history|
    ensures Completes(history[..n], i) <==> Completes(history, i)
  {
    LastReportPrefix(history, n, i);
  }

  lemma {:induction false} LastReportPrefix(history: seq<Event>, n: nat, i: nat)
    requires i <= n <= |history|
    ensures LastReport(history[..n], i) == LastReport(history, i)
  {
    if i > 0 && !history[i - 1].Report? { LastReportPrefix(history, n, i - 1); }
  }

  /** What is left unseen after one more event. */
  lemma UnseenStep(history: seq<Event>)
    requires history != []
    ensures var n := |history| - 1;
            Unseen(history) <==> Completes(history, n) || (Unseen(history[..n]) && !Withdraws(history[n]))
  {
    var n := |history| - 1;
    var h := history[..n];
    if Unseen(history) {
      var i :| 0 <= i < |history| && Completes(history, i) && forall j :: i < j < |history| ==> !Withdraws(history[j]);
      if i < n {
        CompletesPrefix(history, n, i);
        assert Completes(h, i);
      }
    }
    if Completes(history, n) {
      assert Unseen(history);
    }
    if Unseen(h) && !Withdraws(history[n]) {
      var i :| 0 <= i < n && Completes(h, i) && forall j :: i < j < n ==> !Withdraws(h[j]);
      CompletesPrefix(history, n, i);
      assert Completes(history, i) && forall j :: i < j < |history| ==> !Withdraws(history[j]);
    }
  }

  /**
   Derived completion refines the history: a status exists once something was reported, it stores
   the last reported state, and it shows Done exactly when a completion is still unseen.
   */
  lemma {:induction false} DoneMeansUnseen(history: seq<Event>)
    ensures After(history).Some? <==> LastReport(history, |history|).Some?
    ensures After(history).Some? ==>
              var s := After(history).value;
              var last := history[LastReport(history, |history|).value];
              && s.Valid()
              && s.agent == last.agent
              && s.state == Semantic(last.state)
              && (s.Display() == Done <==> Unseen(history))
              && (Unseen(history) ==> s.state == Idle)
    ensures After(history).None? ==> !Unseen(history)
  {
    if history != [] {
      var n := |history| - 1;
      DoneMeansUnseen(history[..n]);
      LastReportPrefix(history, n, n);
      UnseenStep(history);
    }
  }
}
