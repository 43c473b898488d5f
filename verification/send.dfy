/**
 * The send-for-approval flow as a state machine.  The two timers of the handler (the
 * simulated request and the toast's auto-hide) are events; elapsed time is not modelled.
 */
module SendFlow {

  /**
   * The selection, the in-flight flag, the toast flag, and how many toast auto-hide
   * timers have been started and not yet fired.
   */
  datatype State = State(selected: set<string>, sending: bool, toast: bool, toastTimers: nat)

  /** Nothing selected, nothing in flight, no toast. */
  const Initial := State({}, false, false, 0)

  /**
   * `ChangeSelection` stands for either selection handler; `ClickSend` is a click on the send
   * button; `SendDone` is the simulated request's timer firing; `ToastTimeout` is an
   * auto-hide timer firing.
   */
  datatype Event = ChangeSelection(selection: set<string>) | ClickSend | SendDone | ToastTimeout

  /** The send button is enabled when something is selected and no send is in flight. */
  predicate SendEnabled(s: State)
  {
    |s.selected| > 0 && !s.sending
  }

  /** Every toast on screen has an auto-hide timer still pending. */
  predicate ToastBacked(s: State)
  {
    s.toast ==> s.toastTimers > 0
  }

  /**
   * One event.  A click on the disabled button does nothing; a timer fires only after it was
   * started, so a timer event with none pending does nothing either.
   */
  function Step(s: State, e: Event): (r: State)
    ensures e.ChangeSelection? ==>
              r.selected == e.selection && r.sending == s.sending && r.toast == s.toast && r.toastTimers == s.toastTimers
    ensures e.ClickSend? ==> r.selected == s.selected && r.toast == s.toast && r.toastTimers == s.toastTimers
    ensures e.ClickSend? ==> (r.sending <==> s.sending || |s.selected| > 0)
    ensures e.SendDone? && s.sending ==> !r.sending && r.toast && r.selected == {} && r.toastTimers == s.toastTimers + 1
    ensures e.SendDone? && !s.sending ==> r == s
    ensures e.ToastTimeout? && s.toastTimers > 0 ==>
              !r.toast && r.toastTimers + 1 == s.toastTimers && r.selected == s.selected && r.sending == s.sending
    ensures e.ToastTimeout? && s.toastTimers == 0 ==> r == s
    ensures ToastBacked(s) ==> ToastBacked(r)
  {
    match e
    case ChangeSelection(sel) => s.(selected := sel)
    case ClickSend => if SendEnabled(s) then s.(sending := true) else s
    case SendDone =>
      if s.sending then State({}, false, true, s.toastTimers + 1) else s
    case ToastTimeout =>
      if s.toastTimers > 0 then s.(toast := false, toastTimers := s.toastTimers - 1) else s
  }

  /** A click starts a send exactly when the button is enabled; a click on a disabled button changes nothing. */
  lemma ClickStartsSendIffEnabled(s: State)
    ensures !s.sending ==> (Step(s, ClickSend).sending <==> SendEnabled(s))
    ensures !SendEnabled(s) ==> Step(s, ClickSend) == s
  {
  }

  /** The state after a sequence of events. */
  function Run(s: State, events: seq<Event>): State
    decreases |events|
  {
    if events == [] then s else Run(Step(s, events[0]), events[1..])
  }

  /** Along any run from a state whose toast is backed, every toast stays backed by a pending timer. */
  lemma {:induction false} RunKeepsToastBacked(s: State, events: seq<Event>)
    requires ToastBacked(s)
    ensures ToastBacked(Run(s, events))
    decreases |events|
  {
    if events != [] {
      RunKeepsToastBacked(Step(s, events[0]), events[1..]);
    }
  }

  /** Only a selection change or a completed request changes the selection: a click on send leaves it as it is. */
  lemma {:induction false} NoSendDoneKeepsSelection(s: State, events: seq<Event>)
    requires forall k :: 0 <= k < |events| ==> !events[k].ChangeSelection? && !events[k].SendDone?
    ensures Run(s, events).selected == s.selected
    decreases |events|
  {
    if events != [] {
      assert !events[0].ChangeSelection? && !events[0].SendDone?;
      NoSendDoneKeepsSelection(Step(s, events[0]), events[1..]);
    }
  }

  /** A state reachable from the start keeps every toast backed. */
  lemma ReachableToastBacked(events: seq<Event>)
    ensures ToastBacked(Run(Initial, events))
  {
    RunKeepsToastBacked(Initial, events);
  }

  /** Select three ids, send, let the request finish, let the toast time out. */
  lemma SendScenario()
    ensures var s1 := Run(Initial, [ChangeSelection({"a", "b", "c"}), ClickSend]);
            s1.sending && s1.selected == {"a", "b", "c"} && !SendEnabled(s1)
    ensures var s2 := Run(Initial, [ChangeSelection({"a", "b", "c"}), ClickSend, SendDone]);
            !s2.sending && s2.toast && s2.selected == {} && !SendEnabled(s2)
    ensures var s3 := Run(Initial, [ChangeSelection({"a", "b", "c"}), ClickSend, SendDone, ToastTimeout]);
            !s3.sending && !s3.toast && s3.selected == {}
  {
    assert |{"a", "b", "c"}| > 0 by {
      assert "a" in {"a", "b", "c"};
    }
  }

  /**
   * Two sends in a row: the first auto-hide timer is never cancelled, so it hides the second
   * toast while the second timer is still pending.
   */
  lemma OverlappingToastScenario()
    ensures var s := Run(Initial, [ChangeSelection({"a"}), ClickSend, SendDone,
                                   ChangeSelection({"b"}), ClickSend, SendDone, ToastTimeout]);
            !s.toast && s.toastTimers == 1 && s.selected == {} && !s.sending
  {
    assert |{"a"}| == 1 && |{"b"}| == 1;
  }
}
