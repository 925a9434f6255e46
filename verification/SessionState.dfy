/** The session state machine and its transition table. */
module SessionState {

  datatype State = Init | Rendezvous | Signaling | AuthPending | Authenticated | Streaming | Closing | Closed | Failed

  const AllowedTransitions: map<State, set<State>> := map[
    Init := {Rendezvous, Closing, Failed},
    Rendezvous := {Signaling, Closing, Failed},
    Signaling := {AuthPending, Closing, Failed},
    AuthPending := {Authenticated, Closing, Failed},
    Authenticated := {Streaming, Closing, Failed},
    Streaming := {Streaming, Closing, Failed},
    Closing := {Closed, Failed}
  ]

  /** The table read row by row. */
  predicate Allowed(from: State, to: State)
  {
    match from
    case Init => to.Rendezvous? || to.Closing? || to.Failed?
    case Rendezvous => to.Signaling? || to.Closing? || to.Failed?
    case Signaling => to.AuthPending? || to.Closing? || to.Failed?
    case AuthPending => to.Authenticated? || to.Closing? || to.Failed?
    case Authenticated => to.Streaming? || to.Closing? || to.Failed?
    case Streaming => to.Streaming? || to.Closing? || to.Failed?
    case Closing => to.Closed? || to.Failed?
    case _ => false
  }

  lemma AllowedIsTable(from: State, to: State)
    ensures Allowed(from, to) <==> from in AllowedTransitions && to in AllowedTransitions[from]
  {
    match from
    case Init => assert AllowedTransitions[Init] == {Rendezvous, Closing, Failed};
    case Rendezvous => assert AllowedTransitions[Rendezvous] == {Signaling, Closing, Failed};
    case Signaling => assert AllowedTransitions[Signaling] == {AuthPending, Closing, Failed};
    case AuthPending => assert AllowedTransitions[AuthPending] == {Authenticated, Closing, Failed};
    case Authenticated => assert AllowedTransitions[Authenticated] == {Streaming, Closing, Failed};
    case Streaming => assert AllowedTransitions[Streaming] == {Streaming, Closing, Failed};
    case Closing => assert AllowedTransitions[Closing] == {Closed, Failed};
    case _ =>
  }

  /** The state after asking for `next`: unchanged if the table forbids it. */
  function Moved(s: State, next: State): State
  {
    if Allowed(s, next) then next else s
  }

  predicate Teardown(s: State)
  {
    s.Closing? || s.Closed? || s.Failed?
  }

  /** How far a session has come. */
  function Progress(s: State): nat
  {
    match s
    case Init => 0
    case Rendezvous => 1
    case Signaling => 2
    case AuthPending => 3
    case Authenticated => 4
    case Streaming => 5
    case Closing => 6
    case Closed => 7
    case Failed => 8
  }

  function Requests(s: State, requests: seq<State>): State
    decreases |requests|
  {
    if requests == [] then s else Requests(Moved(s, requests[0]), requests[1..])
  }

  /** Whatever is requested in whatever order, the session never goes back, stays
      torn down once torn down, and visits AUTHENTICATED before STREAMING. */
  lemma {:induction false} NeverGoesBack(s: State, requests: seq<State>)
    ensures Progress(Requests(s, requests)) >= Progress(s)
    ensures Teardown(s) ==> Teardown(Requests(s, requests))
    ensures Requests(s, requests).Streaming? && !s.Streaming? ==>
              s.Authenticated? || exists k :: 0 <= k <= |requests| && Requests(s, requests[..k]).Authenticated?
    decreases |requests|
  {
    if requests != [] {
      var s1 := Moved(s, requests[0]);
      NeverGoesBack(s1, requests[1..]);
      if Requests(s, requests).Streaming? && !s.Streaming? && !s.Authenticated? {
        if s1.Authenticated? {
          assert requests[..1][1..] == [];
          assert Requests(s, requests[..1]).Authenticated?;
        } else {
          var k :| 0 <= k <= |requests[1..]| && Requests(s1, requests[1..][..k]).Authenticated?;
          assert requests[..k + 1][1..] == requests[1..][..k];
          assert Requests(s, requests[..k + 1]).Authenticated?;
        }
      }
    }
  }

  class StateMachine {
    var state: State

    constructor ()
      ensures state == Init
    {
      state := Init;
    }

    method Transition(next: State) returns (ok: bool)
      modifies this
      ensures ok <==> Allowed(old(state), next)
      ensures state == Moved(old(state), next)
    {
      AllowedIsTable(state, next);
      if state == next && next.Streaming? {
        return true;
      }
      if state !in AllowedTransitions || next !in AllowedTransitions[state] {
        return false;
      }
      state := next;
      return true;
    }

    method IsOneOf(states: seq<State>) returns (found: bool)
      ensures found <==> state in states
    {
      for i := 0 to |states|
        invariant state !in states[..i]
      {
        if state == states[i] {
          return true;
        }
      }
      return false;
    }
  }
}
