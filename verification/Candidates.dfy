/** Remote ICE candidates: held back until the remote description is set, then
    submitted. Any number of AddRemoteCandidate and setRemoteDescription calls run
    at once; each lock region and each AddICECandidate call is one step. */
module Candidates {
  import opened Basics

  /** `flights[w]` is what call `w` still has to submit. */
  datatype Store<C(==)> = Store(
    remoteSet: bool,
    pending: seq<C>,
    flights: seq<seq<C>>,
    submitted: seq<C>,
    received: seq<C>,
    errored: bool)

  datatype Event<C(==)> =
    | Add(candidate: C)
    | SetRemote
    | Submit(w: nat, ok: bool)

  function Empty<C(==)>(): Store<C>
  {
    Store(false, [], [], [], [], false)
  }

  function Next<C(==)>(s: Store<C>, e: Event<C>): Store<C>
  {
    match e
    case Add(c) =>
      var s1 := s.(received := s.received + [c]);
      if s.remoteSet then s1.(flights := s.flights + [[c]]) else s1.(pending := s.pending + [c])
    case SetRemote =>
      s.(remoteSet := true, flights := s.flights + [s.pending], pending := [])
    case Submit(w, ok) =>
      if w < |s.flights| && s.flights[w] != [] then
        if ok then s.(submitted := s.submitted + [s.flights[w][0]], flights := s.flights[w := s.flights[w][1..]])
        else s.(errored := true, flights := s.flights[w := []])
      else s
  }

  function Run<C(==)>(events: seq<Event<C>>): Store<C>
  {
    if events == [] then Empty() else Next(Run(events[..|events| - 1]), events[|events| - 1])
  }

  lemma {:induction false} FlattenPop<C>(fs: seq<seq<C>>, w: nat)
    requires w < |fs| && fs[w] != []
    ensures multiset(Flatten(fs)) == multiset(Flatten(fs[w := fs[w][1..]])) + multiset{fs[w][0]}
  {
    var gs := fs[w := fs[w][1..]];
    assert fs[0] == if w == 0 then [fs[w][0]] + gs[0] else gs[0];
    if w > 0 {
      FlattenPop(fs[1..], w - 1);
      assert gs[1..] == fs[1..][w - 1 := fs[w][1..]];
    } else {
      assert gs[1..] == fs[1..];
    }
  }

  ghost predicate Conserved<C>(s: Store<C>)
  {
    && (s.remoteSet ==> s.pending == [])
    && (!s.remoteSet ==> s.submitted == [] && Flatten(s.flights) == [])
    && (!s.errored ==>
          multiset(s.received) == multiset(s.submitted) + multiset(Flatten(s.flights)) + multiset(s.pending))
  }

  lemma NextConserves<C>(s: Store<C>, e: Event<C>)
    requires Conserved(s)
    ensures Conserved(Next(s, e))
  {
    match e
    case Add(c) =>
      if s.remoteSet {
        FlattenSnoc(s.flights, [c]);
      } else {}
    case SetRemote =>
      FlattenSnoc(s.flights, s.pending);
    case Submit(w, ok) =>
      if w < |s.flights| && s.flights[w] != [] {
        SubmitConserves(s, w, ok);
      } else {}
  }

  lemma SubmitConserves<C>(s: Store<C>, w: nat, ok: bool)
    requires Conserved(s) && w < |s.flights| && s.flights[w] != []
    ensures Conserved(Next(s, Submit(w, ok)))
  {
    FlattenPop(s.flights, w);
    assert s.remoteSet by {
      assert s.flights[w][0] in multiset(Flatten(s.flights));
    }
    if ok {} else {}
  }

  /** In every interleaving without a failed submission, each received candidate is
      pending, in flight or submitted, exactly once; and nothing is in flight or
      submitted before the remote description is set. */
  lemma {:induction false} EveryRunConserves<C>(events: seq<Event<C>>)
    ensures Conserved(Run(events))
  {
    if events != [] {
      EveryRunConserves(events[..|events| - 1]);
      NextConserves(Run(events[..|events| - 1]), events[|events| - 1]);
    }
  }

  lemma RunSnoc<C>(events: seq<Event<C>>, e: Event<C>)
    ensures Run(events + [e]) == Next(Run(events), e)
  {
    assert (events + [e])[..|events|] == events;
  }

  lemma {:induction false} SomethingFlies<C>(fs: seq<seq<C>>) returns (w: nat)
    requires Flatten(fs) != []
    ensures w < |fs| && fs[w] != []
  {
    if fs[0] != [] {
      w := 0;
    } else {
      w := SomethingFlies(fs[1..]);
      w := w + 1;
    }
  }

  lemma {:induction false} FlattenShrinks<C>(fs: seq<seq<C>>, w: nat)
    requires w < |fs| && fs[w] != []
    ensures |Flatten(fs[w := fs[w][1..]])| + 1 == |Flatten(fs)|
  {
    FlattenPop(fs, w);
    assert |multiset(Flatten(fs))| == |Flatten(fs)|;
    assert |multiset(Flatten(fs[w := fs[w][1..]]))| == |Flatten(fs[w := fs[w][1..]])|;
  }

  lemma OneSubmitted<C>(s: Store<C>, w: nat)
    requires w < |s.flights| && s.flights[w] != []
    ensures var s' := Next(s, Submit(w, true));
            && s'.remoteSet == s.remoteSet && s'.errored == s.errored && s'.received == s.received
            && |Flatten(s'.flights)| < |Flatten(s.flights)|
  {
    FlattenShrinks(s.flights, w);
  }

  lemma AllSubmitted<C>(s: Store<C>)
    requires Conserved(s) && s.remoteSet && !s.errored && Flatten(s.flights) == []
    ensures s.pending == [] && multiset(s.submitted) == multiset(s.received)
  {
  }

  /** `all` goes on from `events` with nothing but accepted submissions. */
  ghost predicate SubmitsOnly<C>(events: seq<Event<C>>, all: seq<Event<C>>)
  {
    events <= all && forall i :: |events| <= i < |all| ==> all[i].Submit? && all[i].ok
  }

  lemma SubmitsOnlyLonger<C>(events: seq<Event<C>>, e: Event<C>, all: seq<Event<C>>)
    requires SubmitsOnly(events + [e], all) && e.Submit? && e.ok
    ensures SubmitsOnly(events, all)
  {
    assert all[|events|] == (events + [e])[|events|] == e;
  }

  /** All that was received has been submitted, each candidate exactly once. */
  ghost predicate AllDone<C>(s: Store<C>)
  {
    Flatten(s.flights) == [] && s.pending == [] && multiset(s.submitted) == multiset(s.received)
  }

  lemma NothingLeft<C>(events: seq<Event<C>>)
    requires Run(events).remoteSet && !Run(events).errored && Flatten(Run(events).flights) == []
    ensures AllDone(Run(events))
  {
    EveryRunConserves(events);
    AllSubmitted(Run(events));
  }

  lemma SubmitOne<C>(events: seq<Event<C>>) returns (e: Event<C>)
    requires Flatten(Run(events).flights) != []
    ensures e.Submit? && e.ok
    ensures var s, s' := Run(events), Run(events + [e]);
            && s'.remoteSet == s.remoteSet && s'.errored == s.errored && s'.received == s.received
            && |Flatten(s'.flights)| < |Flatten(s.flights)|
  {
    var w := SomethingFlies(Run(events).flights);
    e := Submit(w, true);
    RunSnoc(events, e);
    OneSubmitted(Run(events), w);
  }

  /** Every run can be finished: once the remote description is set and the peer
      connection accepts what it is given, all candidates received end up submitted,
      each exactly once. */
  lemma {:induction false} EverythingSubmitted<C>(events: seq<Event<C>>) returns (all: seq<Event<C>>)
    requires Run(events).remoteSet && !Run(events).errored
    ensures SubmitsOnly(events, all)
    ensures AllDone(Run(all)) && Run(all).received == Run(events).received
    decreases |Flatten(Run(events).flights)|
  {
    if Flatten(Run(events).flights) == [] {
      all := events;
      NothingLeft(events);
    } else {
      var e := SubmitOne(events);
      all := EverythingSubmitted(events + [e]);
      SubmitsOnlyLonger(events, e, all);
    }
  }

  // ---------- serialised calls ----------

  /** As in the peer loop, a call starts only when the previous one has finished. */
  ghost predicate Serialised<C(!new)>(events: seq<Event<C>>)
  {
    forall k :: 0 <= k < |events| && !events[k].Submit? ==> Flatten(Run(events[..k]).flights) == []
  }

  /** All flights but the last are done. */
  ghost predicate InOrder<C>(s: Store<C>)
  {
    && (s.flights != [] ==> Flatten(s.flights[..|s.flights| - 1]) == [])
    && (s.remoteSet ==> s.pending == [])
    && (!s.remoteSet ==> s.submitted == [] && Flatten(s.flights) == [])
    && (!s.errored ==> s.received == s.submitted + Flatten(s.flights) + s.pending)
  }

  lemma {:induction false} FlattenEmpty<C>(fs: seq<seq<C>>)
    ensures Flatten(fs) == [] <==> forall i :: 0 <= i < |fs| ==> fs[i] == []
  {
    if fs != [] {
      FlattenEmpty(fs[1..]);
      assert fs == [fs[0]] + fs[1..];
      if forall i :: 0 <= i < |fs| ==> fs[i] == [] {
        assert forall i :: 0 <= i < |fs[1..]| ==> fs[1..][i] == fs[i + 1];
      }
    }
  }

  lemma FlattenLast<C>(fs: seq<seq<C>>)
    requires fs != [] && Flatten(fs[..|fs| - 1]) == []
    ensures Flatten(fs) == fs[|fs| - 1]
  {
    FlattenSnoc(fs[..|fs| - 1], fs[|fs| - 1]);
    assert fs == fs[..|fs| - 1] + [fs[|fs| - 1]];
  }

  lemma OnlyLastFlies<C>(fs: seq<seq<C>>, w: nat)
    requires w < |fs| && fs[w] != [] && Flatten(fs[..|fs| - 1]) == []
    ensures w == |fs| - 1
  {
    FlattenEmpty(fs[..|fs| - 1]);
  }

  lemma ReplaceLast<C>(fs: seq<seq<C>>, last: seq<C>)
    requires fs != [] && Flatten(fs[..|fs| - 1]) == []
    ensures var n := |fs| - 1;
            Flatten(fs) == fs[n] && Flatten(fs[n := last]) == last && Flatten(fs[n := last][..n]) == []
  {
    var n := |fs| - 1;
    var gs := fs[n := last];
    assert gs[..n] == fs[..n];
    FlattenLast(fs);
    FlattenLast(gs);
  }

  lemma SubmitInOrder<C>(s: Store<C>, w: nat, ok: bool)
    requires InOrder(s) && w < |s.flights| && s.flights[w] != []
    ensures InOrder(Next(s, Submit(w, ok)))
  {
    var n := |s.flights| - 1;
    OnlyLastFlies(s.flights, w);
    var f := s.flights[n];
    ReplaceLast(s.flights, if ok then f[1..] else []);
    if ok {
      MoveFirst(s.submitted, f, s.pending);
    } else {}
  }

  lemma MoveFirst<C>(a: seq<C>, f: seq<C>, b: seq<C>)
    requires f != []
    ensures a + f + b == a + [f[0]] + f[1..] + b
  {
  }

  lemma StartInOrder<C>(s: Store<C>, e: Event<C>)
    requires InOrder(s) && !e.Submit? && Flatten(s.flights) == []
    ensures InOrder(Next(s, e))
  {
    match e
    case Add(c) =>
      FlattenSnoc(s.flights, [c]);
      assert (s.flights + [[c]])[..|s.flights|] == s.flights;
    case SetRemote =>
      FlattenSnoc(s.flights, s.pending);
      assert (s.flights + [s.pending])[..|s.flights|] == s.flights;
  }

  /** With serialised calls order is kept too: submitted, then in flight, then
      pending is exactly the received sequence. */
  lemma {:induction false} SerialisedInOrder<C(!new)>(events: seq<Event<C>>)
    requires Serialised(events)
    ensures InOrder(Run(events))
  {
    if events != [] {
      var n := |events| - 1;
      assert forall k :: 0 <= k < n ==> events[..n][..k] == events[..k];
      SerialisedInOrder(events[..n]);
      var s, e := Run(events[..n]), events[n];
      if e.Submit? {
        if e.w < |s.flights| && s.flights[e.w] != [] {
          SubmitInOrder(s, e.w, e.ok);
        }
      } else {
        StartInOrder(s, e);
      }
    }
  }

  // ---------- the two methods, run one at a time ----------

  class CandidateQueue<C(==)> {
    var remoteDescription: bool
    var pendingCandidates: seq<C>
    var submitted: seq<C>   // what the peer connection was given

    constructor ()
      ensures !remoteDescription && pendingCandidates == [] && submitted == []
    {
      remoteDescription, pendingCandidates, submitted := false, [], [];
    }

    /** `ok` is what the peer connection answers, if it is asked. */
    method AddRemoteCandidate(c: C, ok: bool) returns (accepted: bool)
      modifies this
      ensures remoteDescription == old(remoteDescription)
      ensures if !remoteDescription then
                accepted && pendingCandidates == old(pendingCandidates) + [c] && submitted == old(submitted)
              else
                accepted == ok && pendingCandidates == old(pendingCandidates)
                && submitted == if ok then old(submitted) + [c] else old(submitted)
    {
      if !remoteDescription {
        pendingCandidates := pendingCandidates + [c];
        return true;
      }
      if ok {
        submitted := submitted + [c];
      }
      return ok;
    }

    /** `answers[i]` is what the peer connection says to the i-th flushed
        candidate; the first refusal ends the flush and drops the rest. */
    method SetRemoteDescription(answers: seq<bool>) returns (flushed: nat)
      requires |answers| == |pendingCandidates|
      modifies this
      ensures remoteDescription && pendingCandidates == []
      ensures flushed <= |answers| && (forall i :: 0 <= i < flushed ==> answers[i])
      ensures flushed < |answers| ==> !answers[flushed]
      ensures submitted == old(submitted) + old(pendingCandidates)[..flushed]
    {
      remoteDescription := true;
      var pending := pendingCandidates;
      pendingCandidates := [];
      flushed := 0;
      while flushed < |pending|
        invariant flushed <= |pending|
        invariant forall i :: 0 <= i < flushed ==> answers[i]
        invariant submitted == old(submitted) + pending[..flushed]
        invariant remoteDescription && pendingCandidates == []
      {
        if !answers[flushed] {
          return;
        }
        submitted := submitted + [pending[flushed]];
        flushed := flushed + 1;
      }
    }
  }
}
