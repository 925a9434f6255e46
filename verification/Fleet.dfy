/** Any number of sessions on one hostile network. Every run is a run of the
    authenticator network of Agreement, so what succeeded authenticators know
    about each other carries over to payload channels. */
module Fleet {
  import opened Basics
  import opened Bytes
  import opened SessionGate
  import S = SessionSafety
  import SA = SessionAuthenticity
  import K = KeySchedule
  import A = Authenticator
  import H = Handshake
  import N = Agreement

  datatype Member = Member(cfg: Config, sys: Sys)

  /** All sessions ever created, and every confirmation tag any of them computed;
      whether its frame was really sent makes no difference. */
  datatype Fleet = Fleet(members: seq<Member>, tags: set<K.Term>)

  datatype FleetEvent =
    | Join(mode: A.Mode, sessionId: text, secret: seq<byte>, scheme: text)
    | At(who: nat, event: Event)

  /** The authenticator call that a session event makes, if it makes one. */
  function CallAt(m: Member, e: Event): Option<H.Call>
  {
    if e.Run? && e.t < |m.sys.pcs| then SA.CallOf(m.cfg, m.sys.sh, m.sys.pcs[e.t], e.env) else None
  }

  function FleetNext(su: A.Suite, f: Fleet, fe: FleetEvent): Fleet
  {
    match fe
    case Join(mode, sessionId, secret, scheme) =>
      var a := A.New(secret, scheme);
      if a.Ok? then f.(members := f.members + [Member(Config(su, mode, sessionId), Initial(a.value))]) else f
    case At(i, e) =>
      if i < |f.members| then
        var m := f.members[i];
        var c := CallAt(m, e);
        Fleet(f.members[i := m.(sys := Next(m.cfg, m.sys, e))],
              f.tags + (if c.Some? then N.TagsIn(H.Apply(su, m.sys.sh.auth, c.value).out) else {}))
      else f
  }

  function RunFleet(su: A.Suite, events: seq<FleetEvent>): Fleet
  {
    if events == [] then Fleet([], {})
    else FleetNext(su, RunFleet(su, events[..|events| - 1]), events[|events| - 1])
  }

  /** A genuine tag was computed by some session. */
  predicate Genuine(m: A.Message, tags: set<K.Term>)
  {
    m.confirmation.Decoded? && K.IsConfirmation(m.confirmation.value) ==> m.confirmation.value in tags
  }

  /** The network delivers what it likes, except tags nobody has computed. */
  predicate Delivers(f: Fleet, fe: FleetEvent)
  {
    fe.At? && fe.event.Spawn? && fe.event.op.ControlMessage? && fe.event.op.data.Some?
    ==> Genuine(fe.event.op.data.value, f.tags)
  }

  ghost predicate NoForgery(su: A.Suite, events: seq<FleetEvent>)
  {
    forall k :: 0 <= k < |events| ==> Delivers(RunFleet(su, events[..k]), events[k])
  }

  // ---------- the authenticator network behind a fleet ----------

  function Auths(members: seq<Member>): (r: seq<A.Auth>)
    ensures |r| == |members| && forall i :: 0 <= i < |r| ==> r[i] == members[i].sys.sh.auth
  {
    seq(|members|, i requires 0 <= i < |members| => members[i].sys.sh.auth)
  }

  function Behind(f: Fleet): N.System
  {
    N.System(Auths(f.members), f.tags)
  }

  function NetworkEvent(f: Fleet, fe: FleetEvent): seq<N.Event>
  {
    match fe
    case Join(_, _, secret, scheme) => [N.Create(secret, scheme)]
    case At(i, e) =>
      if i < |f.members| && CallAt(f.members[i], e).Some? then [N.Act(i, CallAt(f.members[i], e).value)] else []
  }

  /** The calls that the sessions make on their authenticators, in order. */
  ghost function Trace(su: A.Suite, events: seq<FleetEvent>): seq<N.Event>
  {
    if events == [] then []
    else
      var n := |events| - 1;
      Trace(su, events[..n]) + NetworkEvent(RunFleet(su, events[..n]), events[n])
  }

  // ---------- invariant ----------

  ghost predicate MemberInv(su: A.Suite, m: Member, tags: set<K.Term>)
  {
    && m.cfg.suite == su && S.SysInv(m.cfg, m.sys)
    && MessagesGenuine(m.sys.pcs, tags)
  }

  /** Every frame being worked on was delivered, so its tag is genuine. */
  ghost predicate MessagesGenuine(pcs: seq<Pc>, tags: set<K.Term>)
  {
    forall t :: 0 <= t < |pcs| && SA.MessageAt(pcs[t]).Some? ==> Genuine(SA.MessageAt(pcs[t]).value, tags)
  }

  ghost predicate FleetInv(su: A.Suite, f: Fleet)
  {
    forall i :: 0 <= i < |f.members| ==> MemberInv(su, f.members[i], f.tags)
  }

  lemma MessagesStayGenuine(cfg: Config, s: Sys, e: Event, tags: set<K.Term>, more: set<K.Term>)
    requires MessagesGenuine(s.pcs, tags)
    requires e.Spawn? && e.op.ControlMessage? && e.op.data.Some? ==> Genuine(e.op.data.value, tags)
    ensures MessagesGenuine(Next(cfg, s, e).pcs, tags + more)
  {
    if e.Run? && e.t < |s.pcs| {
      SA.StepMessage(cfg, s.sh, e.t, s.pcs[e.t], e.env);
    }
  }

  lemma MemberStepKeepsInv(su: A.Suite, m: Member, e: Event, tags: set<K.Term>, more: set<K.Term>)
    requires MemberInv(su, m, tags)
    requires e.Spawn? && e.op.ControlMessage? && e.op.data.Some? ==> Genuine(e.op.data.value, tags)
    ensures MemberInv(su, m.(sys := Next(m.cfg, m.sys, e)), tags + more)
  {
    S.NextKeepsInv(m.cfg, m.sys, e);
    MessagesStayGenuine(m.cfg, m.sys, e, tags, more);
  }

  lemma MoreTags(su: A.Suite, m: Member, tags: set<K.Term>, more: set<K.Term>)
    requires MemberInv(su, m, tags)
    ensures MemberInv(su, m, tags + more)
  {
  }

  lemma JoinKeepsInv(su: A.Suite, f: Fleet, fe: FleetEvent)
    requires FleetInv(su, f) && fe.Join?
    ensures FleetInv(su, FleetNext(su, f, fe))
  {
    var a := A.New(fe.secret, fe.scheme);
    if a.Ok? {
      var cfg := Config(su, fe.mode, fe.sessionId);
      S.EveryRunSafe(cfg, a.value, []);
      assert MemberInv(su, Member(cfg, Initial(a.value)), f.tags);
    }
  }

  lemma NextKeepsInv(su: A.Suite, f: Fleet, fe: FleetEvent)
    requires FleetInv(su, f) && Delivers(f, fe)
    ensures FleetInv(su, FleetNext(su, f, fe))
  {
    if fe.Join? {
      JoinKeepsInv(su, f, fe);
    } else if fe.who < |f.members| {
      var f' := FleetNext(su, f, fe);
      var c := CallAt(f.members[fe.who], fe.event);
      var more := if c.Some? then N.TagsIn(H.Apply(su, f.members[fe.who].sys.sh.auth, c.value).out) else {};
      assert f'.tags == f.tags + more;
      forall i | 0 <= i < |f'.members|
        ensures MemberInv(su, f'.members[i], f'.tags)
      {
        if i == fe.who {
          MemberStepKeepsInv(su, f.members[i], fe.event, f.tags, more);
        } else {
          MoreTags(su, f.members[i], f.tags, more);
        }
      }
    }
  }

  lemma {:induction false} EveryFleetSafe(su: A.Suite, events: seq<FleetEvent>)
    requires NoForgery(su, events)
    ensures FleetInv(su, RunFleet(su, events))
  {
    if events != [] {
      var n := |events| - 1;
      NoForgeryFront(su, events);
      EveryFleetSafe(su, events[..n]);
      NextKeepsInv(su, RunFleet(su, events[..n]), events[n]);
    }
  }

  // ---------- simulation ----------

  /** The authenticator moves by the call the event makes, and by nothing else. */
  lemma CallMoves(m: Member, e: Event)
    ensures Next(m.cfg, m.sys, e).sh.auth == SA.AuthAfter(m.cfg, m.sys.sh, CallAt(m, e))
  {
    if e.Run? && e.t < |m.sys.pcs| {
      SA.StepAuth(m.cfg, m.sys.sh, e.t, m.sys.pcs[e.t], e.env);
    }
  }

  lemma StepSimulates(su: A.Suite, f: Fleet, fe: FleetEvent)
    requires FleetInv(su, f)
    ensures Behind(FleetNext(su, f, fe))
         == if NetworkEvent(f, fe) == [] then Behind(f) else N.Next(su, Behind(f), NetworkEvent(f, fe)[0])
  {
    var f' := FleetNext(su, f, fe);
    if fe.At? && fe.who < |f.members| {
      CallMoves(f.members[fe.who], fe.event);
      var a := f'.members[fe.who].sys.sh.auth;
      assert Auths(f'.members) == Auths(f.members)[fe.who := a];
      assert Auths(f.members)[fe.who := Auths(f.members)[fe.who]] == Auths(f.members);
      assert f.tags + {} == f.tags;
    } else if fe.Join? && A.New(fe.secret, fe.scheme).Ok? {
      assert Auths(f'.members) == Auths(f.members) + [A.New(fe.secret, fe.scheme).value];
    }
  }

  /** A frame that reaches Step was delivered, so its tag is genuine. */
  lemma StepUnforged(su: A.Suite, f: Fleet, fe: FleetEvent)
    requires FleetInv(su, f) && NetworkEvent(f, fe) != []
    ensures N.Unforged(Behind(f), NetworkEvent(f, fe)[0])
  {
    if fe.At? && fe.event.Run? {
      var m := f.members[fe.who];
      assert MessagesGenuine(m.sys.pcs, f.tags);
      assert CallAt(m, fe.event).value.StepCall? ==> SA.MessageAt(m.sys.pcs[fe.event.t]).Some?;
    }
  }

  lemma UnforgedSnoc(su: A.Suite, events: seq<N.Event>, e: N.Event)
    requires N.NoForgery(su, events) && N.Unforged(N.RunSystem(su, events), e)
    ensures N.NoForgery(su, events + [e])
    ensures N.RunSystem(su, events + [e]) == N.Next(su, N.RunSystem(su, events), e)
  {
    var all := events + [e];
    assert all[..|events|] == events;
    forall k | 0 <= k < |all|
      ensures N.Unforged(N.RunSystem(su, all[..k]), all[k])
    {
      if k < |events| {
        assert all[..k] == events[..k] && all[k] == events[k];
      }
    }
  }

  /** The calls of a fleet run are an unforged run of the authenticator network
      that ends in the fleet's authenticators and tags. */
  lemma {:induction false} FleetSimulates(su: A.Suite, events: seq<FleetEvent>)
    requires NoForgery(su, events)
    ensures N.NoForgery(su, Trace(su, events))
    ensures N.RunSystem(su, Trace(su, events)) == Behind(RunFleet(su, events))
  {
    if events == [] {
      assert Auths([]) == [];
    } else {
      var n := |events| - 1;
      NoForgeryFront(su, events);
      FleetSimulates(su, events[..n]);
      EveryFleetSafe(su, events[..n]);
      TraceStep(su, RunFleet(su, events[..n]), events[n], Trace(su, events[..n]));
    }
  }

  lemma NoForgeryFront(su: A.Suite, events: seq<FleetEvent>)
    requires NoForgery(su, events) && events != []
    ensures var n := |events| - 1;
            NoForgery(su, events[..n]) && Delivers(RunFleet(su, events[..n]), events[n])
  {
    var n := |events| - 1;
    assert forall k :: 0 <= k < n ==> events[..n][..k] == events[..k];
  }

  lemma TraceStep(su: A.Suite, f: Fleet, fe: FleetEvent, h: seq<N.Event>)
    requires FleetInv(su, f) && N.NoForgery(su, h) && N.RunSystem(su, h) == Behind(f)
    ensures N.NoForgery(su, h + NetworkEvent(f, fe))
    ensures N.RunSystem(su, h + NetworkEvent(f, fe)) == Behind(FleetNext(su, f, fe))
  {
    var x := NetworkEvent(f, fe);
    StepSimulates(su, f, fe);
    if x == [] {
      assert h + x == h;
    } else {
      StepUnforged(su, f, fe);
      assert x == [x[0]];
      UnforgedSnoc(su, h, x[0]);
    }
  }

  // ---------- what a payload channel means ----------

  /** If session `i` handed over a payload channel, some other session of the
      opposite role holds an authenticator with the same view and keys: the same
      pairing secret, session id and fingerprints, mirrored. If `i` is the expose
      side, that authenticator has succeeded. */
  lemma PayloadMeansPartner(su: A.Suite, events: seq<FleetEvent>, i: nat) returns (j: nat)
    requires NoForgery(su, events)
    requires var f := RunFleet(su, events); i < |f.members| && f.members[i].sys.sh.handed > 0
    ensures var f := RunFleet(su, events);
            && j < |f.members| && j != i
            && var a, b := f.members[i].sys.sh.auth, f.members[j].sys.sh.auth;
               N.Partners(su, a, b) && Mirrored(a, b) && A.SessionKey(a) == Ok(b.keys.value.sessionKey)
  {
    FleetSimulates(su, events);
    EveryFleetSafe(su, events);
    var f := RunFleet(su, events);
    assert MemberInv(su, f.members[i], f.tags);
    j := N.SuccessHasPartner(su, Trace(su, events), i);
    PartnersMirror(su, f.members[i].sys.sh.auth, f.members[j].sys.sh.auth);
  }

  /** The two ends were bound to one pairing and to each other's fingerprints. */
  predicate Mirrored(a: A.Auth, b: A.Auth)
  {
    && a.secret == b.secret && a.material.sessionId == b.material.sessionId && a.initiator != b.initiator
    && a.material.localFingerprint == b.material.remoteFingerprint
    && a.material.remoteFingerprint == b.material.localFingerprint
  }

  lemma PartnersMirror(su: A.Suite, a: A.Auth, b: A.Auth)
    requires N.Partners(su, a, b)
    ensures Mirrored(a, b)
  {
  }

  /** With pairwise different scalars that partner is the only one, and has no
      other partner itself. */
  lemma PayloadMeansUniquePartner(su: A.Suite, events: seq<FleetEvent>, i: nat) returns (j: nat)
    requires su.PrimeOrder() && NoForgery(su, events) && N.DistinctDraws(su, Trace(su, events))
    requires var f := RunFleet(su, events);
             && i < |f.members| && f.members[i].sys.sh.handed > 0
             && f.members[i].sys.sh.auth.scheme == A.SchemeCpaceV2
    ensures var auths := Auths(RunFleet(su, events).members);
            && j < |auths| && j != i && N.Partners(su, auths[i], auths[j]) && Mirrored(auths[i], auths[j])
            && (forall k :: 0 <= k < |auths| && N.Partners(su, auths[i], auths[k]) ==> k == j)
            && (forall k :: 0 <= k < |auths| && N.Partners(su, auths[j], auths[k]) ==> k == i)
  {
    FleetSimulates(su, events);
    EveryFleetSafe(su, events);
    var f := RunFleet(su, events);
    assert MemberInv(su, f.members[i], f.tags);
    j := N.UniquePartner(su, Trace(su, events), i);
    PartnersMirror(su, f.members[i].sys.sh.auth, f.members[j].sys.sh.auth);
  }
}
