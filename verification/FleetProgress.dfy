/** Two sessions that match can get through: there is an unforged run of a connect
    and an expose session, from creation over descriptions, hello, accept and
    confirm, after which both are authenticated and stream. */
module FleetProgress {
  import opened Basics
  import opened Bytes
  import opened SessionState
  import opened SessionGate
  import opened SessionProgress
  import opened Fleet
  import K = KeySchedule
  import A = Authenticator
  import H = Handshake
  import N = Agreement

  lemma FleetSnoc(su: A.Suite, events: seq<FleetEvent>, fe: FleetEvent)
    requires NoForgery(su, events) && Delivers(RunFleet(su, events), fe)
    ensures NoForgery(su, events + [fe])
    ensures RunFleet(su, events + [fe]) == FleetNext(su, RunFleet(su, events), fe)
  {
    var all := events + [fe];
    assert all[..|events|] == events;
    forall k | 0 <= k < |all|
      ensures Delivers(RunFleet(su, all[..k]), all[k])
    {
      if k < |events| {
        assert all[..k] == events[..k] && all[k] == events[k];
      }
    }
  }

  /** Member `i` has this configuration and this shared state. */
  ghost predicate Stands(f: Fleet, i: nat, cfg: Config, sh: Shared)
  {
    i < |f.members| && f.members[i].cfg == cfg && f.members[i].sys.sh == sh
  }

  /** Nothing but member `i` has changed. */
  ghost predicate OthersStand(f: Fleet, f': Fleet, i: nat)
  {
    |f'.members| == |f.members| && forall j :: 0 <= j < |f.members| && j != i ==> f'.members[j] == f.members[j]
  }

  /** Starts an activity in member `i`. */
  lemma Started(su: A.Suite, events: seq<FleetEvent>, i: nat, op: Op) returns (more: seq<FleetEvent>)
    requires NoForgery(su, events) && i < |RunFleet(su, events).members| && !op.FailCall?
    requires Delivers(RunFleet(su, events), At(i, Spawn(op)))
    ensures NoForgery(su, more)
    ensures var f, f' := RunFleet(su, events), RunFleet(su, more);
            && OthersStand(f, f', i) && f'.members[i].cfg == f.members[i].cfg
            && f'.members[i].sys == Sys(f.members[i].sys.sh, f.members[i].sys.pcs + [Entry(op)])
  {
    more := events + [At(i, Spawn(op))];
    FleetSnoc(su, events, At(i, Spawn(op)));
  }

  /** Lets an activity of member `i` take `k` steps. */
  lemma {:induction false} Driven(su: A.Suite, events: seq<FleetEvent>, i: nat, t: nat, env: Env, k: nat)
    returns (more: seq<FleetEvent>)
    requires NoForgery(su, events)
    requires var f := RunFleet(su, events); i < |f.members| && t < |f.members[i].sys.pcs|
    ensures NoForgery(su, more)
    ensures var f, f' := RunFleet(su, events), RunFleet(su, more);
            var m := f.members[i];
            var d := Drive(m.cfg, m.sys.sh, t, m.sys.pcs[t], env, k);
            && OthersStand(f, f', i) && f'.members[i] == m.(sys := Sys(d.sh, m.sys.pcs[t := d.pc]))
  {
    var f := RunFleet(su, events);
    var pcs := f.members[i].sys.pcs;
    if k == 0 {
      more := events;
      assert pcs[t := pcs[t]] == pcs;
    } else {
      var before := Driven(su, events, i, t, env, k - 1);
      more := DrivenOnce(su, before, i, t, env);
      var d := Drive(f.members[i].cfg, f.members[i].sys.sh, t, pcs[t], env, k - 1);
      var e := StepOne(f.members[i].cfg, d.sh, t, d.pc, env);
      assert pcs[t := d.pc][t := e.pc] == pcs[t := e.pc];
    }
  }

  lemma DrivenOnce(su: A.Suite, events: seq<FleetEvent>, i: nat, t: nat, env: Env) returns (more: seq<FleetEvent>)
    requires NoForgery(su, events)
    requires var f := RunFleet(su, events); i < |f.members| && t < |f.members[i].sys.pcs|
    ensures NoForgery(su, more)
    ensures var f, f' := RunFleet(su, events), RunFleet(su, more);
            var m := f.members[i];
            var d := StepOne(m.cfg, m.sys.sh, t, m.sys.pcs[t], env);
            && OthersStand(f, f', i) && f'.members[i] == m.(sys := Sys(d.sh, m.sys.pcs[t := d.pc]))
  {
    var fe := At(i, Run(t, env));
    FleetSnoc(su, events, fe);
    more := events + [fe];
  }

  /** One activity in member `i`, from start to finish. */
  lemma Performed(su: A.Suite, events: seq<FleetEvent>, i: nat, op: Op, env: Env, k: nat)
    returns (more: seq<FleetEvent>)
    requires NoForgery(su, events) && i < |RunFleet(su, events).members| && !op.FailCall?
    requires Delivers(RunFleet(su, events), At(i, Spawn(op)))
    ensures NoForgery(su, more)
    ensures var f, f' := RunFleet(su, events), RunFleet(su, more);
            var m := f.members[i];
            && OthersStand(f, f', i)
            && Stands(f', i, m.cfg, Drive(m.cfg, m.sys.sh, |m.sys.pcs|, Entry(op), env, k).sh)
  {
    var started := Started(su, events, i, op);
    more := Driven(su, started, i, |RunFleet(su, events).members[i].sys.pcs|, env, k);
  }

  // ---------- setting up ----------

  /** A session with its channel open and both descriptions known, bound. */
  function Bound(cfg: Config, a: A.Auth, l: text, r: text, env: Env): Shared
  {
    var sh := Initial(a).sh.(control := Some(0), controlOpen := true, localFingerprint := l, remoteFingerprint := r,
                             state := AuthPending);
    sh.(auth := BindHere(cfg, sh, env).auth, authBound := true)
  }

  /** Bind accepts what this session will pass to it. */
  predicate WillBind(cfg: Config, a: A.Auth, l: text, r: text, env: Env)
  {
    A.Bind(cfg.suite, a, A.Material(cfg.sessionId, cfg.mode, l, r), env.draw).err.None?
  }

  lemma Opened(su: A.Suite, events: seq<FleetEvent>, i: nat, cfg: Config, a: A.Auth, l: text, env: Env)
    returns (more: seq<FleetEvent>)
    requires NoForgery(su, events) && Stands(RunFleet(su, events), i, cfg, Initial(a).sh) && l != []
    ensures NoForgery(su, more) && OthersStand(RunFleet(su, events), RunFleet(su, more), i)
    ensures Stands(RunFleet(su, more), i, cfg, HalfDescribed(a, l))
  {
    var sh0 := Initial(a).sh;
    var sh1 := sh0.(control := Some(0));
    var sh2 := sh1.(controlOpen := true);
    var k := Attaches(cfg, sh0, |RunFleet(su, events).members[i].sys.pcs|, 0, env);
    more := Performed(su, events, i, Attach(0), env, k);
    k := OpensEarly(cfg, sh1, |RunFleet(su, more).members[i].sys.pcs|, env);
    more := Performed(su, more, i, ControlOpened, env, k);
    k := PublishesLocal(cfg, sh2, |RunFleet(su, more).members[i].sys.pcs|, l, env);
    more := Performed(su, more, i, SetLocal(l), env, k);
  }

  /** Before the remote description is known. */
  function HalfDescribed(a: A.Auth, l: text): Shared
  {
    Initial(a).sh.(control := Some(0), controlOpen := true, localFingerprint := l)
  }

  lemma BindsFully(cfg: Config, a: A.Auth, l: text, r: text, t: nat, env: Env) returns (k: nat)
    requires l != [] && r != [] && WillBind(cfg, a, l, r, env)
    ensures Drive(cfg, HalfDescribed(a, l), t, RemotePublish(r, true), env, k)
         == Move(Bound(cfg, a, l, r, env), SendClaim)
  {
    k := DescribesAndBinds(cfg, HalfDescribed(a, l), t, r, env);
  }

  lemma BindsAndWaits(cfg: Config, a: A.Auth, l: text, r: text, t: nat, env: Env) returns (k: nat)
    requires l != [] && r != [] && WillBind(cfg, a, l, r, env) && cfg.mode.Expose?
    ensures Drive(cfg, HalfDescribed(a, l), t, RemotePublish(r, true), env, k) == Move(Bound(cfg, a, l, r, env), Done)
  {
    var bound := Bound(cfg, a, l, r, env);
    var i := BindsFully(cfg, a, l, r, t, env);
    var j := WaitsForHello(cfg, bound, t, env);
    k := Continue(cfg, HalfDescribed(a, l), t, RemotePublish(r, true), env, i, Move(bound, SendClaim), j);
  }

  lemma BindsAndGreets(cfg: Config, a: A.Auth, l: text, r: text, t: nat, env: Env) returns (k: nat)
    requires l != [] && r != [] && WillBind(cfg, a, l, r, env) && cfg.mode.Connect? && env.ok
    requires A.Start(Bound(cfg, a, l, r, env).auth).hello.Ok?
    ensures var m := Drive(cfg, HalfDescribed(a, l), t, RemotePublish(r, true), env, k);
            m.pc.Done? && Greeting(m.sh, Bound(cfg, a, l, r, env))
  {
    var bound := Bound(cfg, a, l, r, env);
    var i := BindsFully(cfg, a, l, r, t, env);
    var j := SendsHello(cfg, bound, t, env);
    k := Continue(cfg, HalfDescribed(a, l), t, RemotePublish(r, true), env, i, Move(bound, SendClaim), j);
  }

  /** One activity in member `i`, given what it does on its own. */
  lemma PerformedTo(su: A.Suite, events: seq<FleetEvent>, i: nat, op: Op, env: Env, k: nat,
                    cfg: Config, sh: Shared, m: Move)
    returns (more: seq<FleetEvent>)
    requires NoForgery(su, events) && Stands(RunFleet(su, events), i, cfg, sh) && !op.FailCall?
    requires Delivers(RunFleet(su, events), At(i, Spawn(op)))
    requires Drive(cfg, sh, |RunFleet(su, events).members[i].sys.pcs|, Entry(op), env, k) == m
    ensures NoForgery(su, more) && OthersStand(RunFleet(su, events), RunFleet(su, more), i)
    ensures Stands(RunFleet(su, more), i, cfg, m.sh)
  {
    more := Performed(su, events, i, op, env, k);
  }

  lemma Described(su: A.Suite, events: seq<FleetEvent>, i: nat, cfg: Config, a: A.Auth, l: text, r: text,
                  env: Env, k: nat, m: Move)
    returns (more: seq<FleetEvent>)
    requires NoForgery(su, events) && Stands(RunFleet(su, events), i, cfg, HalfDescribed(a, l))
    requires var t := |RunFleet(su, events).members[i].sys.pcs|;
             Drive(cfg, HalfDescribed(a, l), t, RemotePublish(r, true), env, k) == m
    ensures NoForgery(su, more) && OthersStand(RunFleet(su, events), RunFleet(su, more), i)
    ensures Stands(RunFleet(su, more), i, cfg, m.sh)
  {
    more := PerformedTo(su, events, i, SetRemote(r, true), env, k, cfg, HalfDescribed(a, l), m);
  }

  /** The expose side ends up bound and waiting. */
  lemma ExposeReady(su: A.Suite, events: seq<FleetEvent>, i: nat, cfg: Config, a: A.Auth, l: text, r: text, env: Env)
    returns (more: seq<FleetEvent>)
    requires NoForgery(su, events) && Stands(RunFleet(su, events), i, cfg, Initial(a).sh) && l != [] && r != []
    requires cfg.mode.Expose? && WillBind(cfg, a, l, r, env)
    ensures NoForgery(su, more) && OthersStand(RunFleet(su, events), RunFleet(su, more), i)
    ensures Stands(RunFleet(su, more), i, cfg, Bound(cfg, a, l, r, env))
  {
    more := Opened(su, events, i, cfg, a, l, env);
    var k := BindsAndWaits(cfg, a, l, r, |RunFleet(su, more).members[i].sys.pcs|, env);
    more := Described(su, more, i, cfg, a, l, r, env, k, Move(Bound(cfg, a, l, r, env), Done));
  }

  /** The connect side ends up with its hello sent. */
  predicate Greeting(sh: Shared, bound: Shared)
  {
    && sh == bound.(authStarted := true, claimer := sh.claimer, auth := A.Start(bound.auth).auth, hellos := 1)
    && sh.claimer.Some?
  }

  lemma ConnectReady(su: A.Suite, events: seq<FleetEvent>, i: nat, cfg: Config, a: A.Auth, l: text, r: text, env: Env)
    returns (more: seq<FleetEvent>, sh': Shared)
    requires NoForgery(su, events) && Stands(RunFleet(su, events), i, cfg, Initial(a).sh) && l != [] && r != []
    requires cfg.mode.Connect? && WillBind(cfg, a, l, r, env) && env.ok
    requires A.Start(Bound(cfg, a, l, r, env).auth).hello.Ok?
    ensures NoForgery(su, more) && OthersStand(RunFleet(su, events), RunFleet(su, more), i)
    ensures Stands(RunFleet(su, more), i, cfg, sh') && Greeting(sh', Bound(cfg, a, l, r, env))
  {
    more := Opened(su, events, i, cfg, a, l, env);
    var t := |RunFleet(su, more).members[i].sys.pcs|;
    var k := BindsAndGreets(cfg, a, l, r, t, env);
    var m := Drive(cfg, HalfDescribed(a, l), t, RemotePublish(r, true), env, k);
    more := Described(su, more, i, cfg, a, l, r, env, k, m);
    sh' := m.sh;
  }

  // ---------- the exchange ----------

  /** A genuine frame is delivered and worked off. */
  lemma Delivered(su: A.Suite, events: seq<FleetEvent>, i: nat, cfg: Config, sh: Shared, m: A.Message, env: Env, k: nat,
                  end: Move)
    returns (more: seq<FleetEvent>)
    requires NoForgery(su, events) && Stands(RunFleet(su, events), i, cfg, sh)
    requires Genuine(m, RunFleet(su, events).tags)
    requires Drive(cfg, sh, |RunFleet(su, events).members[i].sys.pcs|, MsgCheck(Some(m)), env, k) == end
    ensures NoForgery(su, more) && OthersStand(RunFleet(su, events), RunFleet(su, more), i)
    ensures Stands(RunFleet(su, more), i, cfg, end.sh)
  {
    more := PerformedTo(su, events, i, ControlMessage(Some(m)), env, k, cfg, sh, end);
  }

  lemma Answered(su: A.Suite, events: seq<FleetEvent>, i: nat, cfg: Config, sh: Shared, m: A.Message, env: Env)
    returns (more: seq<FleetEvent>)
    requires NoForgery(su, events) && Stands(RunFleet(su, events), i, cfg, sh)
    requires Genuine(m, RunFleet(su, events).tags)
    requires sh.state.AuthPending? && sh.control.Some? && sh.authBound && env.ok
    requires var r := A.Step(cfg.suite, sh.auth, m); r.result.err.None? && !r.result.done
    ensures NoForgery(su, more) && OthersStand(RunFleet(su, events), RunFleet(su, more), i)
    ensures Stands(RunFleet(su, more), i, cfg, sh.(auth := A.Step(cfg.suite, sh.auth, m).auth))
  {
    var k := FrameAnswered(cfg, sh, |RunFleet(su, events).members[i].sys.pcs|, m, env);
    more := Delivered(su, events, i, cfg, sh, m, env, k, Move(sh.(auth := A.Step(cfg.suite, sh.auth, m).auth), Done));
  }

  lemma Finished(su: A.Suite, events: seq<FleetEvent>, i: nat, cfg: Config, sh: Shared, m: A.Message, env: Env)
    returns (more: seq<FleetEvent>)
    requires NoForgery(su, events) && Stands(RunFleet(su, events), i, cfg, sh)
    requires Genuine(m, RunFleet(su, events).tags)
    requires sh.state.AuthPending? && sh.control.Some? && sh.authBound && sh.result.Pending? && env.ok
    requires var r := A.Step(cfg.suite, sh.auth, m); r.result.err.None? && r.result.done
    ensures NoForgery(su, more) && OthersStand(RunFleet(su, events), RunFleet(su, more), i)
    ensures Stands(RunFleet(su, more), i, cfg,
                   sh.(auth := A.Step(cfg.suite, sh.auth, m).auth, state := Authenticated, result := Success,
                       writes := sh.writes + 1))
  {
    var k := FrameAuthenticates(cfg, sh, |RunFleet(su, events).members[i].sys.pcs|, m, env);
    var sh' := sh.(auth := A.Step(cfg.suite, sh.auth, m).auth, state := Authenticated, result := Success,
                   writes := sh.writes + 1);
    more := Delivered(su, events, i, cfg, sh, m, env, k, Move(sh', Done));
  }

  /** The tag of a session past its sending point may be delivered. */
  lemma TagIsOut(su: A.Suite, events: seq<FleetEvent>, i: nat)
    requires NoForgery(su, events)
    requires var f := RunFleet(su, events); i < |f.members| && N.HasSentTag(f.members[i].sys.sh.auth)
    ensures var f := RunFleet(su, events); H.OwnTag(f.members[i].sys.sh.auth) in f.tags
  {
    FleetSimulates(su, events);
    N.EveryTagEmitted(su, Trace(su, events), i);
  }

  /** The three frames between two matching ends, by Step. */
  ghost predicate Exchange(su: A.Suite, c: A.Auth, e: A.Auth, c2: A.Auth, e1: A.Auth, e2: A.Auth, kc: K.Keys)
  {
    && A.Start(c) == A.Started(c.(state := A.SentHello), Ok(A.HelloOf(c)))
    && A.Step(su, e, A.HelloOf(c)) == A.Stepped(e1, A.StepResult(Some(A.AcceptOf(e, kc.responderConfirm)), false, None))
    && A.Step(su, c.(state := A.SentHello), A.AcceptOf(e, kc.responderConfirm))
       == A.Stepped(c2, A.StepResult(Some(A.ConfirmOf(c, kc.initiatorConfirm)), true, None))
    && A.Step(su, e1, A.ConfirmOf(c, kc.initiatorConfirm)) == A.Stepped(e2, A.StepResult(None, true, None))
    && N.HasSentTag(e1) && H.OwnTag(e1) == kc.responderConfirm
    && N.HasSentTag(c2) && H.OwnTag(c2) == kc.initiatorConfirm
    && A.SessionKey(c2).Ok? && A.SessionKey(c2) == A.SessionKey(e2)
  }

  lemma MatchingEndsExchange(su: A.Suite, c: A.Auth, e: A.Auth)
    returns (c2: A.Auth, e1: A.Auth, e2: A.Auth, k: K.Keys)
    requires su.PrimeOrder() && N.Ready(su, c) && N.Ready(su, e) && c.initiator && !e.initiator && N.Matching(c, e)
    ensures Exchange(su, c, e, c2, e1, e2, k)
  {
    N.ViewsAgreeExactly(su, c, e);
    k := K.Derive(N.ViewFrom(su, c, e.LocalShare()).value);
    N.ResponderAccepts(su, c, e);
    N.InitiatorChecks(su, c, e, k.responderConfirm);
    e1 := e.(state := A.SentAccept, peerShare := Some(c.LocalShare()), keys := Some(k));
    c2 := c.(state := A.Succeeded, peerShare := Some(e.LocalShare()), keys := Some(k));
    e2 := e1.(state := A.Succeeded);
    N.ResponderConfirms(su, e1, c, k);
  }

  /** Both sessions are authenticated once the three frames are delivered. */
  lemma HandshakeCompletes(su: A.Suite, events: seq<FleetEvent>, cc: Config, ce: Config, shC: Shared, shE: Shared,
                           c: A.Auth, c2: A.Auth, e1: A.Auth, e2: A.Auth, k: K.Keys, env: Env)
    returns (more: seq<FleetEvent>)
    requires NoForgery(su, events) && |RunFleet(su, events).members| == 2 && env.ok
    requires Stands(RunFleet(su, events), 0, cc, shC) && Stands(RunFleet(su, events), 1, ce, shE)
    requires cc.suite == su && ce.suite == su
    requires shC.auth == c.(state := A.SentHello) && Exchange(su, c, shE.auth, c2, e1, e2, k)
    requires shC.state.AuthPending? && shC.control.Some? && shC.authBound && shC.result.Pending?
    requires shE.state.AuthPending? && shE.control.Some? && shE.authBound && shE.result.Pending?
    ensures NoForgery(su, more) && |RunFleet(su, more).members| == 2
    ensures var f := RunFleet(su, more);
            && Stands(f, 0, cc, shC.(auth := c2, state := Authenticated, result := Success, writes := shC.writes + 1))
            && Stands(f, 1, ce, shE.(auth := e2, state := Authenticated, result := Success, writes := shE.writes + 1))
  {
    var hello, accept := A.HelloOf(c), A.AcceptOf(shE.auth, k.responderConfirm);
    var confirm := A.ConfirmOf(c, k.initiatorConfirm);
    more := Answered(su, events, 1, ce, shE, hello, env);
    TagIsOut(su, more, 1);
    more := Finished(su, more, 0, cc, shC, accept, env);
    TagIsOut(su, more, 0);
    more := Finished(su, more, 1, ce, shE.(auth := e1), confirm, env);
  }

  /** And then both can stream: the connect side opens, the expose side accepts. */
  lemma StreamsOpen(su: A.Suite, events: seq<FleetEvent>, cc: Config, ce: Config, shC: Shared, shE: Shared, env: Env)
    returns (more: seq<FleetEvent>)
    requires NoForgery(su, events) && |RunFleet(su, events).members| == 2 && env.ok
    requires Stands(RunFleet(su, events), 0, cc, shC) && Stands(RunFleet(su, events), 1, ce, shE)
    requires IsOpen(shC) && IsOpen(shE) && ce.mode.Expose?
    ensures NoForgery(su, more) && |RunFleet(su, more).members| == 2
    ensures var f := RunFleet(su, more);
            && Stands(f, 0, cc, shC.(state := Streaming, handed := shC.handed + 1))
            && Stands(f, 1, ce, shE.(state := Streaming, handed := shE.handed + 1))
  {
    var k := OpensStream(cc, shC, |RunFleet(su, events).members[0].sys.pcs|, env);
    more := Performed(su, events, 0, OpenStream, env, k);
    k := AcceptsStream(ce, shE, |RunFleet(su, more).members[1].sys.pcs|, env);
    more := Performed(su, more, 1, InboundChannel, env, k);
  }

  // ---------- the whole run ----------

  lemma JoinedOne(su: A.Suite, events: seq<FleetEvent>, cfg: Config, secret: seq<byte>) returns (more: seq<FleetEvent>)
    requires NoForgery(su, events) && A.New(secret, A.SchemeCpaceV2).Ok? && cfg.suite == su
    ensures NoForgery(su, more)
    ensures var f, f' := RunFleet(su, events), RunFleet(su, more);
            && |f'.members| == |f.members| + 1 && f'.members[..|f.members|] == f.members
            && Stands(f', |f.members|, cfg, Initial(A.New(secret, A.SchemeCpaceV2).value).sh)
  {
    var fe := FleetEvent.Join(cfg.mode, cfg.sessionId, secret, A.SchemeCpaceV2);
    FleetSnoc(su, events, fe);
    more := events + [fe];
  }

  lemma NoEvents(su: A.Suite) returns (events: seq<FleetEvent>)
    ensures NoForgery(su, events) && RunFleet(su, events).members == []
  {
    events := [];
  }

  lemma Joined(su: A.Suite, cc: Config, ce: Config, secretC: seq<byte>, secretE: seq<byte>)
    returns (events: seq<FleetEvent>)
    requires A.New(secretC, A.SchemeCpaceV2).Ok? && A.New(secretE, A.SchemeCpaceV2).Ok?
    requires cc.suite == su && ce.suite == su
    ensures NoForgery(su, events) && |RunFleet(su, events).members| == 2
    ensures Stands(RunFleet(su, events), 0, cc, Initial(A.New(secretC, A.SchemeCpaceV2).value).sh)
    ensures Stands(RunFleet(su, events), 1, ce, Initial(A.New(secretE, A.SchemeCpaceV2).value).sh)
  {
    events := NoEvents(su);
    events := JoinedOne(su, events, cc, secretC);
    var f := RunFleet(su, events);
    events := JoinedOne(su, events, ce, secretE);
    assert RunFleet(su, events).members[..1][0] == f.members[0];
  }

  /** Two sessions of opposite modes whose pairing secrets, session ids and
      fingerprints match, and whose Binds are accepted, have an unforged run after
      which both are authenticated with one session key, both stream, exactly one
      hello was sent, and each has handed over exactly one payload channel. */
  lemma MatchingSessionsStream(su: A.Suite, cc: Config, ce: Config, secretC: seq<byte>, secretE: seq<byte>,
                               lC: text, rC: text, lE: text, rE: text, dC: A.Draw, dE: A.Draw)
    returns (events: seq<FleetEvent>)
    requires su.PrimeOrder() && 0 < dC.scalar < su.order && 0 < dE.scalar < su.order
    requires cc.suite == su && ce.suite == su && cc.mode.Connect? && ce.mode.Expose?
    requires A.New(secretC, A.SchemeCpaceV2).Ok? && A.New(secretE, A.SchemeCpaceV2).Ok?
    requires WillBind(cc, A.New(secretC, A.SchemeCpaceV2).value, lC, rC, Env(true, dC))
    requires WillBind(ce, A.New(secretE, A.SchemeCpaceV2).value, lE, rE, Env(true, dE))
    requires TrimSpace(secretC) == TrimSpace(secretE) && TrimSpace(cc.sessionId) == TrimSpace(ce.sessionId)
    requires A.SameFingerprint(lC, rE) && A.SameFingerprint(rC, lE)
    ensures NoForgery(su, events) && |RunFleet(su, events).members| == 2
    ensures var c, e := RunFleet(su, events).members[0], RunFleet(su, events).members[1];
            && c.cfg == cc && e.cfg == ce
            && c.sys.sh.result.Success? && e.sys.sh.result.Success?
            && c.sys.sh.state.Streaming? && e.sys.sh.state.Streaming?
            && c.sys.sh.hellos == 1 && c.sys.sh.handed == 1 && e.sys.sh.handed == 1
            && A.SessionKey(c.sys.sh.auth).Ok? && A.SessionKey(c.sys.sh.auth) == A.SessionKey(e.sys.sh.auth)
  {
    var aC, aE := A.New(secretC, A.SchemeCpaceV2).value, A.New(secretE, A.SchemeCpaceV2).value;
    var eC, eE := Env(true, dC), Env(true, dE);
    var bC, bE := Bound(cc, aC, lC, rC, eC), Bound(ce, aE, lE, rE, eE);
    MatchingBinds(su, cc, ce, secretC, secretE, lC, rC, lE, rE, dC, dE);
    var c2, e1, e2, k := MatchingEndsExchange(su, bC.auth, bE.auth);
    events := Joined(su, cc, ce, secretC, secretE);
    events := ExposeReady(su, events, 1, ce, aE, lE, rE, eE);
    var shC;
    events, shC := ConnectReady(su, events, 0, cc, aC, lC, rC, eC);
    events := HandshakeCompletes(su, events, cc, ce, shC, bE, bC.auth, c2, e1, e2, k, eC);
    var shC' := shC.(auth := c2, state := Authenticated, result := Success, writes := shC.writes + 1);
    var shE' := bE.(auth := e2, state := Authenticated, result := Success, writes := bE.writes + 1);
    events := StreamsOpen(su, events, cc, ce, shC', shE', eC);
  }

  lemma MatchingBinds(su: A.Suite, cc: Config, ce: Config, secretC: seq<byte>, secretE: seq<byte>,
                      lC: text, rC: text, lE: text, rE: text, dC: A.Draw, dE: A.Draw)
    requires su.PrimeOrder() && 0 < dC.scalar < su.order && 0 < dE.scalar < su.order
    requires cc.suite == su && ce.suite == su && cc.mode.Connect? && ce.mode.Expose?
    requires A.New(secretC, A.SchemeCpaceV2).Ok? && A.New(secretE, A.SchemeCpaceV2).Ok?
    requires WillBind(cc, A.New(secretC, A.SchemeCpaceV2).value, lC, rC, Env(true, dC))
    requires WillBind(ce, A.New(secretE, A.SchemeCpaceV2).value, lE, rE, Env(true, dE))
    requires TrimSpace(secretC) == TrimSpace(secretE) && TrimSpace(cc.sessionId) == TrimSpace(ce.sessionId)
    requires A.SameFingerprint(lC, rE) && A.SameFingerprint(rC, lE)
    ensures var c := Bound(cc, A.New(secretC, A.SchemeCpaceV2).value, lC, rC, Env(true, dC)).auth;
            var e := Bound(ce, A.New(secretE, A.SchemeCpaceV2).value, lE, rE, Env(true, dE)).auth;
            N.Ready(su, c) && N.Ready(su, e) && c.initiator && !e.initiator && N.Matching(c, e)
    ensures lC != [] && rC != [] && lE != [] && rE != []
  {
    N.BoundEnd(su, secretC, A.Material(cc.sessionId, cc.mode, lC, rC), dC);
    N.BoundEnd(su, secretE, A.Material(ce.sessionId, ce.mode, lE, rE), dE);
    A.CanonicalSameExactly(lC, rE);
    A.CanonicalSameExactly(rC, lE);
  }
}
