/** One authenticator under arbitrary calls: what every call keeps, which frames
    are ever emitted, and what must have been received before it succeeds. */
module Handshake {
  import opened Basics
  import opened Bytes
  import opened PrimeGroup
  import opened KeySchedule
  import opened Authenticator

  datatype Call = BindCall(material: Material, draw: Draw) | StartCall | StepCall(frame: Message)

  datatype Applied = Applied(auth: Auth, out: Option<Message>)

  /** One call and the frame it emits, if any. */
  function Apply(su: Suite, a: Auth, c: Call): Applied
  {
    match c
    case BindCall(m, d) => Applied(Bind(su, a, m, d).auth, None)
    case StartCall =>
      var r := Start(a);
      Applied(r.auth, if r.hello.Ok? then Some(r.hello.value) else None)
    case StepCall(m) =>
      var r := Step(su, a, m);
      Applied(r.auth, r.result.outbound)
  }

  // ---------- what every call keeps ----------

  ghost predicate Coherent(su: Suite, a: Auth)
  {
    && !a.state.SentConfirm?
    && (!a.state.Init? ==> a.bound)
    && (a.state.Init? || a.state.SentHello? ==> a.keys.None?)
    && (a.state.SentHello? ==> a.initiator)
    && (a.state.SentAccept? ==> !a.initiator && a.keys.Some?)
    && (a.state.Succeeded? ==> a.keys.Some?)
    && (a.keys.Some? ==> ViewOf(su, a).Some? && a.keys.value == Derive(ViewOf(su, a).value))
  }

  lemma NewIsCoherent(su: Suite, secret: seq<byte>, scheme: text)
    ensures New(secret, scheme).Ok? ==> Coherent(su, New(secret, scheme).value)
  {
  }

  /** State does not enter the view. */
  lemma ViewIgnoresState(su: Suite, a: Auth, s: AuthState, k: Option<Keys>)
    ensures ViewOf(su, a.(state := s, keys := k)) == ViewOf(su, a)
  {
  }

  /** Absorbing a share either refuses it or leaves keys that match the view. */
  lemma AbsorbMatchesView(su: Suite, a: Auth, f: Field<seq<byte>>)
    requires a.keys.None?
    ensures var r := Absorb(su, a, f);
            && r.auth == a.(peerShare := r.auth.peerShare, keys := r.keys)
            && (r.keys.Some? ==> ViewOf(su, r.auth).Some? && r.keys.value == Derive(ViewOf(su, r.auth).value))
  {
    if ShareOf(f).Some? {
      var a1 := a.(peerShare := ShareOf(f));
      if ViewOf(su, a1).Some? {
        ViewIgnoresState(su, a1, a1.state, Some(Derive(ViewOf(su, a1).value)));
      }
    }
  }

  lemma StepInitiatorKeepsCoherent(su: Suite, a: Auth, m: Message)
    requires Coherent(su, a) && a.bound && a.initiator && !a.Terminal()
    ensures Coherent(su, StepInitiator(su, a, m).auth)
  {
    AbsorbMatchesView(su, a, m.share);
    var b, c := StepInitiator(su, a, m).auth, Absorb(su, a, m.share).auth;
    ViewIgnoresState(su, c, b.state, c.keys);
  }

  lemma StepResponderKeepsCoherent(su: Suite, a: Auth, m: Message)
    requires Coherent(su, a) && a.bound && !a.initiator && !a.Terminal()
    ensures Coherent(su, StepResponder(su, a, m).auth)
  {
    var b := StepResponder(su, a, m).auth;
    if a.state.Init? {
      AbsorbMatchesView(su, a, m.share);
      var c := Absorb(su, a, m.share).auth;
      ViewIgnoresState(su, c, b.state, c.keys);
    } else {
      ViewIgnoresState(su, a, b.state, a.keys);
    }
  }

  lemma StepKeepsCoherent(su: Suite, a: Auth, m: Message)
    requires Coherent(su, a)
    ensures Coherent(su, Step(su, a, m).auth)
  {
    ViewIgnoresState(su, a, Failed, a.keys);
    if a.bound && !a.Terminal() {
      if a.initiator {
        StepInitiatorKeepsCoherent(su, a, m);
      } else {
        StepResponderKeepsCoherent(su, a, m);
      }
    }
  }

  lemma ApplyKeepsCoherent(su: Suite, a: Auth, c: Call)
    requires Coherent(su, a)
    ensures Coherent(su, Apply(su, a, c).auth)
  {
    match c
    case BindCall(m, d) => BindKeepsCoherent(su, a, m, d);
    case StartCall =>
    case StepCall(m) => StepKeepsCoherent(su, a, m);
  }

  lemma BindKeepsCoherent(su: Suite, a: Auth, m: Material, d: Draw)
    requires Coherent(su, a)
    ensures Coherent(su, Bind(su, a, m, d).auth)
  {
    BindFrame(su, a, m, d);
  }

  /** What Bind leaves alone. */
  lemma BindFrame(su: Suite, a: Auth, m: Material, d: Draw)
    ensures var b := Bind(su, a, m, d).auth;
            && (!a.state.Init? ==> b == a)
            && b.state == a.state && b.keys == a.keys && (a.bound ==> b.bound)
            && (b.scalar == a.scalar || b.scalar == d.scalar)
  {
    if !a.state.Init? || !ValidMaterial(m) {
    } else {
      var c := a.(material := CanonicalMaterial(m), initiator := m.mode.Connect?);
      SetupFrame(su, c, d);
    }
  }

  lemma SetupFrame(su: Suite, a: Auth, d: Draw)
    ensures var b := Setup(su, a, d).auth;
            && b.state == a.state && b.keys == a.keys && b.bound == a.bound
            && (b.scalar == a.scalar || b.scalar == d.scalar)
  {
    if a.scheme == SchemeCpaceV2 {} else {}
  }

  function Rank(s: AuthState): nat
  {
    match s
    case Init => 0
    case SentHello => 1
    case SentAccept => 1
    case SentConfirm => 2
    case Succeeded => 3
    case Failed => 3
  }

  /** Each Step of a bound, unfinished authenticator makes progress; a finished
      one ignores every call. */
  lemma StepsRaiseRank(su: Suite, a: Auth, c: Call)
    requires Coherent(su, a)
    ensures a.bound && !a.Terminal() && c.StepCall? ==> Rank(Apply(su, a, c).auth.state) > Rank(a.state)
    ensures Rank(Apply(su, a, c).auth.state) >= Rank(a.state)
    ensures a.Terminal() ==> Apply(su, a, c) == Applied(a, None)
  {
    match c
    case BindCall(_, _) =>
    case StartCall =>
    case StepCall(m) => StepRaisesRank(su, a, m);
  }

  lemma StepRaisesRank(su: Suite, a: Auth, m: Message)
    requires Coherent(su, a)
    ensures a.bound && !a.Terminal() ==> Rank(Step(su, a, m).auth.state) > Rank(a.state)
    ensures !a.bound || a.Terminal() ==> Step(su, a, m) == Stepped(a, Step(su, a, m).result)
    ensures a.Terminal() ==> Step(su, a, m).result.outbound.None?
  {
    if !a.bound || a.Terminal() {} else if a.initiator {} else if a.state.Init? {} else {}
  }

  /** Past INIT the role, the material, the secrets and the share are fixed; once
      keys exist, so is the view. */
  lemma FrozenAfterInit(su: Suite, a: Auth, c: Call)
    requires Coherent(su, a) && !a.state.Init?
    ensures var b := Apply(su, a, c).auth;
            && b == a.(state := b.state, peerShare := b.peerShare, keys := b.keys)
            && (a.keys.Some? ==> b == a.(state := b.state) && ViewOf(su, b) == ViewOf(su, a))
  {
    match c
    case BindCall(_, _) =>
    case StartCall =>
    case StepCall(m) => StepFreezes(su, a, m);
  }

  lemma StepFreezes(su: Suite, a: Auth, m: Message)
    requires Coherent(su, a) && !a.state.Init?
    ensures var b := Step(su, a, m).auth;
            && b == a.(state := b.state, peerShare := b.peerShare, keys := b.keys)
            && (a.keys.Some? ==> b == a.(state := b.state) && ViewOf(su, b) == ViewOf(su, a))
  {
    var b := Step(su, a, m).auth;
    if a.keys.Some? {
      ViewIgnoresState(su, a, b.state, a.keys);
    } else if a.Terminal() || m.scheme != a.scheme {
    } else if a.initiator {
      AbsorbMatchesView(su, a, m.share);
    } else {}
  }

  // ---------- one authenticator, any calls ----------

  datatype Trace = Trace(auth: Auth, frames: seq<Message>)

  function Extend(t: Trace, r: Applied): Trace
  {
    Trace(r.auth, if r.out.Some? then t.frames + [r.out.value] else t.frames)
  }

  function RunCalls(su: Suite, start: Auth, calls: seq<Call>): Trace
  {
    if calls == [] then Trace(start, [])
    else
      var n := |calls| - 1;
      var t := RunCalls(su, start, calls[..n]);
      Extend(t, Apply(su, t.auth, calls[n]))
  }

  /** The tag this side must see before it succeeds. */
  function ExpectedTag(a: Auth): Term
    requires a.keys.Some?
  {
    if a.initiator then a.keys.value.responderConfirm else a.keys.value.initiatorConfirm
  }

  /** The tag this side sends. */
  function OwnTag(a: Auth): Term
    requires a.keys.Some?
  {
    if a.initiator then a.keys.value.initiatorConfirm else a.keys.value.responderConfirm
  }

  ghost predicate FramesFit(t: Trace)
  {
    && (t.auth.state.Init? ==> t.frames == [])
    && (t.auth.state.SentHello? || t.auth.state.SentAccept? || t.auth.state.Failed? ==> |t.frames| <= 1)
    && (t.auth.state.Succeeded? ==> |t.frames| <= if t.auth.initiator then 2 else 1)
    && (forall i :: 0 <= i < |t.frames| && !t.frames[i].kind.Confirm? ==>
          t.frames[i].share == Decoded(t.auth.LocalShare()))
  }

  lemma ApplyKeepsFrames(su: Suite, t: Trace, c: Call)
    requires Coherent(su, t.auth) && FramesFit(t)
    ensures FramesFit(Extend(t, Apply(su, t.auth, c)))
  {
    match c
    case BindCall(_, _) =>
    case StartCall =>
    case StepCall(m) => StepKeepsFrames(su, t, m);
  }

  lemma StepKeepsFrames(su: Suite, t: Trace, m: Message)
    requires Coherent(su, t.auth) && FramesFit(t)
    ensures FramesFit(Extend(t, Apply(su, t.auth, StepCall(m))))
  {
    StepFrame(su, t.auth, m);
    var r := Step(su, t.auth, m);
    if r.result.outbound.Some? {} else {}
  }

  /** A step that keeps the share, and emits a frame only as the answer that
      moves the state on. */
  ghost predicate FrameStep(a: Auth, r: Stepped)
  {
    && r.auth.initiator == a.initiator && r.auth.LocalShare() == a.LocalShare() && r.auth.scalar == a.scalar
    && match r.result.outbound
       case None =>
         r.auth.state == a.state || r.auth.state.Failed?
         || (!a.initiator && a.state.SentAccept? && r.auth.state.Succeeded?)
       case Some(f) =>
         if a.initiator then a.state.SentHello? && r.auth.state.Succeeded? && f.kind.Confirm?
         else a.state.Init? && r.auth.state.SentAccept? && f.share == Decoded(a.LocalShare())
  }

  lemma InitiatorFrame(su: Suite, a: Auth, m: Message)
    requires a.initiator
    ensures FrameStep(a, StepInitiator(su, a, m))
  {
    if !a.state.SentHello? || !m.kind.Accept? {} else if Absorb(su, a, m.share).keys.None? {} else {}
  }

  lemma ResponderFrame(su: Suite, a: Auth, m: Message)
    requires !a.initiator
    ensures FrameStep(a, StepResponder(su, a, m))
  {
    if a.state.Init? {} else if a.state.SentAccept? {} else {}
  }

  lemma StepFrame(su: Suite, a: Auth, m: Message)
    ensures FrameStep(a, Step(su, a, m))
  {
    if !a.bound || a.Terminal() || m.scheme != a.scheme {
    } else if a.initiator {
      InitiatorFrame(su, a, m);
    } else {
      ResponderFrame(su, a, m);
    }
  }

  /** However the object is driven, SENT_CONFIRM is never reached, an initiator
      sends at most two frames and a responder at most one, and every share ever
      sent is the present share. */
  lemma {:induction false} AnyCallsSafe(su: Suite, secret: seq<byte>, scheme: text, calls: seq<Call>)
    requires New(secret, scheme).Ok?
    ensures var t := RunCalls(su, New(secret, scheme).value, calls);
            Coherent(su, t.auth) && FramesFit(t) && |t.frames| <= if t.auth.initiator then 2 else 1
  {
    var start := New(secret, scheme).value;
    if calls == [] {
      NewIsCoherent(su, secret, scheme);
    } else {
      var n := |calls| - 1;
      AnyCallsSafe(su, secret, scheme, calls[..n]);
      var t := RunCalls(su, start, calls[..n]);
      ApplyKeepsCoherent(su, t.auth, calls[n]);
      ApplyKeepsFrames(su, t, calls[n]);
    }
  }

  /** The call that makes an authenticator succeed is a Step that carried the
      tag it expects. */
  lemma SucceedingCall(su: Suite, a: Auth, c: Call)
    requires Coherent(su, a) && !a.state.Succeeded?
    requires Apply(su, a, c).auth.state.Succeeded?
    ensures var b := Apply(su, a, c).auth;
            c.StepCall? && b.keys.Some? && c.frame.confirmation == Decoded(ExpectedTag(b))
  {
    match c
    case BindCall(_, _) =>
    case StartCall =>
    case StepCall(m) =>
      if !a.bound || a.Terminal() || m.scheme != a.scheme {
      } else if a.initiator {
        InitiatorSucceeds(su, a, m);
      } else {
        ResponderSucceeds(su, a, m);
      }
  }

  lemma InitiatorSucceeds(su: Suite, a: Auth, m: Message)
    requires a.initiator && !a.Terminal() && StepInitiator(su, a, m).auth.state.Succeeded?
    ensures var b := StepInitiator(su, a, m).auth;
            b.keys.Some? && m.confirmation == Decoded(ExpectedTag(b))
  {
    if !a.state.SentHello? || !m.kind.Accept? {} else if Absorb(su, a, m.share).keys.None? {} else {}
  }

  lemma ResponderSucceeds(su: Suite, a: Auth, m: Message)
    requires !a.initiator && !a.Terminal() && StepResponder(su, a, m).auth.state.Succeeded?
    ensures var b := StepResponder(su, a, m).auth;
            b.keys.Some? && m.confirmation == Decoded(ExpectedTag(b))
  {
    if a.state.Init? {} else {}
  }

  // ---------- which frames are accepted, exactly ----------

  /** The peer share in the frame can be used: 32 bytes, not all zero, and a shared
      secret comes out. */
  predicate UsableShare(su: Suite, a: Auth, m: Message)
  {
    && m.share.Decoded? && |m.share.value| == 32 && (exists i :: 0 <= i < 32 && m.share.value[i] != 0)
    && DeriveShared(su, a, m.share.value).Some?
  }

  lemma UsableShareIsAbsorbed(su: Suite, a: Auth, m: Message)
    ensures UsableShare(su, a, m) <==> Absorb(su, a, m.share).keys.Some?
    ensures UsableShare(su, a, m) ==>
              && ViewOf(su, a.(peerShare := Some(m.share.value))).Some?
              && Absorb(su, a, m.share).keys.value == Derive(ViewOf(su, a.(peerShare := Some(m.share.value))).value)
  {
    if m.share.Decoded? && |m.share.value| == 32 {
      var s := m.share.value;
      assert s == ZeroPoint <==> forall i :: 0 <= i < 32 ==> s[i] == 0;
    }
  }

  /** For CPACE a share can be used exactly if it encodes an element other than the
      identity, below the order. */
  lemma UsableCpaceShare(su: Suite, a: Auth, m: Message)
    requires su.PrimeOrder() && a.scheme == SchemeCpaceV2 && 0 < a.scalar < su.order
    ensures UsableShare(su, a, m) <==>
              m.share.Decoded? && |m.share.value| == 32 && 0 < BigEndianValue(m.share.value) < su.order
  {
    if m.share.Decoded? && |m.share.value| == 32 {
      var e := BigEndianValue(m.share.value);
      ZeroValue(m.share.value);
      assert m.share.value == Zeros(32) <==> forall i :: 0 <= i < 32 ==> m.share.value[i] == 0;
      if 0 < e < su.order {
        MulNonIdentity(su.order, e, a.scalar);
      }
    }
  }

  /** A bound responder in INIT accepts exactly a hello of its scheme with the two
      role names and a usable share; anything else fails it without an answer. */
  lemma HelloAcceptedExactly(su: Suite, a: Auth, m: Message)
    requires a.bound && !a.initiator && a.state.Init?
    ensures var r := Step(su, a, m);
            && (r.result.err.None? <==>
                  && m.scheme == a.scheme && m.kind.Hello?
                  && m.initiatorRole == Ascii("connect") && m.responderRole == Ascii("expose") && UsableShare(su, a, m))
            && !r.result.done
            && (if r.result.err.None? then r.auth.state.SentAccept? && r.result.outbound.Some?
                else r.auth.state.Failed? && r.result.outbound.None?)
  {
    UsableShareIsAbsorbed(su, a, m);
  }

  /** An initiator that sent its hello succeeds exactly on an accept of its scheme
      with a usable share and the responder's tag for the view that share gives. */
  lemma AcceptAcceptedExactly(su: Suite, a: Auth, m: Message)
    requires a.bound && a.initiator && a.state.SentHello?
    ensures var r := Step(su, a, m);
            && (r.result.done <==>
                  && m.scheme == a.scheme && m.kind.Accept? && UsableShare(su, a, m)
                  && m.confirmation
                     == Decoded(Tag(ViewOf(su, a.(peerShare := Some(m.share.value))).value, Responder)))
            && (if r.result.done then r.auth.state.Succeeded? && r.result.err.None? && r.result.outbound.Some?
                else r.auth.state.Failed? && r.result.err.Some? && r.result.outbound.None?)
  {
    UsableShareIsAbsorbed(su, a, m);
  }

  /** A responder that sent its accept succeeds exactly on a confirm of its scheme
      with the initiator's tag. */
  lemma ConfirmAcceptedExactly(su: Suite, a: Auth, m: Message)
    requires Coherent(su, a) && a.state.SentAccept?
    ensures var r := Step(su, a, m);
            && (r.result.done <==>
                  && m.scheme == a.scheme && m.kind.Confirm?
                  && m.confirmation == Decoded(Tag(ViewOf(su, a).value, Initiator)))
            && (if r.result.done then r.auth.state.Succeeded? && r.result.err.None?
                else r.auth.state.Failed? && r.result.err.Some?)
            && r.result.outbound.None?
  {
  }

  lemma TagsOfView(su: Suite, a: Auth)
    requires Coherent(su, a) && a.keys.Some?
    ensures ExpectedTag(a) == Tag(ViewOf(su, a).value, if a.initiator then Responder else Initiator)
    ensures OwnTag(a) == Tag(ViewOf(su, a).value, if a.initiator then Initiator else Responder)
  {
  }

  /** SessionKey answers only after some Step carried exactly the peer's tag for
      the view the key belongs to. */
  lemma {:induction false} KeyOnlyAfterTag(su: Suite, secret: seq<byte>, scheme: text, calls: seq<Call>)
    returns (k: nat)
    requires New(secret, scheme).Ok?
    requires SessionKey(RunCalls(su, New(secret, scheme).value, calls).auth).Ok?
    ensures var a := RunCalls(su, New(secret, scheme).value, calls).auth;
            && k < |calls| && calls[k].StepCall?
            && a.keys.Some? && calls[k].frame.confirmation == Decoded(ExpectedTag(a))
            && ViewOf(su, a).Some?
            && ExpectedTag(a) == Tag(ViewOf(su, a).value, if a.initiator then Responder else Initiator)
            && SessionKey(a) == Ok(Derive(ViewOf(su, a).value).sessionKey)
  {
    var start := New(secret, scheme).value;
    AnyCallsSafe(su, secret, scheme, calls);
    TagsOfView(su, RunCalls(su, start, calls).auth);
    k := SucceededAt(su, secret, scheme, calls);
  }

  lemma {:induction false} SucceededAt(su: Suite, secret: seq<byte>, scheme: text, calls: seq<Call>) returns (k: nat)
    requires New(secret, scheme).Ok?
    requires RunCalls(su, New(secret, scheme).value, calls).auth.state.Succeeded?
    ensures var a := RunCalls(su, New(secret, scheme).value, calls).auth;
            && k < |calls| && calls[k].StepCall?
            && a.keys.Some? && calls[k].frame.confirmation == Decoded(ExpectedTag(a))
  {
    var n := |calls| - 1;
    AnyCallsSafe(su, secret, scheme, calls[..n]);
    var a := RunCalls(su, New(secret, scheme).value, calls[..n]).auth;
    if a.state.Succeeded? {
      StepsRaiseRank(su, a, calls[n]);
      k := SucceededAt(su, secret, scheme, calls[..n]);
    } else {
      SucceedingCall(su, a, calls[n]);
      k := n;
    }
  }
}
