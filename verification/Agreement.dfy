/** The two ends of the handshake together: the faithful exchange succeeds
    exactly when the ends agree, and on a hostile network success implies a
    partner with the same view and key. */
module Agreement {
  import opened Basics
  import opened Bytes
  import opened PrimeGroup
  import opened KeySchedule
  import opened Authenticator
  import opened Handshake

  // ---------- the faithful exchange ----------

  datatype Ends = Ends(initiator: Auth, responder: Auth)

  /** Hello, accept and confirm carried unchanged between the two ends. */
  function Faithful(su: Suite, i: Auth, r: Auth): Ends
  {
    var hello := Start(i);
    if hello.hello.Err? then Ends(hello.auth, r)
    else
      var accept := Step(su, r, hello.hello.value);
      if accept.result.outbound.None? then Ends(hello.auth, accept.auth)
      else
        var confirm := Step(su, hello.auth, accept.result.outbound.value);
        if confirm.result.outbound.None? then Ends(confirm.auth, accept.auth)
        else Ends(confirm.auth, Step(su, accept.auth, confirm.result.outbound.value).auth)
  }

  /** What the two ends must have in common. */
  ghost predicate Matching(i: Auth, r: Auth)
  {
    && i.secret == r.secret
    && i.material.sessionId == r.material.sessionId
    && i.InitiatorFingerprint() == r.InitiatorFingerprint()
    && i.ResponderFingerprint() == r.ResponderFingerprint()
  }

  /** A CPACE authenticator freshly bound with a nonzero scalar. */
  ghost predicate Ready(su: Suite, a: Auth)
  {
    && a.scheme == SchemeCpaceV2 && a.state.Init? && a.bound && a.keys.None?
    && Generator(su, a) != 0 && 0 < a.scalar < su.order
    && a.cpaceShare == Marshal(Mul(su.order, Generator(su, a), a.scalar))
  }

  /** With a nonzero scalar, CPACE Bind is refused only for invalid material or an
      identity generator: the local-share check never fires. */
  lemma BindSucceedsExactly(su: Suite, a: Auth, m: Material, d: Draw)
    requires su.PrimeOrder() && a.scheme == SchemeCpaceV2 && a.state.Init? && a.keys.None?
    requires 0 < d.scalar < su.order
    ensures var b := a.(material := CanonicalMaterial(m), initiator := m.mode.Connect?);
            Bind(su, a, m, d).err.None? <==>
              && !Blank(m.sessionId) && !Blank(m.localFingerprint) && !Blank(m.remoteFingerprint)
              && (m.mode.Connect? || m.mode.Expose?) && Generator(su, b) != 0
    ensures Bind(su, a, m, d).err != Some(LocalShareIdentity)
    ensures Bind(su, a, m, d).err.None? ==> Ready(su, Bind(su, a, m, d).auth)
  {
    var b := a.(material := CanonicalMaterial(m), initiator := m.mode.Connect?);
    var g := Generator(su, b);
    ValidMaterialExactly(m);
    if g != 0 {
      MulNonIdentity(su.order, g, d.scalar);
    }
  }

  /** Nothing about a share sent by a ready end can be refused. */
  lemma ShareAccepted(su: Suite, sender: Auth, receiver: Auth)
    requires su.PrimeOrder() && Ready(su, sender) && Ready(su, receiver)
    ensures ShareOf(Decoded(sender.LocalShare())) == Some(sender.cpaceShare)
    ensures DeriveShared(su, receiver, sender.cpaceShare)
         == Some(Marshal(Mul(su.order, Mul(su.order, Generator(su, sender), sender.scalar), receiver.scalar)))
  {
    var q := su.order;
    var e := Mul(q, Generator(su, sender), sender.scalar);
    MulNonIdentity(q, Generator(su, sender), sender.scalar);
    UnmarshalMarshal(q, e);
    ZeroPointIsIdentity(q, e);
    MulNonIdentity(q, e, receiver.scalar);
  }

  lemma SharedAgree(su: Suite, i: Auth, r: Auth)
    requires su.PrimeOrder() && Ready(su, i) && Ready(su, r) && Matching(i, r)
    ensures DeriveShared(su, r, i.cpaceShare) == DeriveShared(su, i, r.cpaceShare)
    ensures DeriveShared(su, i, r.cpaceShare).Some?
  {
    ShareAccepted(su, i, r);
    ShareAccepted(su, r, i);
    assert GeneratorFields(i) == GeneratorFields(r);
    ScalarsCommute(su.order, Generator(su, i), i.scalar, r.scalar);
  }

  /** The view an end reaches from the other end's genuine share. */
  function ViewFrom(su: Suite, a: Auth, peer: Point): Option<View>
  {
    ViewOf(su, a.(peerShare := Some(peer)))
  }

  /** Two fresh ends of opposite roles, each able to use the other's share. */
  ghost predicate Opposed(su: Suite, i: Auth, r: Auth)
  {
    && i.bound && i.state.Init? && i.keys.None? && i.initiator
    && r.bound && r.state.Init? && r.keys.None? && !r.initiator
    && i.scheme == r.scheme
    && i.LocalShare() != ZeroPoint && r.LocalShare() != ZeroPoint
    && ViewFrom(su, i, r.LocalShare()).Some? && ViewFrom(su, r, i.LocalShare()).Some?
  }

  /** The frames of the faithful exchange, step by step. */
  lemma ResponderAccepts(su: Suite, i: Auth, r: Auth)
    requires Opposed(su, i, r)
    ensures var k := Derive(ViewFrom(su, r, i.LocalShare()).value);
            var r1 := r.(state := SentAccept, peerShare := Some(i.LocalShare()), keys := Some(k));
            Step(su, r, HelloOf(i)) == Stepped(r1, StepResult(Some(AcceptOf(r, k.responderConfirm)), false, None))
  {
    assert ShareOf(Decoded(i.LocalShare())) == Some(i.LocalShare());
  }

  lemma InitiatorChecks(su: Suite, i: Auth, r: Auth, tag: Term)
    requires Opposed(su, i, r) && tag.Len() == 32
    ensures var k := Derive(ViewFrom(su, i, r.LocalShare()).value);
            var s := Step(su, i.(state := SentHello), AcceptOf(r, tag));
            if tag == k.responderConfirm then
              s == Stepped(i.(state := Succeeded, peerShare := Some(r.LocalShare()), keys := Some(k)),
                           StepResult(Some(ConfirmOf(i, k.initiatorConfirm)), true, None))
            else s.auth.state.Failed? && s.result.outbound.None?
  {
    assert ShareOf(Decoded(r.LocalShare())) == Some(r.LocalShare());
    var i1 := i.(state := SentHello, peerShare := Some(r.LocalShare()));
    ViewIgnoresState(su, i1, Init, i1.keys);
  }

  lemma ResponderConfirms(su: Suite, r: Auth, i: Auth, k: Keys)
    requires r.bound && !r.initiator && r.state.SentAccept? && r.keys == Some(k)
    requires i.scheme == r.scheme && k.initiatorConfirm.Len() == 32
    ensures Step(su, r, ConfirmOf(i, k.initiatorConfirm))
         == Stepped(r.(state := Succeeded), StepResult(None, true, None))
  {
  }

  lemma FaithfulOutcome(su: Suite, i: Auth, r: Auth, ki: Keys, kr: Keys)
    requires Opposed(su, i, r)
    requires ki == Derive(ViewFrom(su, i, r.LocalShare()).value) && kr == Derive(ViewFrom(su, r, i.LocalShare()).value)
    ensures var r1 := r.(state := SentAccept, peerShare := Some(i.LocalShare()), keys := Some(kr));
            var Ends(fi, fr) := Faithful(su, i, r);
            if kr.responderConfirm == ki.responderConfirm then
              && fi == i.(state := Succeeded, peerShare := Some(r.LocalShare()), keys := Some(ki))
              && fr == Step(su, r1, ConfirmOf(i, ki.initiatorConfirm)).auth
            else fi.state.Failed? && fr == r1
  {
    ResponderAccepts(su, i, r);
    InitiatorChecks(su, i, r, kr.responderConfirm);
  }

  /** The exchange succeeds on both sides exactly if the two ends reach one view;
      then both hold the same 32-byte key. */
  lemma ExchangeByViews(su: Suite, i: Auth, r: Auth)
    requires Opposed(su, i, r)
    ensures var Ends(fi, fr) := Faithful(su, i, r);
            var same := ViewFrom(su, i, r.LocalShare()) == ViewFrom(su, r, i.LocalShare());
            && (fi.state.Succeeded? <==> same)
            && (fr.state.Succeeded? <==> same)
            && (same ==>
                  && SessionKey(fi).Ok? && SessionKey(fi) == SessionKey(fr)
                  && SessionKey(fi).value.Len() == 32)
  {
    var vi, vr := ViewFrom(su, i, r.LocalShare()).value, ViewFrom(su, r, i.LocalShare()).value;
    FaithfulOutcome(su, i, r, Derive(vi), Derive(vr));
    if vi == vr {
      var k := Derive(vr);
      ResponderConfirms(su, r.(state := SentAccept, peerShare := Some(i.LocalShare()), keys := Some(k)), i, k);
    } else if Tag(vi, Responder) == Tag(vr, Responder) {
      TagsBindViews(vi, vr, Responder, Responder);
      assert false;
    }
  }

  lemma ViewsAgreeExactly(su: Suite, i: Auth, r: Auth)
    requires su.PrimeOrder() && Ready(su, i) && Ready(su, r) && i.initiator && !r.initiator
    ensures Opposed(su, i, r)
    ensures ViewFrom(su, i, r.LocalShare()) == ViewFrom(su, r, i.LocalShare()) <==> Matching(i, r)
  {
    ShareAccepted(su, i, r);
    ShareAccepted(su, r, i);
    if Matching(i, r) {
      SharedAgree(su, i, r);
    }
  }

  /** For every pair of bound CPACE ends with nonzero scalars, the faithful
      exchange succeeds on both sides if and only if the trimmed secrets and
      session ids agree and the canonical fingerprints mirror each other; then
      both hold the same 32-byte key. */
  lemma FaithfulExchange(su: Suite, i: Auth, r: Auth)
    requires su.PrimeOrder() && Ready(su, i) && Ready(su, r) && i.initiator && !r.initiator
    ensures var Ends(fi, fr) := Faithful(su, i, r);
            && (fi.state.Succeeded? <==> Matching(i, r))
            && (fr.state.Succeeded? <==> Matching(i, r))
            && (Matching(i, r) ==>
                  && SessionKey(fi).Ok? && SessionKey(fi) == SessionKey(fr)
                  && SessionKey(fi).value.Len() == 32)
  {
    ViewsAgreeExactly(su, i, r);
    ExchangeByViews(su, i, r);
  }

  /** A transitional authenticator freshly bound with a key whose public share is
      not the zero point. */
  ghost predicate EcdhReady(su: Suite, a: Auth)
  {
    && a.scheme == SchemeTransitionalV2 && a.state.Init? && a.bound && a.keys.None?
    && a.pub == su.x25519(a.priv, BasePoint) && a.pub != ZeroPoint
  }

  /** The one law of X25519 the exchange relies on, for the two keys drawn. */
  ghost predicate KeysAgree(su: Suite, i: Auth, r: Auth)
  {
    su.x25519(i.priv, r.pub) == su.x25519(r.priv, i.pub) != ZeroPoint
  }

  lemma SchemesDiffer()
    ensures SchemeCpaceV2 != SchemeTransitionalV2
  {
    assert |SchemeCpaceV2| != |SchemeTransitionalV2|;
  }

  /** The same for the transitional scheme: where the two keys agree on a shared
      point, success is once more exactly that the ends match. */
  lemma EcdhExchange(su: Suite, i: Auth, r: Auth)
    requires EcdhReady(su, i) && EcdhReady(su, r) && KeysAgree(su, i, r) && i.initiator && !r.initiator
    ensures var Ends(fi, fr) := Faithful(su, i, r);
            && (fi.state.Succeeded? <==> Matching(i, r))
            && (fr.state.Succeeded? <==> Matching(i, r))
            && (Matching(i, r) ==>
                  && SessionKey(fi).Ok? && SessionKey(fi) == SessionKey(fr)
                  && SessionKey(fi).value.Len() == 32)
  {
    SchemesDiffer();
    assert Opposed(su, i, r);
    ExchangeByViews(su, i, r);
  }

  /** A transitional Bind is refused only for invalid material. */
  lemma EcdhBindSucceedsExactly(su: Suite, a: Auth, m: Material, d: Draw)
    requires a.scheme == SchemeTransitionalV2 && a.state.Init? && a.keys.None?
    ensures Bind(su, a, m, d).err.None? <==>
              && !Blank(m.sessionId) && !Blank(m.localFingerprint) && !Blank(m.remoteFingerprint)
              && (m.mode.Connect? || m.mode.Expose?)
    ensures var b := Bind(su, a, m, d);
            b.err.None? && su.x25519(d.priv, BasePoint) != ZeroPoint ==> EcdhReady(su, b.auth)
  {
    SchemesDiffer();
    ValidMaterialExactly(m);
  }

  /** The same, from the constructor and Bind arguments. */
  lemma PairingExchange(
    su: Suite, secretI: seq<byte>, secretR: seq<byte>, mi: Material, mr: Material, di: Draw, dr: Draw)
    requires su.PrimeOrder() && 0 < di.scalar < su.order && 0 < dr.scalar < su.order
    requires New(secretI, SchemeCpaceV2).Ok? && New(secretR, SchemeCpaceV2).Ok?
    requires mi.mode.Connect? && mr.mode.Expose?
    requires Bind(su, New(secretI, SchemeCpaceV2).value, mi, di).err.None?
    requires Bind(su, New(secretR, SchemeCpaceV2).value, mr, dr).err.None?
    ensures var i := Bind(su, New(secretI, SchemeCpaceV2).value, mi, di).auth;
            var r := Bind(su, New(secretR, SchemeCpaceV2).value, mr, dr).auth;
            var Ends(fi, fr) := Faithful(su, i, r);
            && (fi.state.Succeeded? <==>
                  && TrimSpace(secretI) == TrimSpace(secretR)
                  && TrimSpace(mi.sessionId) == TrimSpace(mr.sessionId)
                  && SameFingerprint(mi.localFingerprint, mr.remoteFingerprint)
                  && SameFingerprint(mi.remoteFingerprint, mr.localFingerprint))
            && (fr.state.Succeeded? <==> fi.state.Succeeded?)
            && (fi.state.Succeeded? ==>
                  && SessionKey(fi).Ok? && SessionKey(fi) == SessionKey(fr)
                  && SessionKey(fi).value.Len() == 32)
  {
    BoundEnd(su, secretI, mi, di);
    BoundEnd(su, secretR, mr, dr);
    CanonicalSameExactly(mi.localFingerprint, mr.remoteFingerprint);
    CanonicalSameExactly(mi.remoteFingerprint, mr.localFingerprint);
    var i0, r0 := New(secretI, SchemeCpaceV2).value, New(secretR, SchemeCpaceV2).value;
    FaithfulExchange(su, Bind(su, i0, mi, di).auth, Bind(su, r0, mr, dr).auth);
  }

  /** What a bound end is made of. */
  lemma BoundEnd(su: Suite, secret: seq<byte>, m: Material, d: Draw)
    requires su.PrimeOrder() && 0 < d.scalar < su.order && New(secret, SchemeCpaceV2).Ok?
    requires Bind(su, New(secret, SchemeCpaceV2).value, m, d).err.None?
    ensures var a := Bind(su, New(secret, SchemeCpaceV2).value, m, d).auth;
            && Ready(su, a) && a.initiator == m.mode.Connect? && a.secret == TrimSpace(secret)
            && a.material.sessionId == TrimSpace(m.sessionId)
            && a.InitiatorFingerprint()
               == Canonical(if m.mode.Connect? then m.localFingerprint else m.remoteFingerprint)
            && a.ResponderFingerprint()
               == Canonical(if m.mode.Connect? then m.remoteFingerprint else m.localFingerprint)
  {
    BindSucceedsExactly(su, New(secret, SchemeCpaceV2).value, m, d);
  }

  // ---------- the hostile network ----------

  /** All authenticators ever created and every confirmation tag ever emitted. */
  datatype System = System(auths: seq<Auth>, tags: set<Term>)

  datatype Event = Create(secret: seq<byte>, scheme: text) | Act(who: nat, call: Call)

  function TagsIn(out: Option<Message>): set<Term>
  {
    if out.Some? && out.value.confirmation.Decoded? && IsConfirmation(out.value.confirmation.value)
    then {out.value.confirmation.value} else {}
  }

  function Next(su: Suite, s: System, e: Event): System
  {
    match e
    case Create(secret, scheme) =>
      var a := New(secret, scheme);
      if a.Ok? then s.(auths := s.auths + [a.value]) else s
    case Act(i, c) =>
      if i < |s.auths| then
        var r := Apply(su, s.auths[i], c);
        System(s.auths[i := r.auth], s.tags + TagsIn(r.out))
      else s
  }

  /** Ideal MAC. Shares, roles, kinds and junk confirmations are the network's to
      choose; a genuine confirmation tag must have been emitted by someone. */
  predicate Unforged(s: System, e: Event)
  {
    (e.Act? && e.call.StepCall? && e.call.frame.confirmation.Decoded?
     && IsConfirmation(e.call.frame.confirmation.value))
    ==> e.call.frame.confirmation.value in s.tags
  }

  function RunSystem(su: Suite, events: seq<Event>): System
  {
    if events == [] then System([], {})
    else Next(su, RunSystem(su, events[..|events| - 1]), events[|events| - 1])
  }

  ghost predicate NoForgery(su: Suite, events: seq<Event>)
  {
    forall k :: 0 <= k < |events| ==> Unforged(RunSystem(su, events[..k]), events[k])
  }

  /** `a` is past the point where it sent its own tag. */
  predicate HasSentTag(a: Auth)
  {
    && a.keys.Some?
    && (if a.initiator then a.state.Succeeded? else a.state.SentAccept? || a.Terminal())
  }

  ghost predicate Owned(auths: seq<Auth>, t: Term)
  {
    exists i :: 0 <= i < |auths| && HasSentTag(auths[i]) && OwnTag(auths[i]) == t
  }

  lemma OwnedStays(auths: seq<Auth>, a: Auth, t: Term)
    requires Owned(auths, t)
    ensures Owned(auths + [a], t)
  {
    var i :| 0 <= i < |auths| && HasSentTag(auths[i]) && OwnTag(auths[i]) == t;
    assert (auths + [a])[i] == auths[i];
  }

  lemma OwnedUpdated(auths: seq<Auth>, i: nat, b: Auth, t: Term)
    requires Owned(auths, t) && i < |auths|
    requires HasSentTag(auths[i]) ==> HasSentTag(b) && OwnTag(b) == OwnTag(auths[i])
    ensures Owned(auths[i := b], t)
  {
    var j :| 0 <= j < |auths| && HasSentTag(auths[j]) && OwnTag(auths[j]) == t;
    assert auths[i := b][j] == if j == i then b else auths[j];
  }

  ghost predicate SystemInv(su: Suite, s: System)
  {
    && (forall i :: 0 <= i < |s.auths| ==> Coherent(su, s.auths[i]))
    && (forall t :: t in s.tags ==> Owned(s.auths, t))
    && (forall i :: 0 <= i < |s.auths| && s.auths[i].state.Succeeded? ==> ExpectedTag(s.auths[i]) in s.tags)
  }

  /** One call, seen from outside: tags come from authenticators past their
      sending point, and stay owned by them. */
  lemma CallTags(su: Suite, a: Auth, c: Call)
    requires Coherent(su, a)
    ensures var Applied(b, out) := Apply(su, a, c);
            TagsOwned(a, b, out)
  {
    match c
    case BindCall(_, _) =>
    case StartCall =>
    case StepCall(m) =>
      if !a.bound || a.Terminal() || m.scheme != a.scheme {
      } else if a.initiator {
        InitiatorTags(su, a, m);
      } else {
        ResponderTags(su, a, m);
      }
  }

  ghost predicate TagsOwned(a: Auth, b: Auth, out: Option<Message>)
  {
    && (forall t :: t in TagsIn(out) ==> HasSentTag(b) && OwnTag(b) == t)
    && (HasSentTag(a) ==> HasSentTag(b) && OwnTag(b) == OwnTag(a))
  }

  lemma InitiatorTags(su: Suite, a: Auth, m: Message)
    requires a.initiator && !a.Terminal()
    ensures TagsOwned(a, StepInitiator(su, a, m).auth, StepInitiator(su, a, m).result.outbound)
  {
    if !a.state.SentHello? || !m.kind.Accept? {} else if Absorb(su, a, m.share).keys.None? {} else {}
  }

  lemma ResponderTags(su: Suite, a: Auth, m: Message)
    requires !a.initiator && !a.Terminal()
    ensures TagsOwned(a, StepResponder(su, a, m).auth, StepResponder(su, a, m).result.outbound)
  {
    if a.state.Init? {} else if a.state.SentAccept? {} else {}
  }

  /** Conversely, passing the sending point emits the tag. */
  ghost predicate EmitsOwn(a: Auth, b: Auth, out: Option<Message>)
  {
    HasSentTag(b) && IsConfirmation(OwnTag(b)) ==>
      OwnTag(b) in TagsIn(out) || (HasSentTag(a) && OwnTag(b) == OwnTag(a))
  }

  lemma InitiatorEmits(su: Suite, a: Auth, m: Message)
    requires a.initiator && !a.Terminal()
    ensures EmitsOwn(a, StepInitiator(su, a, m).auth, StepInitiator(su, a, m).result.outbound)
  {
    if !a.state.SentHello? || !m.kind.Accept? {} else if Absorb(su, a, m.share).keys.None? {} else {}
  }

  lemma ResponderEmits(su: Suite, a: Auth, m: Message)
    requires !a.initiator && !a.Terminal() && (a.state.Init? ==> a.keys.None?) && !a.state.SentHello?
    requires !a.state.SentConfirm?
    ensures EmitsOwn(a, StepResponder(su, a, m).auth, StepResponder(su, a, m).result.outbound)
  {
    if a.state.Init? {} else {}
  }

  lemma CallEmits(su: Suite, a: Auth, c: Call)
    requires Coherent(su, a)
    ensures EmitsOwn(a, Apply(su, a, c).auth, Apply(su, a, c).out)
  {
    match c
    case BindCall(m, d) => BindFrame(su, a, m, d);
    case StartCall =>
    case StepCall(m) =>
      if !a.bound || a.Terminal() {
      } else if m.scheme != a.scheme {
      } else if a.initiator {
        InitiatorEmits(su, a, m);
      } else {
        ResponderEmits(su, a, m);
      }
  }

  /** In every run the tag of an authenticator past its sending point is in circulation. */
  lemma {:induction false} EveryTagEmitted(su: Suite, events: seq<Event>, i: nat)
    requires var s := RunSystem(su, events); i < |s.auths| && HasSentTag(s.auths[i])
    ensures var s := RunSystem(su, events); OwnTag(s.auths[i]) in s.tags
  {
    var n := |events| - 1;
    var h, e, s' := events[..n], events[n], RunSystem(su, events);
    var s := RunSystem(su, h);
    EveryAuthCoherent(su, events, i);
    ExpectedIsConfirmation(su, s'.auths[i]);
    if e.Act? && e.who == i {
      EveryAuthCoherent(su, h, i);
      CallEmits(su, s.auths[i], e.call);
      if HasSentTag(s.auths[i]) {
        EveryTagEmitted(su, h, i);
      }
    } else if i < |s.auths| {
      EveryTagEmitted(su, h, i);
    }
  }

  lemma SucceededStays(su: Suite, a: Auth, c: Call)
    requires Coherent(su, a) && a.state.Succeeded?
    ensures Apply(su, a, c).auth == a
  {
  }

  lemma ExpectedIsConfirmation(su: Suite, a: Auth)
    requires Coherent(su, a) && a.keys.Some?
    ensures IsConfirmation(ExpectedTag(a)) && IsConfirmation(OwnTag(a))
  {
    TagsOfView(su, a);
    KeysSeparated(ViewOf(su, a).value);
  }

  lemma NextKeepsInv(su: Suite, s: System, e: Event)
    requires SystemInv(su, s) && Unforged(s, e)
    ensures SystemInv(su, Next(su, s, e))
  {
    if e.Act? && e.who < |s.auths| {
      ActKeepsInv(su, s, e.who, e.call);
    } else if e.Create? && New(e.secret, e.scheme).Ok? {
      NewIsCoherent(su, e.secret, e.scheme);
      JoinKeepsInv(su, s, New(e.secret, e.scheme).value);
    } else {}
  }

  lemma JoinKeepsInv(su: Suite, s: System, a: Auth)
    requires SystemInv(su, s) && Coherent(su, a) && a.state.Init?
    ensures SystemInv(su, s.(auths := s.auths + [a]))
  {
    forall t | t in s.tags
      ensures Owned(s.auths + [a], t)
    {
      OwnedStays(s.auths, a, t);
    }
  }

  lemma ActKeepsInv(su: Suite, s: System, i: nat, c: Call)
    requires SystemInv(su, s) && Unforged(s, Act(i, c)) && i < |s.auths|
    ensures SystemInv(su, Next(su, s, Act(i, c)))
  {
    var a := s.auths[i];
    var Applied(b, out) := Apply(su, a, c);
    var s' := System(s.auths[i := b], s.tags + TagsIn(out));
    ApplyKeepsCoherent(su, a, c);
    CallTags(su, a, c);
    forall t | t in s'.tags
      ensures Owned(s'.auths, t)
    {
      if t in TagsIn(out) {
        assert s'.auths[i] == b;
      } else {
        OwnedUpdated(s.auths, i, b, t);
      }
    }
    if b.state.Succeeded? {
      if a.state.Succeeded? {
        SucceededStays(su, a, c);
      } else {
        SucceedingCall(su, a, c);
        ExpectedIsConfirmation(su, b);
      }
    }
    assert SystemInv(su, s');
  }

  lemma {:induction false} RunKeepsInv(su: Suite, events: seq<Event>)
    requires NoForgery(su, events)
    ensures SystemInv(su, RunSystem(su, events))
  {
    if events != [] {
      var n := |events| - 1;
      assert forall k :: 0 <= k < n ==> events[..n][..k] == events[..k];
      RunKeepsInv(su, events[..n]);
      NextKeepsInv(su, RunSystem(su, events[..n]), events[n]);
    }
  }

  /** `b` is a partner of `a`: the opposite role, past sending its tag, with the
      same view and the same keys. */
  ghost predicate Partners(su: Suite, a: Auth, b: Auth)
  {
    && b.initiator == !a.initiator
    && HasSentTag(b)
    && (b.initiator ==> b.state.Succeeded?)
    && ViewOf(su, a).Some? && ViewOf(su, b) == ViewOf(su, a)
    && a.keys.Some? && b.keys == a.keys
  }

  /** In every run, a succeeded responder has a succeeded initiator with the same
      view and session key, and a succeeded initiator has a responder that sent its
      accept for the same view and key. */
  lemma SuccessHasPartner(su: Suite, events: seq<Event>, i: nat) returns (j: nat)
    requires NoForgery(su, events)
    requires i < |RunSystem(su, events).auths| && RunSystem(su, events).auths[i].state.Succeeded?
    ensures var s := RunSystem(su, events);
            j < |s.auths| && j != i && Partners(su, s.auths[i], s.auths[j])
  {
    RunKeepsInv(su, events);
    var s := RunSystem(su, events);
    var a := s.auths[i];
    var t := ExpectedTag(a);
    j :| 0 <= j < |s.auths| && HasSentTag(s.auths[j]) && OwnTag(s.auths[j]) == t;
    var b := s.auths[j];
    TagsOfView(su, a);
    TagsOfView(su, b);
    TagsBindViews(ViewOf(su, a).value, ViewOf(su, b).value,
                  if a.initiator then Responder else Initiator, if b.initiator then Initiator else Responder);
  }

  lemma {:induction false} EveryAuthCoherent(su: Suite, events: seq<Event>, i: nat)
    requires i < |RunSystem(su, events).auths|
    ensures Coherent(su, RunSystem(su, events).auths[i])
  {
    var n := |events| - 1;
    var h, e := events[..n], events[n];
    if i < |RunSystem(su, h).auths| {
      EveryAuthCoherent(su, h, i);
      if e.Act? {
        ApplyKeepsCoherent(su, RunSystem(su, h).auths[i], e.call);
      }
    } else {
      NewIsCoherent(su, e.secret, e.scheme);
    }
  }

  /** On any network, forged frames included, two ends with the same session key
      have the same view: pairing, fingerprints, shares and shared secret. */
  lemma SameKeySameView(su: Suite, events: seq<Event>, i: nat, j: nat)
    requires var s := RunSystem(su, events);
             && i < |s.auths| && j < |s.auths|
             && SessionKey(s.auths[i]).Ok? && SessionKey(s.auths[i]) == SessionKey(s.auths[j])
    ensures var s := RunSystem(su, events);
            ViewOf(su, s.auths[i]).Some? && ViewOf(su, s.auths[i]) == ViewOf(su, s.auths[j])
  {
    EveryAuthCoherent(su, events, i);
    EveryAuthCoherent(su, events, j);
    var s := RunSystem(su, events);
    SessionKeyBindsView(ViewOf(su, s.auths[i]).value, ViewOf(su, s.auths[j]).value);
  }

  lemma PartnersAreMutual(su: Suite, a: Auth, b: Auth)
    requires Coherent(su, a) && a.state.Succeeded? && Coherent(su, b) && Partners(su, a, b)
    ensures Partners(su, b, a)
  {
  }

  // ---------- agreement is injective ----------

  lemma PartnerSecret(su: Suite, a: Auth, b: Auth)
    requires su.PrimeOrder() && a.scheme == SchemeCpaceV2 && Partners(su, a, b)
    ensures b.peerShare == Some(a.LocalShare()) && Unmarshal(su.order, a.LocalShare()).Some?
    ensures var e := Unmarshal(su.order, a.LocalShare()).value;
            e > 0 && b.scalar != 0 && ViewOf(su, a).value.shared == Marshal(Mul(su.order, e, b.scalar))
  {
    var v := ViewOf(su, b).value;
    assert b.scheme == v.scheme == a.scheme;
    assert DeriveShared(su, b, b.peerShare.value) == Some(v.shared);
    MulZero(su.order, Unmarshal(su.order, b.peerShare.value).value);
  }

  /** All partners of a CPACE end drew the same scalar: their views hold one shared
      element, reached from one peer share. */
  lemma PartnersShareScalar(su: Suite, a: Auth, b: Auth, c: Auth)
    requires su.PrimeOrder() && a.scheme == SchemeCpaceV2 && b.scalar < su.order && c.scalar < su.order
    requires Partners(su, a, b) && Partners(su, a, c)
    ensures b.scalar == c.scalar != 0
  {
    PartnerSecret(su, a, b);
    PartnerSecret(su, a, c);
    SharedTellsScalar(su.order, Unmarshal(su.order, a.LocalShare()).value, b.scalar, c.scalar);
  }

  /** The event binds authenticator `i` with scalar `x`. */
  predicate Draws(e: Event, i: nat, x: nat)
  {
    e.Act? && e.who == i && e.call.BindCall? && e.call.draw.scalar == x
  }

  ghost predicate HasDrawn(events: seq<Event>, i: nat, x: nat)
  {
    exists k :: 0 <= k < |events| && Draws(events[k], i, x)
  }

  /** Scalars are reduced, and no two authenticators draw the same one. */
  ghost predicate DistinctDraws(su: Suite, events: seq<Event>)
  {
    && (forall k, i: nat, x: nat :: 0 <= k < |events| && Draws(events[k], i, x) ==> x < su.order)
    && (forall k, l, i: nat, j: nat, x: nat ::
          0 <= k < |events| && 0 <= l < |events| && Draws(events[k], i, x) && Draws(events[l], j, x) ==> i == j)
  }

  /** A scalar is unset or was drawn by a Bind of its own authenticator. */
  ghost predicate ScalarsDrawn(events: seq<Event>, s: System)
  {
    forall i :: 0 <= i < |s.auths| && s.auths[i].scalar != 0 ==> HasDrawn(events, i, s.auths[i].scalar)
  }

  lemma CallScalar(su: Suite, a: Auth, c: Call)
    ensures var b := Apply(su, a, c).auth;
            b.scalar == a.scalar || (c.BindCall? && b.scalar == c.draw.scalar)
  {
    match c
    case BindCall(m, d) => BindFrame(su, a, m, d);
    case StartCall =>
    case StepCall(m) => StepFrame(su, a, m);
  }

  lemma HasDrawnGrows(events: seq<Event>, e: Event, i: nat, x: nat)
    requires HasDrawn(events, i, x) || Draws(e, i, x)
    ensures HasDrawn(events + [e], i, x)
  {
    if HasDrawn(events, i, x) {
      var k :| 0 <= k < |events| && Draws(events[k], i, x);
      assert (events + [e])[k] == events[k];
    } else {
      assert (events + [e])[|events|] == e;
    }
  }

  lemma {:induction false} EveryScalarDrawn(su: Suite, events: seq<Event>)
    ensures ScalarsDrawn(events, RunSystem(su, events))
  {
    if events != [] {
      var n := |events| - 1;
      var h, e := events[..n], events[n];
      EveryScalarDrawn(su, h);
      var s, s' := RunSystem(su, h), RunSystem(su, events);
      assert h + [e] == events;
      forall i | 0 <= i < |s'.auths| && s'.auths[i].scalar != 0
        ensures HasDrawn(events, i, s'.auths[i].scalar)
      {
        if e.Act? && e.who == i {
          CallScalar(su, s.auths[i], e.call);
        }
        HasDrawnGrows(h, e, i, s'.auths[i].scalar);
      }
    }
  }

  lemma ScalarsTellApart(su: Suite, events: seq<Event>, i: nat, j: nat)
    requires DistinctDraws(su, events)
    requires var s := RunSystem(su, events);
             && i < |s.auths| && j < |s.auths| && s.auths[i].scalar == s.auths[j].scalar != 0
    ensures i == j
  {
    EveryScalarDrawn(su, events);
    var s := RunSystem(su, events);
    var x := s.auths[i].scalar;
    assert HasDrawn(events, i, x) && HasDrawn(events, j, x);
    var k :| 0 <= k < |events| && Draws(events[k], i, x);
    var l :| 0 <= l < |events| && Draws(events[l], j, x);
  }

  lemma ScalarsReduced(su: Suite, events: seq<Event>, i: nat)
    requires DistinctDraws(su, events) && i < |RunSystem(su, events).auths|
    ensures RunSystem(su, events).auths[i].scalar < su.order
  {
    EveryScalarDrawn(su, events);
    var x := RunSystem(su, events).auths[i].scalar;
    if x != 0 {
      assert HasDrawn(events, i, x);
      var k :| 0 <= k < |events| && Draws(events[k], i, x);
    }
  }

  lemma AtMostOnePartner(su: Suite, events: seq<Event>, i: nat, j: nat, k: nat)
    requires su.PrimeOrder() && DistinctDraws(su, events)
    requires var s := RunSystem(su, events);
             && i < |s.auths| && j < |s.auths| && k < |s.auths| && s.auths[i].scheme == SchemeCpaceV2
             && Partners(su, s.auths[i], s.auths[j]) && Partners(su, s.auths[i], s.auths[k])
    ensures j == k
  {
    var s := RunSystem(su, events);
    ScalarsReduced(su, events, j);
    ScalarsReduced(su, events, k);
    PartnersShareScalar(su, s.auths[i], s.auths[j], s.auths[k]);
    ScalarsTellApart(su, events, j, k);
  }

  /** Injective agreement: if no two authenticators draw the same scalar, a CPACE
      end that succeeds has exactly one partner, and is that partner's only one. */
  lemma UniquePartner(su: Suite, events: seq<Event>, i: nat) returns (j: nat)
    requires su.PrimeOrder() && NoForgery(su, events) && DistinctDraws(su, events)
    requires var s := RunSystem(su, events);
             i < |s.auths| && s.auths[i].state.Succeeded? && s.auths[i].scheme == SchemeCpaceV2
    ensures var s := RunSystem(su, events);
            && j < |s.auths| && j != i && Partners(su, s.auths[i], s.auths[j])
            && (forall k :: 0 <= k < |s.auths| && Partners(su, s.auths[i], s.auths[k]) ==> k == j)
            && (forall k :: 0 <= k < |s.auths| && Partners(su, s.auths[j], s.auths[k]) ==> k == i)
  {
    j := SuccessHasPartner(su, events, i);
    var s := RunSystem(su, events);
    RunKeepsInv(su, events);
    PartnersAreMutual(su, s.auths[i], s.auths[j]);
    forall k | 0 <= k < |s.auths| && Partners(su, s.auths[i], s.auths[k])
      ensures k == j
    {
      AtMostOnePartner(su, events, i, j, k);
    }
    forall k | 0 <= k < |s.auths| && Partners(su, s.auths[j], s.auths[k])
      ensures k == i
    {
      AtMostOnePartner(su, events, j, i, k);
    }
  }
}
