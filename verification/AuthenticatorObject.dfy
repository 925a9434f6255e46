/** The authenticator as the code has it: one object whose methods update its
    fields. Every method is proved equal to the function on snapshots. */
module AuthenticatorObject {
  import opened Basics
  import opened Bytes
  import opened PrimeGroup
  import opened KeySchedule
  import Spec = Authenticator
  import opened Authenticator

  class InteractiveAuthenticator {
    const suite: Suite
    const pairingSecret: seq<byte>
    const scheme: text
    var state: AuthState
    var bound: bool
    var initiator: bool
    var material: Material
    var cpaceScalar: nat
    var cpaceShare: Point
    var priv: Point
    var pub: Point
    var peerShare: Point
    var havePeerShare: bool
    var haveKeys: bool
    var transcript: Term
    var sessionKey: Term
    var initiatorConfirm: Term
    var responderConfirm: Term

    ghost function Snapshot(): Auth
      reads this
    {
      Auth(pairingSecret, scheme, state, bound, initiator, material, cpaceScalar, cpaceShare, priv, pub,
           if havePeerShare then Some(peerShare) else None,
           if haveKeys then Some(Keys(transcript, sessionKey, initiatorConfirm, responderConfirm)) else None)
    }

    constructor (su: Suite, secret: seq<byte>, scheme: text)
      requires New(secret, scheme).Ok?
      ensures suite == su && Snapshot() == New(secret, scheme).value
    {
      suite := su;
      pairingSecret := TrimSpace(secret);
      this.scheme := scheme;
      state := Init;
      bound, initiator, material := false, false, NoMaterial;
      cpaceScalar, cpaceShare, priv, pub := 0, ZeroPoint, ZeroPoint, ZeroPoint;
      peerShare, havePeerShare, haveKeys := ZeroPoint, false, false;
      transcript, sessionKey, initiatorConfirm, responderConfirm := Raw([]), Raw([]), Raw([]), Raw([]);
    }

    method Bind(m: Material, d: Draw) returns (err: Option<AuthError>)
      modifies this
      ensures Bound(Snapshot(), err) == Spec.Bind(suite, old(Snapshot()), m, d)
    {
      if !state.Init? {
        return Some(OutOfOrder);
      }
      if !ValidMaterial(m) {
        return Some(InvalidMaterial);
      }
      material := CanonicalMaterial(m);
      initiator := m.mode.Connect?;
      err := Setup(d);
      if err.None? {
        bound := true;
      }
    }

    method Setup(d: Draw) returns (err: Option<AuthError>)
      modifies this`cpaceScalar, this`cpaceShare, this`priv, this`pub
      ensures Bound(Snapshot(), err) == Spec.Setup(suite, old(Snapshot()), d)
    {
      if scheme == SchemeCpaceV2 {
        err := SetupCpace(d.scalar);
      } else if scheme == SchemeTransitionalV2 {
        priv := d.priv;
        pub := suite.x25519(priv, BasePoint);
        err := None;
      } else {
        err := Some(UnsupportedScheme);
      }
    }

    method SetupCpace(scalar: nat) returns (err: Option<AuthError>)
      modifies this`cpaceScalar, this`cpaceShare
      ensures Bound(Snapshot(), err) == Spec.SetupCpace(suite, old(Snapshot()), scalar)
    {
      var initiatorFP, responderFP := OrderedFingerprints();
      var msg := new ByteWriter();
      ghost var none: seq<seq<byte>> := [];
      ghost var fields := WriteFour(msg, pairingSecret, material.sessionId, initiatorFP, responderFP, none);
      assert fields == GeneratorFields(old(Snapshot()));
      var generator := suite.hashToElement(msg.out, GeneratorDst) % suite.order;
      if generator == 0 {
        return Some(GeneratorIdentity);
      }
      cpaceScalar := scalar;
      var local := Mul(suite.order, generator, cpaceScalar);
      if local == 0 {
        return Some(LocalShareIdentity);
      }
      cpaceShare := Marshal(local);
      return None;
    }

    method OrderedFingerprints() returns (i: text, r: text)
      ensures i == Snapshot().InitiatorFingerprint() && r == Snapshot().ResponderFingerprint()
    {
      if initiator {
        return material.localFingerprint, material.remoteFingerprint;
      }
      return material.remoteFingerprint, material.localFingerprint;
    }

    method LocalShareBytes() returns (s: Point)
      ensures s == Snapshot().LocalShare()
    {
      if scheme == SchemeCpaceV2 {
        return cpaceShare;
      }
      return pub;
    }

    method Start() returns (r: Result<Message, AuthError>)
      modifies this
      ensures Started(Snapshot(), r) == Spec.Start(old(Snapshot()))
    {
      if !bound {
        return Err(Unbound);
      }
      if !initiator || !state.Init? {
        return Err(OutOfOrder);
      }
      var share := LocalShareBytes();
      r := Ok(Message(scheme, Hello, ConnectRole, ExposeRole, Decoded(share), NoConfirmation));
      state := SentHello;
    }

    method Step(inbound: Message) returns (r: StepResult)
      modifies this
      ensures Stepped(Snapshot(), r) == Spec.Step(suite, old(Snapshot()), inbound)
    {
      if !bound {
        return StepResult(None, false, Some(Unbound));
      }
      if state.Succeeded? || state.Failed? {
        return StepResult(None, false, Some(OutOfOrder));
      }
      if inbound.scheme != scheme {
        state := Failed;
        return StepResult(None, false, Some(SchemeMismatch));
      }
      if initiator {
        r := StepInitiator(inbound);
      } else {
        r := StepResponder(inbound);
      }
    }

    method StepResponder(inbound: Message) returns (r: StepResult)
      modifies this
      ensures Stepped(Snapshot(), r) == Spec.StepResponder(suite, old(Snapshot()), inbound)
    {
      match state
      case Init =>
        if !inbound.kind.Hello? {
          r := Refuse(UnexpectedKind);
          return;
        }
        if inbound.initiatorRole != ConnectRole || inbound.responderRole != ExposeRole {
          r := Refuse(RoleMismatch);
          return;
        }
        var ok := Absorb(inbound.share);
        if !ok {
          r := Refuse(InvalidShare);
          return;
        }
        var share := LocalShareBytes();
        r := StepResult(Some(Message(scheme, Accept, [], [], Decoded(share), Decoded(responderConfirm))), false, None);
        state := SentAccept;
      case SentAccept =>
        if !inbound.kind.Confirm? {
          r := Refuse(UnexpectedKind);
          return;
        }
        if !haveKeys || !Verifies(inbound.confirmation, initiatorConfirm) {
          r := Refuse(ConfirmationMismatch);
          return;
        }
        state := Succeeded;
        r := StepResult(None, true, None);
      case _ =>
        r := Refuse(OutOfOrder);
    }

    method StepInitiator(inbound: Message) returns (r: StepResult)
      modifies this
      ensures Stepped(Snapshot(), r) == Spec.StepInitiator(suite, old(Snapshot()), inbound)
    {
      if !state.SentHello? {
        r := Refuse(OutOfOrder);
        return;
      }
      if !inbound.kind.Accept? {
        r := Refuse(UnexpectedKind);
        return;
      }
      var ok := Absorb(inbound.share);
      if !ok {
        r := Refuse(InvalidShare);
        return;
      }
      if !Verifies(inbound.confirmation, responderConfirm) {
        r := Refuse(ConfirmationMismatch);
        return;
      }
      r := StepResult(Some(Message(scheme, Confirm, [], [], NoShare, Decoded(initiatorConfirm))), true, None);
      state := Succeeded;
    }

    method Refuse(e: AuthError) returns (r: StepResult)
      modifies this`state
      ensures Stepped(Snapshot(), r) == Spec.Fail(old(Snapshot()), e)
    {
      state := Failed;
      r := StepResult(None, false, Some(e));
    }

    /** consumePeerShare, then computeTranscriptAndKeys. */
    method Absorb(share: Field<seq<byte>>) returns (ok: bool)
      modifies this
      ensures Snapshot() == Spec.Absorb(suite, old(Snapshot()), share).auth
      ensures ok <==> Spec.Absorb(suite, old(Snapshot()), share).keys.Some?
    {
      ok := ConsumePeerShare(share);
      if ok {
        ok := ComputeTranscriptAndKeys();
      }
    }

    method ConsumePeerShare(share: Field<seq<byte>>) returns (ok: bool)
      modifies this`peerShare, this`havePeerShare
      ensures ok <==> ShareOf(share).Some?
      ensures Snapshot() == if ok then old(Snapshot()).(peerShare := ShareOf(share)) else old(Snapshot())
    {
      if share.Undecodable? || |share.value| != PointLen {
        return false;
      }
      if share.value == ZeroPoint {
        return false;
      }
      peerShare := share.value;
      havePeerShare := true;
      return true;
    }

    method DerivePakeShared() returns (shared: Option<Point>)
      ensures shared == DeriveShared(suite, Snapshot(), peerShare)
    {
      if scheme == SchemeCpaceV2 {
        var element := Unmarshal(suite.order, peerShare);
        if element.None? || element.value == 0 {
          return None;
        }
        var result := Mul(suite.order, element.value, cpaceScalar);
        if result == 0 {
          return None;
        }
        return Some(Marshal(result));
      }
      if scheme == SchemeTransitionalV2 {
        var s := suite.x25519(priv, peerShare);
        if s == ZeroPoint {
          return None;
        }
        return Some(s);
      }
      return None;
    }

    method ComputeTranscriptAndKeys() returns (ok: bool)
      modifies this`haveKeys, this`transcript, this`sessionKey, this`initiatorConfirm, this`responderConfirm
      ensures match ViewOf(suite, old(Snapshot()))
              case None => !ok && Snapshot() == old(Snapshot())
              case Some(v) => ok && Snapshot() == old(Snapshot()).(keys := Some(Derive(v)))
    {
      var keys := KeysOfView();
      if keys.None? {
        return false;
      }
      StoreKeys(keys.value);
      return true;
    }

    method StoreKeys(k: Keys)
      modifies this`haveKeys, this`transcript, this`sessionKey, this`initiatorConfirm, this`responderConfirm
      ensures Snapshot() == old(Snapshot()).(keys := Some(k))
    {
      transcript, sessionKey := k.transcript, k.sessionKey;
      initiatorConfirm, responderConfirm := k.initiatorConfirm, k.responderConfirm;
      haveKeys := true;
    }

    method KeysOfView() returns (keys: Option<Keys>)
      ensures keys == match ViewOf(suite, Snapshot()) case None => None case Some(v) => Some(Derive(v))
    {
      if !havePeerShare {
        return None;
      }
      var pakeShared := DerivePakeShared();
      if pakeShared.None? {
        return None;
      }
      var localShare := LocalShareBytes();
      var initiatorShare, responderShare := peerShare, localShare;
      if initiator {
        initiatorShare, responderShare := localShare, peerShare;
      }
      var initiatorFP, responderFP := OrderedFingerprints();
      ghost var v := View(scheme, material.sessionId, initiatorFP, responderFP, initiatorShare, responderShare,
                          pairingSecret, pakeShared.value);
      assert ViewOf(suite, Snapshot()) == Some(v);
      var t := BuildTranscript(scheme, material.sessionId, ConnectRole, ExposeRole, initiatorFP, responderFP,
                               initiatorShare, responderShare, v);
      var key, ic, rc := DeriveKeys(t, pakeShared.value, pairingSecret, material.sessionId, v);
      return Some(Keys(t, key, ic, rc));
    }

    method SessionKey() returns (r: Result<Term, AuthError>)
      ensures r == Spec.SessionKey(Snapshot())
    {
      if !state.Succeeded? || !haveKeys {
        return Err(NotComplete);
      }
      return Ok(sessionKey);
    }
  }
}
