/** One side of the hello / accept / confirm handshake, as functions on an
    immutable snapshot. AuthenticatorObject.dfy proves the mutable object against them. */
module Authenticator {
  import opened Basics
  import opened Bytes
  import opened PrimeGroup
  import opened KeySchedule

  const SchemeCpaceV2: text := Ascii("rtc2tcp-auth/cpace-ristretto255-v2")
  const SchemeTransitionalV2: text := Ascii("rtc2tcp-auth/interactive-ecdh-v2a")
  const GeneratorDst: seq<byte> := Ascii("rtc2tcp-auth/cpace-gen/v2")
  const BasePoint: Point := [9] + Zeros(31)

  type Positive = q: nat | q > 0 witness 1

  /** The primitives the code calls. Nothing is assumed of the two functions. */
  datatype Suite = Suite(
    order: Positive,
    hashToElement: (seq<byte>, seq<byte>) -> nat,
    x25519: (Point, Point) -> Point)
  {
    /** The group has prime order and its elements fit in 32 bytes. */
    ghost predicate PrimeOrder()
    {
      IsPrime(order) && order <= Pow256(PointLen)
    }
  }

  /** What Bind draws from the random source. */
  datatype Draw = Draw(scalar: nat, priv: Point)

  datatype Mode = Connect | Expose | UnsupportedMode

  datatype Material = Material(sessionId: text, mode: Mode, localFingerprint: text, remoteFingerprint: text)

  datatype Kind = Hello | Accept | Confirm | UnknownKind

  /** A base64url field of a frame, as the receiver's decoder sees it. An
      omitted field decodes to no bytes. */
  datatype Field<+T> = Undecodable | Decoded(value: T)

  datatype Message = Message(
    scheme: seq<byte>,
    kind: Kind,
    initiatorRole: seq<byte>,
    responderRole: seq<byte>,
    share: Field<seq<byte>>,
    confirmation: Field<Term>)

  datatype AuthState = Init | SentHello | SentAccept | SentConfirm | Succeeded | Failed

  datatype AuthError =
    | SecretRequired | UnsupportedScheme | InvalidMaterial | GeneratorIdentity | LocalShareIdentity
    | OutOfOrder | Unbound | SchemeMismatch | UnexpectedKind | RoleMismatch
    | InvalidShare | ConfirmationMismatch | NotComplete

  datatype Auth = Auth(
    secret: seq<byte>,
    scheme: text,
    state: AuthState,
    bound: bool,
    initiator: bool,
    material: Material,
    scalar: nat,
    cpaceShare: Point,
    priv: Point,
    pub: Point,
    peerShare: Option<Point>,
    keys: Option<Keys>)
  {
    predicate Terminal() { state.Succeeded? || state.Failed? }

    function LocalShare(): Point
    {
      if scheme == SchemeCpaceV2 then cpaceShare else pub
    }

    function InitiatorFingerprint(): text
    {
      if initiator then material.localFingerprint else material.remoteFingerprint
    }

    function ResponderFingerprint(): text
    {
      if initiator then material.remoteFingerprint else material.localFingerprint
    }
  }

  const NoMaterial: Material := Material([], UnsupportedMode, [], [])

  function New(secret: seq<byte>, scheme: text): Result<Auth, AuthError>
  {
    var trimmed := TrimSpace(secret);
    if trimmed == [] then Err(SecretRequired)
    else if scheme != SchemeCpaceV2 && scheme != SchemeTransitionalV2 then Err(UnsupportedScheme)
    else Ok(Auth(trimmed, scheme, Init, false, false, NoMaterial, 0, ZeroPoint, ZeroPoint, ZeroPoint, None, None))
  }

  /** A secret with something in it and one of the two known schemes. */
  lemma NewSucceedsExactly(secret: seq<byte>, scheme: text)
    ensures New(secret, scheme).Ok? <==>
              && !Blank(secret)
              && (scheme == Ascii("rtc2tcp-auth/cpace-ristretto255-v2")
                  || scheme == Ascii("rtc2tcp-auth/interactive-ecdh-v2a"))
    ensures Blank(secret) ==> New(secret, scheme) == Err(SecretRequired)
  {
    BlankTrims(secret);
  }

  // ---------- Bind ----------

  function Canonical(fingerprint: text): text
  {
    ToUpper(TrimSpace(fingerprint))
  }

  predicate ValidMaterial(m: Material)
  {
    && TrimSpace(m.sessionId) != []
    && TrimSpace(m.localFingerprint) != []
    && TrimSpace(m.remoteFingerprint) != []
    && !m.mode.UnsupportedMode?
  }

  lemma ValidMaterialExactly(m: Material)
    ensures ValidMaterial(m) <==>
              && !Blank(m.sessionId) && !Blank(m.localFingerprint) && !Blank(m.remoteFingerprint)
              && (m.mode.Connect? || m.mode.Expose?)
  {
    BlankTrims(m.sessionId);
    BlankTrims(m.localFingerprint);
    BlankTrims(m.remoteFingerprint);
  }

  /** Equal but for white space at the ends and the case of letters. */
  ghost predicate SameFingerprint(f: text, g: text)
  {
    SameLetters(TrimSpace(f), TrimSpace(g))
  }

  /** Two fingerprints have one canonical form exactly if they are the same. */
  lemma CanonicalSameExactly(f: text, g: text)
    ensures Canonical(f) == Canonical(g) <==> SameFingerprint(f, g)
  {
    ToUpperForgetsCase(TrimSpace(f), TrimSpace(g));
  }

  function CanonicalMaterial(m: Material): Material
  {
    Material(TrimSpace(m.sessionId), m.mode, Canonical(m.localFingerprint), Canonical(m.remoteFingerprint))
  }

  function GeneratorFields(a: Auth): seq<seq<byte>>
  {
    [a.secret, a.material.sessionId, a.InitiatorFingerprint(), a.ResponderFingerprint()]
  }

  function Generator(su: Suite, a: Auth): nat
  {
    su.hashToElement(EncodeFields(GeneratorFields(a)), GeneratorDst) % su.order
  }

  /** Distinct pairing secrets, session ids or fingerprints hash distinct inputs. */
  lemma GeneratorInputBinds(a: Auth, b: Auth)
    requires |a.secret| < FieldLimit && |b.secret| < FieldLimit
    requires EncodeFields(GeneratorFields(a)) == EncodeFields(GeneratorFields(b))
    ensures a.secret == b.secret && a.material.sessionId == b.material.sessionId
    ensures a.InitiatorFingerprint() == b.InitiatorFingerprint()
    ensures a.ResponderFingerprint() == b.ResponderFingerprint()
  {
    var f, g := GeneratorFields(a), GeneratorFields(b);
    EncodeFieldsInjective(f, g);
    assert f[0] == g[0] && f[1] == g[1] && f[2] == g[2] && f[3] == g[3];
  }

  datatype Bound = Bound(auth: Auth, err: Option<AuthError>)

  function SetupCpace(su: Suite, a: Auth, scalar: nat): Bound
  {
    var g := Generator(su, a);
    if g == 0 then Bound(a, Some(GeneratorIdentity))
    else
      var local := Mul(su.order, g, scalar);
      var drawn := a.(scalar := scalar);
      if local == 0 then Bound(drawn, Some(LocalShareIdentity))
      else Bound(drawn.(cpaceShare := Marshal(local)), None)
  }

  function Setup(su: Suite, a: Auth, d: Draw): Bound
  {
    if a.scheme == SchemeCpaceV2 then SetupCpace(su, a, d.scalar)
    else if a.scheme == SchemeTransitionalV2 then Bound(a.(priv := d.priv, pub := su.x25519(d.priv, BasePoint)), None)
    else Bound(a, Some(UnsupportedScheme))
  }

  /** A refused Bind may already have replaced the material; `bound` only ever
      becomes true. */
  function Bind(su: Suite, a: Auth, m: Material, d: Draw): Bound
  {
    if !a.state.Init? then Bound(a, Some(OutOfOrder))
    else if !ValidMaterial(m) then Bound(a, Some(InvalidMaterial))
    else
      var r := Setup(su, a.(material := CanonicalMaterial(m), initiator := m.mode.Connect?), d);
      if r.err.None? then r.(auth := r.auth.(bound := true)) else r
  }

  // ---------- Start and Step ----------

  const NoShare: Field<seq<byte>> := Decoded([])
  const NoConfirmation: Field<Term> := Decoded(Raw([]))

  function HelloOf(a: Auth): Message
  {
    Message(a.scheme, Hello, ConnectRole, ExposeRole, Decoded(a.LocalShare()), NoConfirmation)
  }

  function AcceptOf(a: Auth, tag: Term): Message
  {
    Message(a.scheme, Accept, [], [], Decoded(a.LocalShare()), Decoded(tag))
  }

  function ConfirmOf(a: Auth, tag: Term): Message
  {
    Message(a.scheme, Confirm, [], [], NoShare, Decoded(tag))
  }

  datatype Started = Started(auth: Auth, hello: Result<Message, AuthError>)

  function Start(a: Auth): Started
  {
    if !a.bound then Started(a, Err(Unbound))
    else if !a.initiator || !a.state.Init? then Started(a, Err(OutOfOrder))
    else Started(a.(state := SentHello), Ok(HelloOf(a)))
  }

  datatype StepResult = StepResult(outbound: Option<Message>, done: bool, err: Option<AuthError>)

  datatype Stepped = Stepped(auth: Auth, result: StepResult)

  function ShareOf(f: Field<seq<byte>>): Option<Point>
  {
    if f.Decoded? && |f.value| == PointLen && f.value != ZeroPoint then Some(f.value) else None
  }

  function DeriveShared(su: Suite, a: Auth, peer: Point): Option<Point>
  {
    if a.scheme == SchemeCpaceV2 then
      var e := Unmarshal(su.order, peer);
      if e.None? || e.value == 0 then None
      else
        var r := Mul(su.order, e.value, a.scalar);
        if r == 0 then None else Some(Marshal(r))
    else if a.scheme == SchemeTransitionalV2 then
      var s := su.x25519(a.priv, peer);
      if s == ZeroPoint then None else Some(s)
    else None
  }

  /** What the authenticator believes once it has a usable peer share. */
  function ViewOf(su: Suite, a: Auth): Option<View>
  {
    if a.peerShare.None? then None
    else
      var peer := a.peerShare.value;
      match DeriveShared(su, a, peer)
      case None => None
      case Some(shared) =>
        Some(View(a.scheme, a.material.sessionId, a.InitiatorFingerprint(), a.ResponderFingerprint(),
                  if a.initiator then a.LocalShare() else peer,
                  if a.initiator then peer else a.LocalShare(),
                  a.secret, shared))
  }

  function Fail(a: Auth, e: AuthError): Stepped
  {
    Stepped(a.(state := Failed), StepResult(None, false, Some(e)))
  }

  predicate Verifies(f: Field<Term>, expected: Term)
  {
    f.Decoded? && f.value.Len() == 32 && f.value == expected
  }

  datatype Absorbed = Absorbed(auth: Auth, keys: Option<Keys>)

  /** Takes the peer share and derives the keys; every refusal is an invalid share. */
  function Absorb(su: Suite, a: Auth, share: Field<seq<byte>>): Absorbed
  {
    match ShareOf(share)
    case None => Absorbed(a, None)
    case Some(p) =>
      var a1 := a.(peerShare := Some(p));
      match ViewOf(su, a1)
      case None => Absorbed(a1, None)
      case Some(v) => Absorbed(a1.(keys := Some(Derive(v))), Some(Derive(v)))
  }

  function StepResponder(su: Suite, a: Auth, m: Message): Stepped
  {
    match a.state
    case Init =>
      if !m.kind.Hello? then Fail(a, UnexpectedKind)
      else if m.initiatorRole != ConnectRole || m.responderRole != ExposeRole then Fail(a, RoleMismatch)
      else
        var b := Absorb(su, a, m.share);
        if b.keys.None? then Fail(b.auth, InvalidShare)
        else Stepped(b.auth.(state := SentAccept),
                     StepResult(Some(AcceptOf(b.auth, b.keys.value.responderConfirm)), false, None))
    case SentAccept =>
      if !m.kind.Confirm? then Fail(a, UnexpectedKind)
      else if a.keys.None? || !Verifies(m.confirmation, a.keys.value.initiatorConfirm) then
        Fail(a, ConfirmationMismatch)
      else Stepped(a.(state := Succeeded), StepResult(None, true, None))
    case _ => Fail(a, OutOfOrder)
  }

  function StepInitiator(su: Suite, a: Auth, m: Message): Stepped
  {
    if !a.state.SentHello? then Fail(a, OutOfOrder)
    else if !m.kind.Accept? then Fail(a, UnexpectedKind)
    else
      var b := Absorb(su, a, m.share);
      if b.keys.None? then Fail(b.auth, InvalidShare)
      else if !Verifies(m.confirmation, b.keys.value.responderConfirm) then Fail(b.auth, ConfirmationMismatch)
      else Stepped(b.auth.(state := Succeeded),
                   StepResult(Some(ConfirmOf(b.auth, b.keys.value.initiatorConfirm)), true, None))
  }

  function Step(su: Suite, a: Auth, m: Message): Stepped
  {
    if !a.bound then Stepped(a, StepResult(None, false, Some(Unbound)))
    else if a.Terminal() then Stepped(a, StepResult(None, false, Some(OutOfOrder)))
    else if m.scheme != a.scheme then Fail(a, SchemeMismatch)
    else if a.initiator then StepInitiator(su, a, m)
    else StepResponder(su, a, m)
  }

  function SessionKey(a: Auth): Result<Term, AuthError>
  {
    if a.state.Succeeded? && a.keys.Some? then Ok(a.keys.value.sessionKey) else Err(NotComplete)
  }
}
