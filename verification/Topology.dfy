/** One site, two topologies: services in the same process, or behind their HTTP APIs. */
module Topology {
  import opened Calls
  import W = Wire

  const MAX_ERROR_BYTES: nat := 8192
  const JSON_TYPE := "application/json"

  datatype Service = Identity | Authorization | Content

  /** The sentinel errors of the three services and what they are built on. */
  datatype Kind =
    | UserNotFound | SessionNotFound | UsernameTaken | InvalidUsername | InvalidCredentials | SetupClosed
    | PasswordTooShort | PasswordTooLong | HashMismatch | UnknownAlgorithm
    | UnknownRole | InvalidAction
    | PostNotFound | InvalidPost | InvalidStatus | InvalidTransition | UnsupportedContent
    | InvalidReference

  /** An error with its text; wrapping may hold several causes. */
  datatype Fault =
    | Sentinel(kind: Kind, text: string)
    | Opaque(text: string)
    | Wrapped(text: string, causes: seq<Fault>)

  datatype Code = NotFound | InvalidInput | Conflict
  datatype Verdict = Verdict(code: Code, message: string)

  /** What the site is told: a domain answer it may act on, or that something failed. */
  datatype View = Answered(kind: Code, message: string) | Failure

  datatype Reply = Reply(status: int, mediaType: Option<string>, body: string)

  // ---------------------------------------------------------------- classifying

  predicate Is(f: Fault, kind: Kind) {
    match f
    case Sentinel(k, _) => k == kind
    case Opaque(_) => false
    case Wrapped(_, causes) => exists i :: 0 <= i < |causes| && Is(causes[i], kind)
  }

  predicate IsAny(f: Fault, kinds: seq<Kind>) { exists i :: 0 <= i < |kinds| && Is(f, kinds[i]) }

  const IDENTITY_INPUT: seq<Kind> := [InvalidUsername, PasswordTooShort, PasswordTooLong]
  const CONTENT_INPUT: seq<Kind> := [InvalidPost, InvalidStatus, InvalidTransition, UnsupportedContent]

  function Classify(service: Service, f: Fault): Option<Verdict> {
    match service
    case Identity =>
      if Is(f, SessionNotFound) || Is(f, UserNotFound) then Some(Verdict(NotFound, "That account could not be found."))
      else if Is(f, UsernameTaken) then Some(Verdict(Conflict, "That username is already taken."))
      else if IsAny(f, IDENTITY_INPUT) then Some(Verdict(InvalidInput, f.text))
      else None
    case Authorization =>
      if Is(f, UnknownRole) then Some(Verdict(InvalidInput, "That role does not exist."))
      else if Is(f, InvalidAction) then Some(Verdict(InvalidInput, f.text))
      else None
    case Content =>
      if Is(f, PostNotFound) then Some(Verdict(NotFound, "That post could not be found."))
      else if IsAny(f, CONTENT_INPUT) then Some(Verdict(InvalidInput, f.text))
      else None
  }

  /** An error wrapped once for each text, outermost first. */
  function WrapIn(texts: seq<string>, f: Fault): Fault {
    if texts == [] then f else Wrapped(texts[0], [WrapIn(texts[1..], f)])
  }

  lemma {:induction false} WrappingKeepsKinds(texts: seq<string>, f: Fault, kind: Kind)
    ensures Is(WrapIn(texts, f), kind) <==> Is(f, kind)
  {
    if texts != [] {
      WrappingKeepsKinds(texts[1..], f, kind);
      assert [WrapIn(texts[1..], f)][0] == WrapIn(texts[1..], f);
    }
  }

  /** However deeply an error is wrapped, its code is the same; its message is the same sentence
      or the outermost text. */
  lemma WrappingKeepsTheCode(service: Service, texts: seq<string>, f: Fault)
    ensures var bare, wrapped := Classify(service, f), Classify(service, WrapIn(texts, f));
            && (wrapped.Some? <==> bare.Some?)
            && (bare.Some? ==> wrapped.value.code == bare.value.code)
            && (bare.Some? && wrapped != bare ==>
                  bare.value.message == f.text && wrapped.value.message == WrapIn(texts, f).text)
  {
    forall kind ensures Is(WrapIn(texts, f), kind) <==> Is(f, kind) {
      WrappingKeepsKinds(texts, f, kind);
    }
    assert IsAny(WrapIn(texts, f), IDENTITY_INPUT) <==> IsAny(f, IDENTITY_INPUT);
    assert IsAny(WrapIn(texts, f), CONTENT_INPUT) <==> IsAny(f, CONTENT_INPUT);
  }

  // ---------------------------------------------------------------- in process

  function Direct(service: Service, f: Fault): View {
    match Classify(service, f)
    case None => Failure
    case Some(v) => Answered(v.code, v.message)
  }

  /** What the site is to make of one service's sentinel, whose error reads as this text. */
  function Told(service: Service, kind: Kind, text: string): View {
    match (service, kind)
    case (Identity, UserNotFound) => Answered(NotFound, "That account could not be found.")
    case (Identity, SessionNotFound) => Answered(NotFound, "That account could not be found.")
    case (Identity, UsernameTaken) => Answered(Conflict, "That username is already taken.")
    case (Identity, InvalidUsername) => Answered(InvalidInput, text)
    case (Identity, PasswordTooShort) => Answered(InvalidInput, text)
    case (Identity, PasswordTooLong) => Answered(InvalidInput, text)
    case (Authorization, UnknownRole) => Answered(InvalidInput, "That role does not exist.")
    case (Authorization, InvalidAction) => Answered(InvalidInput, text)
    case (Content, PostNotFound) => Answered(NotFound, "That post could not be found.")
    case (Content, InvalidPost) => Answered(InvalidInput, text)
    case (Content, InvalidStatus) => Answered(InvalidInput, text)
    case (Content, InvalidTransition) => Answered(InvalidInput, text)
    case (Content, UnsupportedContent) => Answered(InvalidInput, text)
    case _ => Failure
  }

  ghost predicate OnlyIs(f: Fault, kind: Kind) { forall k :: Is(f, k) <==> k == kind }

  lemma InputKinds(f: Fault)
    ensures IsAny(f, IDENTITY_INPUT) <==> Is(f, InvalidUsername) || Is(f, PasswordTooShort) || Is(f, PasswordTooLong)
    ensures IsAny(f, CONTENT_INPUT)
       <==> Is(f, InvalidPost) || Is(f, InvalidStatus) || Is(f, InvalidTransition) || Is(f, UnsupportedContent)
  {
    assert IDENTITY_INPUT[0] == InvalidUsername && IDENTITY_INPUT[1] == PasswordTooShort;
    assert IDENTITY_INPUT[2] == PasswordTooLong;
    assert CONTENT_INPUT[0] == InvalidPost && CONTENT_INPUT[1] == InvalidStatus;
    assert CONTENT_INPUT[2] == InvalidTransition && CONTENT_INPUT[3] == UnsupportedContent;
  }

  lemma IdentityTells(f: Fault, kind: Kind)
    requires OnlyIs(f, kind)
    ensures Direct(Identity, f) == Told(Identity, kind, f.text)
  {
    InputKinds(f);
    if IsAny(f, IDENTITY_INPUT) {
      IdentityEchoes(f, kind);
    } else {
      IdentitySays(f, kind);
    }
  }

  lemma IdentityEchoes(f: Fault, kind: Kind)
    requires OnlyIs(f, kind) && IsAny(f, IDENTITY_INPUT) && kind in {InvalidUsername, PasswordTooShort, PasswordTooLong}
    ensures Direct(Identity, f) == Told(Identity, kind, f.text)
  {
  }

  lemma IdentitySays(f: Fault, kind: Kind)
    requires OnlyIs(f, kind) && !IsAny(f, IDENTITY_INPUT)
    requires kind !in {InvalidUsername, PasswordTooShort, PasswordTooLong}
    ensures Direct(Identity, f) == Told(Identity, kind, f.text)
  {
  }

  lemma AuthorizationTells(f: Fault, kind: Kind)
    requires OnlyIs(f, kind)
    ensures Direct(Authorization, f) == Told(Authorization, kind, f.text)
  {
  }

  lemma ContentTells(f: Fault, kind: Kind)
    requires OnlyIs(f, kind)
    ensures Direct(Content, f) == Told(Content, kind, f.text)
  {
    InputKinds(f);
  }

  /** However deeply a sentinel is wrapped, the site is told what that sentinel means; what a
      service does not own is a failure. */
  lemma SiteIsTold(service: Service, texts: seq<string>, kind: Kind, text: string)
    ensures var f := WrapIn(texts, Sentinel(kind, text));
            Direct(service, f) == Told(service, kind, f.text)
  {
    var f := WrapIn(texts, Sentinel(kind, text));
    forall k ensures Is(f, k) <==> k == kind {
      WrappingKeepsKinds(texts, Sentinel(kind, text), k);
    }
    match service
    case Identity => IdentityTells(f, kind);
    case Authorization => AuthorizationTells(f, kind);
    case Content => ContentTells(f, kind);
  }

  predicate SaysAbsent(service: Service, f: Fault) {
    (service.Identity? && (Is(f, SessionNotFound) || Is(f, UserNotFound))) || (service.Content? && Is(f, PostNotFound))
  }

  predicate SaysTaken(service: Service, f: Fault) { service.Identity? && Is(f, UsernameTaken) }

  predicate SaysInvalid(service: Service, f: Fault) {
    || (service.Identity? && (Is(f, InvalidUsername) || Is(f, PasswordTooShort) || Is(f, PasswordTooLong)))
    || (service.Authorization? && (Is(f, UnknownRole) || Is(f, InvalidAction)))
    || (service.Content?
        && (Is(f, InvalidPost) || Is(f, InvalidStatus) || Is(f, InvalidTransition) || Is(f, UnsupportedContent)))
  }

  function CodeOf(service: Service, f: Fault): Option<Code> {
    match Classify(service, f)
    case None => None
    case Some(v) => Some(v.code)
  }

  lemma CodeIs(service: Service, f: Fault)
    ensures CodeOf(service, f) == if SaysAbsent(service, f) then Some(NotFound)
                                  else if SaysTaken(service, f) then Some(Conflict)
                                  else if SaysInvalid(service, f) then Some(InvalidInput) else None
  {
    InputKinds(f);
  }

  /** What is no sentinel is a failure, however it is wrapped. */
  lemma OthersAreFailures(service: Service, texts: seq<string>, text: string)
    ensures Direct(service, WrapIn(texts, Opaque(text))) == Failure
  {
    var f := WrapIn(texts, Opaque(text));
    forall kind ensures !Is(f, kind) {
      WrappingKeepsKinds(texts, Opaque(text), kind);
    }
    CodeIs(service, f);
  }

  /** An error with several causes says whatever one of its causes says; absent comes before
      taken, and taken before invalid. */
  lemma SeveralCauses(service: Service, text: string, causes: seq<Fault>)
    ensures var some := (says: Fault -> bool) => exists i :: 0 <= i < |causes| && says(causes[i]);
            CodeOf(service, Wrapped(text, causes))
            == if some(f => CodeOf(service, f) == Some(NotFound)) then Some(NotFound)
               else if some(f => CodeOf(service, f) == Some(Conflict)) then Some(Conflict)
               else if some(f => CodeOf(service, f) == Some(InvalidInput)) then Some(InvalidInput) else None
  {
    CodeIs(service, Wrapped(text, causes));
    forall i | 0 <= i < |causes| {
      CodeIs(service, causes[i]);
    }
  }

  // ---------------------------------------------------------------- over HTTP

  function CodeText(code: Code): string {
    match code
    case NotFound => "not_found"
    case InvalidInput => "invalid_input"
    case Conflict => "conflict"
  }

  function KnownCode(text: string): Option<Code> {
    if text == CodeText(NotFound) then Some(NotFound)
    else if text == CodeText(InvalidInput) then Some(InvalidInput)
    else if text == CodeText(Conflict) then Some(Conflict)
    else None
  }

  function Status(code: Code): int {
    match code
    case NotFound => 404
    case InvalidInput => 400
    case Conflict => 409
  }

  function EnvelopeOf(v: Verdict): W.Envelope { W.Envelope(CodeText(v.code), v.message) }

  /** A classified error goes out as an envelope, any other as a bare notice. */
  function Respond(service: Service, f: Fault, operation: string): Reply {
    match Classify(service, f)
    case None => Reply(500, Some("text/plain"), operation + " failed\n")
    case Some(v) => Reply(Status(v.code), Some(JSON_TYPE), W.Marshal(EnvelopeOf(v)))
  }

  /** How many bytes UTF-8 takes for a character. */
  function Width(c: char): nat {
    if c as int < 0x80 then 1 else if c as int < 0x800 then 2 else if c as int < 0x10000 then 3 else 4
  }

  /** The bytes of one character, section 3 of RFC 3629. */
  function Utf8(c: char): seq<nat> {
    var n := c as int;
    if n < 0x80 then [n]
    else if n < 0x800 then [0xC0 + n / 0x40, 0x80 + n % 0x40]
    else if n < 0x10000 then [0xE0 + n / 0x1000, 0x80 + n / 0x40 % 0x40, 0x80 + n % 0x40]
    else [0xF0 + n / 0x40000, 0x80 + n / 0x1000 % 0x40, 0x80 + n / 0x40 % 0x40, 0x80 + n % 0x40]
  }

  /** The limit counts those bytes; the first of them tells how many there are. */
  lemma WidthIsUtf8(c: char)
    ensures Width(c) == |Utf8(c)|
    ensures var lead := Utf8(c)[0];
            Width(c) == if lead < 0x80 then 1 else if lead < 0xE0 then 2 else if lead < 0xF0 then 3 else 4
    ensures forall i :: 0 < i < |Utf8(c)| ==> 0x80 <= Utf8(c)[i] < 0xC0
  {
  }

  function Bytes(s: string): nat { if s == "" then 0 else Width(s[0]) + Bytes(s[1..]) }

  /** The characters that fit whole into the first `room` bytes. */
  function Limited(s: string, room: nat): string {
    if s == "" || Width(s[0]) > room then "" else [s[0]] + Limited(s[1..], room - Width(s[0]))
  }

  function DecodeError(reply: Reply): Option<Verdict> {
    if reply.status !in {400, 404, 409} || reply.mediaType != Some(JSON_TYPE) then None
    else match W.Unmarshal(Limited(reply.body, MAX_ERROR_BYTES))
      case None => None
      case Some(e) => if KnownCode(e.code).Some? then Some(Verdict(KnownCode(e.code).value, e.message)) else None
  }

  function Remote(reply: Reply): View {
    match DecodeError(reply)
    case None => Failure
    case Some(v) => Answered(v.code, v.message)
  }

  lemma CodesAreTold(code: Code)
    ensures KnownCode(CodeText(code)) == Some(code)
  {
  }

  /** The limit leaves a body whole or cuts it. */
  lemma {:induction false} LimitCutsOrKeeps(s: string, room: nat)
    ensures if Bytes(s) <= room then Limited(s, room) == s else W.Cut(Limited(s, room), s)
  {
    if s != "" && Width(s[0]) <= room {
      LimitCutsOrKeeps(s[1..], room - Width(s[0]));
      assert s == [s[0]] + s[1..];
    }
  }

  function Carrying(v: Verdict): Reply { Reply(Status(v.code), Some(JSON_TYPE), W.Marshal(EnvelopeOf(v))) }

  predicate FitsTheLimit(v: Verdict) { Bytes(W.Marshal(EnvelopeOf(v))) <= MAX_ERROR_BYTES }

  lemma WholeEnvelopeArrives(v: Verdict)
    requires FitsTheLimit(v)
    ensures DecodeError(Carrying(v)) == Some(v)
  {
    var body := W.Marshal(EnvelopeOf(v));
    CodesAreTold(v.code);
    LimitCutsOrKeeps(body, MAX_ERROR_BYTES);
    W.UnmarshalMarshal(EnvelopeOf(v), "");
    assert body + "" == body;
  }

  lemma CutEnvelopeIsNoAnswer(v: Verdict)
    requires !FitsTheLimit(v)
    ensures DecodeError(Carrying(v)) == None
  {
    var body := W.Marshal(EnvelopeOf(v));
    LimitCutsOrKeeps(body, MAX_ERROR_BYTES);
    W.CutEnvelope(Limited(body, MAX_ERROR_BYTES), EnvelopeOf(v));
  }

  /** The two topologies tell the site the same, sentinel and sentence, for every error a
      service does not classify and for every classified one whose envelope fits the limit; when
      it does not fit, the split site sees a failure instead. */
  lemma TopologiesAgree(service: Service, f: Fault, operation: string)
    ensures Classify(service, f).None? ==> Direct(service, f) == Remote(Respond(service, f, operation)) == Failure
    ensures Classify(service, f).Some? ==>
              && Direct(service, f).Answered?
              && Remote(Respond(service, f, operation))
                 == if FitsTheLimit(Classify(service, f).value) then Direct(service, f) else Failure
  {
    if Classify(service, f).Some? {
      var v := Classify(service, f).value;
      assert Respond(service, f, operation) == Carrying(v);
      if FitsTheLimit(v) {
        WholeEnvelopeArrives(v);
      } else {
        CutEnvelopeIsNoAnswer(v);
      }
    }
  }

  /** Whatever answers in a service's place, the site is told "not found" only by a well-formed
      envelope with that very code on one of the three statuses. */
  lemma NotFoundIsSaid(reply: Reply, message: string)
    ensures Remote(reply) == Answered(NotFound, message)
       <==> && reply.status in {400, 404, 409} && reply.mediaType == Some(JSON_TYPE)
            && W.Unmarshal(Limited(reply.body, MAX_ERROR_BYTES)) == Some(W.Envelope("not_found", message))
  {
  }

  // ---------------------------------------------------------------- when an envelope fits

  lemma {:induction false} FewBytes(s: string)
    ensures Bytes(s) <= 4 * |s|
  {
    if s != "" {
      FewBytes(s[1..]);
    }
  }

  lemma {:induction false} QuotingGrowth(s: string)
    ensures |W.Quoted(s)| <= 6 * |s|
  {
    if s != "" {
      QuotingGrowth(s[1..]);
    }
  }

  lemma ShortEnvelopesFit(v: Verdict)
    requires |v.message| <= 300
    ensures FitsTheLimit(v)
  {
    var e := EnvelopeOf(v);
    FewBytes(W.Marshal(e));
    QuotingGrowth(e.code);
    QuotingGrowth(e.message);
    CodesAreShort(v.code);
    Lengths(e);
  }

  lemma CodesAreShort(code: Code)
    ensures |CodeText(code)| <= 13
  {
  }

  lemma Lengths(e: W.Envelope)
    ensures |W.Marshal(e)| == |W.HEAD| + |W.Quoted(e.code)| + 1 + |W.MIDDLE| + |W.Quoted(e.message)| + 1 + |W.TAIL|
  {
  }

  lemma FixedSentencesAreShort(service: Service, f: Fault)
    requires Classify(service, f).Some? && Classify(service, f).value.code != InvalidInput
    ensures |Classify(service, f).value.message| <= 300
  {
  }

  /** A message of up to 300 characters always fits, so the fixed sentences do: the topologies
      never disagree about "not found" and "conflict". */
  lemma ShortMessagesAgree(service: Service, f: Fault, operation: string)
    requires Classify(service, f).Some?
    requires |Classify(service, f).value.message| <= 300 || Classify(service, f).value.code != InvalidInput
    ensures Remote(Respond(service, f, operation)) == Direct(service, f)
  {
    if Classify(service, f).value.code != InvalidInput {
      FixedSentencesAreShort(service, f);
    }
    ShortEnvelopesFit(Classify(service, f).value);
    TopologiesAgree(service, f, operation);
  }
}
