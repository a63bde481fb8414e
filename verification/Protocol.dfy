/**
 The session layer as functions: what each Session operation does to one endpoint's state and what it hands to the
 transport and the application. One whole operation is one step; the clock and SendingTime are read once per step.
 */
module Protocol {
  import opened Bytes
  import opened Messages
  import opened Framing
  import opened Serializing
  import opened Streams
  import opened Stores

  // ---------------------------------------------------------------------
  // Versions, message types, configuration
  // ---------------------------------------------------------------------

  datatype FixVersion = FIX40 | FIX41 | FIX42 | FIX43 | FIX44 | FIX50 | FIX50SP1 | FIX50SP2 | FIXT11 | UnknownVersion

  const FIX_DOT: bytes := [70, 73, 88, 46]  // "FIX."

  function VersionText(v: FixVersion): bytes {
    match v
    case FIX40 => FIX_DOT + [52, 46, 48]
    case FIX41 => FIX_DOT + [52, 46, 49]
    case FIX42 => FIX_DOT + [52, 46, 50]
    case FIX43 => FIX_DOT + [52, 46, 51]
    case FIX44 => FIX_DOT + [52, 46, 52]
    case FIX50 => FIX_DOT + [53, 46, 48]
    case FIX50SP1 => FIX_DOT + [53, 46, 48, 83, 80, 49]
    case FIX50SP2 => FIX_DOT + [53, 46, 48, 83, 80, 50]
    case FIXT11 => [70, 73, 88, 84, 46, 49, 46, 49]
    case UnknownVersion => [85, 110, 107, 110, 111, 119, 110]
  }

  function ParseVersion(s: bytes): FixVersion {
    if s == VersionText(FIX40) then FIX40
    else if s == VersionText(FIX41) then FIX41
    else if s == VersionText(FIX42) then FIX42
    else if s == VersionText(FIX43) then FIX43
    else if s == VersionText(FIX44) then FIX44
    else if s == VersionText(FIX50) then FIX50
    else if s == VersionText(FIX50SP1) then FIX50SP1
    else if s == VersionText(FIX50SP2) then FIX50SP2
    else if s == VersionText(FIXT11) then FIXT11
    else UnknownVersion
  }

  const HEARTBEAT: bytes := [48]
  const TEST_REQUEST: bytes := [49]
  const RESEND_REQUEST: bytes := [50]
  const REJECT: bytes := [51]
  const SEQUENCE_RESET: bytes := [52]
  const LOGOUT: bytes := [53]
  const LOGON: bytes := [65]

  predicate IsAdmin(msgType: bytes) {
    msgType in {HEARTBEAT, TEST_REQUEST, RESEND_REQUEST, REJECT, SEQUENCE_RESET, LOGOUT, LOGON}
  }

  const KEEP_DEFAULTS := Options(true, 0x10_0000)  // the parser's default options: 1 MB

  const MAX_GAP_RETRIES := 5

  datatype Config = Config(
    version: FixVersion, sender: bytes, target: bytes, initiator: bool, resetOnLogon: bool,
    logonTimeout: nat, logoutTimeout: nat, username: bytes, password: bytes, defaultApplVerId: bytes)
  {
    predicate GoodIds() {
      Clean(sender) && Clean(target)
    }
  }

  function Ascii(s: string): bytes {
    seq(|s|, i requires 0 <= i < |s| => s[i] as int % 256)
  }

  // ---------------------------------------------------------------------
  // State and outputs
  // ---------------------------------------------------------------------

  datatype Phase = NotConnected | WaitingLogon | LogonSent | Active | LogoutSent | Disconnected

  /** The state of one Session and of its message store. Times are in milliseconds. */
  datatype Endpoint = Endpoint(
    phase: Phase, nextSender: nat, nextTarget: nat, outbound: map<nat, bytes>, inbound: map<nat, bytes>,
    gapOpen: bool, gapAttempts: nat, gapLast: int, testPending: bool, testSent: int,
    lastSend: int, lastRecv: int, logonSent: int, logoutSent: int, heartbeat: int, logoutNotified: bool)

  /** What the environment supplies to a step; `throws` says whether user callbacks throw. */
  datatype Env = Env(now: int, time: bytes, testId: bytes, throws: bool)

  datatype Out =
    | Emit(frame: Outgoing)
    | Deliver(msg: Message)
    | OnLogon
    | OnLogout(reason: bytes)
    | OnGap(expected: nat, received: nat)
    | OnResendRequest(begin: nat, end: nat)
    | OnReject(refSeq: nat, text: bytes)
    | OnHeartbeatTimeout
    | Drop      // the transport is told to disconnect
    | Report    // an error is reported

  datatype Step = Step(s: Endpoint, out: seq<Out>) {
    function After(before: seq<Out>): Step {
      Step(s, before + out)
    }
  }

  function Thrown(env: Env): seq<Out> {
    if env.throws then [Report] else []
  }

  // ---------------------------------------------------------------------
  // Sending
  // ---------------------------------------------------------------------

  function EnvelopeFor(cfg: Config, seqNum: nat, env: Env): Envelope {
    Envelope(VersionText(cfg.version), seqNum, cfg.sender, cfg.target, env.time)
  }

  /** send_message over a store that does not fail: claim, serialize, store, emit; a failed serialization claims nothing. */
  function Send(cfg: Config, s: Endpoint, fs: seq<Field>, env: Env): Step {
    var e := EnvelopeFor(cfg, s.nextSender, env);
    match Serialize(fs, e)
    case None => Step(s, [])
    case Some(wire) =>
      Step(s.(nextSender := s.nextSender + 1, outbound := s.outbound[s.nextSender := wire], lastSend := env.now),
           [Emit(Outgoing(fs, e))])
  }

  function OfType(msgType: bytes): seq<Field> {
    SetField([], MSG_TYPE, msgType)
  }

  function SetUnlessEmpty(fs: seq<Field>, tag: nat, value: bytes): seq<Field> {
    if value == [] then fs else SetField(fs, tag, value)
  }

  function LogoutFields(reason: bytes): seq<Field> {
    SetUnlessEmpty(OfType(LOGOUT), TEXT, reason)
  }

  function HeartbeatFields(testId: bytes): seq<Field> {
    SetUnlessEmpty(OfType(HEARTBEAT), TEST_REQ_ID, testId)
  }

  function TestRequestFields(testId: bytes): seq<Field> {
    SetField(OfType(TEST_REQUEST), TEST_REQ_ID, testId)
  }

  function ResendRequestFields(begin: nat, end: nat): seq<Field> {
    SetField(SetField(OfType(RESEND_REQUEST), BEGIN_SEQ_NO, DecInt(ToInt64(begin))), END_SEQ_NO, DecInt(ToInt64(end)))
  }

  function RejectFields(refSeq: nat, reason: nat, refType: bytes, refTag: nat, text: bytes): seq<Field> {
    var base := SetField(SetField(OfType(REJECT), REF_SEQ_NUM, DecInt(ToInt64(refSeq))),
                         SESSION_REJECT_REASON, DecInt(reason));
    var typed := SetUnlessEmpty(base, REF_MSG_TYPE, refType);
    var tagged := if refTag == 0 then typed else SetField(typed, REF_TAG_ID, DecInt(refTag));
    SetUnlessEmpty(tagged, TEXT, text)
  }

  function GapFillFields(newSeqNo: nat): seq<Field> {
    SetField(SetField(SetField(OfType(SEQUENCE_RESET), GAP_FILL_FLAG, YES), POSS_DUP_FLAG, YES),
             NEW_SEQ_NO, DecInt(ToInt64(newSeqNo)))
  }

  function LogonFields(cfg: Config, heartbeat: int): seq<Field> {
    var base := SetField(SetField(OfType(LOGON), ENCRYPT_METHOD, [48]), HEART_BT_INT, DecInt(heartbeat));
    var flagged := if cfg.resetOnLogon then SetField(base, RESET_SEQ_NUM_FLAG, YES) else base;
    SetUnlessEmpty(SetUnlessEmpty(SetUnlessEmpty(flagged, 553, cfg.username), 554, cfg.password),
                   1137, cfg.defaultApplVerId)
  }

  function SendLogout(cfg: Config, s: Endpoint, reason: bytes, env: Env): Step {
    var r := Send(cfg, s, LogoutFields(reason), env);
    Step(r.s.(logoutSent := env.now, phase := if s.phase == Disconnected then Disconnected else LogoutSent), r.out)
  }

  function SendReject(
    cfg: Config, s: Endpoint, refSeq: nat, reason: nat, refType: bytes, refTag: nat, text: bytes, env: Env): Step
  {
    Send(cfg, s, RejectFields(refSeq, reason, refType, refTag, text), env)
  }

  // ---------------------------------------------------------------------
  // Ending a connection
  // ---------------------------------------------------------------------

  function ClearGap(s: Endpoint): Endpoint {
    s.(gapOpen := false, gapAttempts := 0, gapLast := 0)
  }

  function Disconnect(s: Endpoint): Step {
    Step(ClearGap(s).(phase := Disconnected, testPending := false), [Drop])
  }

  function LogoutAndDrop(cfg: Config, s: Endpoint, reason: bytes, env: Env): Step {
    var r := SendLogout(cfg, s, reason, env);
    Disconnect(r.s).After(r.out)
  }

  function NotifyLogout(s: Endpoint, reason: bytes, env: Env): Step {
    if s.logoutNotified then Step(s, []) else Step(s.(logoutNotified := true), [OnLogout(reason)] + Thrown(env))
  }

  // ---------------------------------------------------------------------
  // Inbound sequence accounting
  // ---------------------------------------------------------------------

  /** States in which MsgSeqNum is judged. */
  predicate Judged(phase: Phase) {
    phase != WaitingLogon && phase != LogonSent && phase != NotConnected
  }

  function Advance(s: Endpoint, n: nat): Endpoint {
    if n > s.nextTarget then s.(nextTarget := n) else s
  }

  /** Takes the sequence slot of a message: the counter is 64 bits wide. */
  function TakeSlot(s: Endpoint, m: Message): Endpoint {
    var t := Advance(s, (SeqNum(m) + 1) % TWO64);
    t.(inbound := t.inbound[SeqNum(m) := m.raw])
  }

  function ConsumeInbound(s: Endpoint, m: Message, judged: bool): Endpoint {
    if !judged && PossDup(m) then s else TakeSlot(s, m)
  }

  /** At most one ResendRequest per open gap. */
  function RequestGap(cfg: Config, s: Endpoint, begin: nat, env: Env): Step {
    if s.gapOpen then Step(s, [])
    else
      Send(cfg, s.(gapOpen := true, gapAttempts := 1, gapLast := env.now), ResendRequestFields(begin, 0), env)
  }

  datatype SeqVerdict = InSequence | OutOfSequence(step: Step)

  function ValidateSeqNum(cfg: Config, s: Endpoint, m: Message, env: Env): SeqVerdict {
    var received, expected := SeqNum(m), s.nextTarget;
    if received == 0 then OutOfSequence(SendReject(cfg, s, 0, 1, MsgType(m), MSG_SEQ_NUM, [], env))
    else if received > expected then
      OutOfSequence(RequestGap(cfg, s, expected, env).After([OnGap(expected, received)] + Thrown(env)))
    else if received < expected then
      if PossDup(m) then OutOfSequence(Step(s, []))
      else OutOfSequence(LogoutAndDrop(cfg, s, Ascii("MsgSeqNum too low"), env))
    else InSequence
  }

  // ---------------------------------------------------------------------
  // SequenceReset
  // ---------------------------------------------------------------------

  predicate IsGapFill(m: Message) {
    GetOr(m.fields, GAP_FILL_FLAG, NO) == YES
  }

  function HandleSequenceReset(cfg: Config, s: Endpoint, m: Message, env: Env): Step {
    var expected, received, newSeqNo := s.nextTarget, SeqNum(m), GetInt(m.fields, NEW_SEQ_NO);
    if IsGapFill(m) then
      if !PossDup(m) then LogoutAndDrop(cfg, s, Ascii("SequenceReset GapFill requires PossDupFlag"), env)
      else if received > expected then RequestGap(cfg, s, expected, env)
      else if received < expected then Step(s, [])
      else if newSeqNo.None? || newSeqNo.value % TWO64 <= expected then
        LogoutAndDrop(cfg, s, Ascii("invalid NewSeqNo"), env)
      else Step(ClearGap(s.(nextTarget := newSeqNo.value % TWO64)), [])
    else if newSeqNo.None? || newSeqNo.value <= 0 then LogoutAndDrop(cfg, s, Ascii("invalid NewSeqNo"), env)
    else Step(ClearGap(s.(nextTarget := newSeqNo.value % TWO64)), [])
  }

  // ---------------------------------------------------------------------
  // ResendRequest replay
  // ---------------------------------------------------------------------

  /** The first message a fresh parser finds in a stored frame. */
  function ParseStored(wire: bytes): Option<Message> {
    var d := Feed(KEEP_DEFAULTS, [], wire);
    if d.msgs == [] then None else Some(d.msgs[0])
  }

  /** A stored frame that is replayed: it parses and is an application message. */
  predicate Replayable(wire: bytes) {
    && ParseStored(wire).Some?
    && MsgType(ParseStored(wire).value) != [] && !IsAdmin(MsgType(ParseStored(wire).value))
  }

  /** The fields of a replayed message: PossDupFlag set, OrigSendingTime taken from SendingTime. */
  function Retagged(stored: Message): seq<Field> {
    var dup := SetField(stored.fields, POSS_DUP_FLAG, YES);
    match Get(dup, SENDING_TIME)
    case Some(orig) => SetField(dup, ORIG_SENDING_TIME, orig)
    case None => dup
  }

  /** The emissions of a replay and the first number not yet accounted for. */
  datatype Replayed = Replayed(frames: seq<Outgoing>, cursor: nat)

  /** One gap-fill from the cursor up to (excluding) `upTo`. */
  function FlushGap(cfg: Config, r: Replayed, upTo: nat, env: Env): Replayed {
    var e := EnvelopeFor(cfg, r.cursor, env);
    if r.cursor >= upTo || Serialize(GapFillFields(upTo), e).None? then r
    else Replayed(r.frames + [Outgoing(GapFillFields(upTo), e)], upTo)
  }

  /** One stored frame: application messages are re-emitted, everything else is left to the next gap-fill. */
  function ReplayOne(cfg: Config, r: Replayed, frame: StoredFrame, env: Env): Replayed {
    if !Replayable(frame.wire) then r
    else
      var filled := FlushGap(cfg, r, frame.seqNum, env);
      var fs := Retagged(ParseStored(frame.wire).value);
      var e := EnvelopeFor(cfg, frame.seqNum, env);
      if Serialize(fs, e).Some? then Replayed(filled.frames + [Outgoing(fs, e)], frame.seqNum + 1)
      else FlushGap(cfg, filled, frame.seqNum + 1, env)
  }

  function ReplayFrames(cfg: Config, r: Replayed, frames: seq<StoredFrame>, rangeEnd: nat, env: Env): Replayed
    decreases |frames|
  {
    if frames == [] || frames[0].seqNum > rangeEnd then r
    else if frames[0].seqNum < r.cursor then ReplayFrames(cfg, r, frames[1..], rangeEnd, env)
    else ReplayFrames(cfg, ReplayOne(cfg, r, frames[0], env), frames[1..], rangeEnd, env)
  }

  /** The whole replay of the range [begin, rangeEnd]. */
  function Replay(cfg: Config, frames: seq<StoredFrame>, begin: nat, rangeEnd: nat, env: Env): seq<Outgoing> {
    FlushGap(cfg, ReplayFrames(cfg, Replayed([], begin), frames, rangeEnd, env), rangeEnd + 1, env).frames
  }

  function Emissions(frames: seq<Outgoing>): (out: seq<Out>)
    ensures |out| == |frames| && forall i :: 0 <= i < |out| ==> out[i] == Emit(frames[i])
  {
    seq(|frames|, i requires 0 <= i < |frames| => Emit(frames[i]))
  }

  /** The last number of a replay window. */
  function RangeEnd(nextSender: nat, end: nat): int {
    if end == 0 || end >= nextSender then nextSender - 1 else end
  }

  /** The answer to a well-formed request: refuse it, or replay the range; counters and store stay as they are. */
  function AnswerResend(cfg: Config, s: Endpoint, m: Message, begin: nat, end: nat, env: Env): Step {
    if begin > s.nextSender then
      SendReject(cfg, s, SeqNum(m), 5, MsgType(m), BEGIN_SEQ_NO, Ascii("BeginSeqNo > NextSenderMsgSeqNum"), env)
    else if begin > RangeEnd(s.nextSender, end) then Step(s, [])
    else
      var frames := Replay(cfg, Snapshot(s.outbound, begin, end), begin, RangeEnd(s.nextSender, end), env);
      Step(if frames == [] then s else s.(lastSend := env.now), Emissions(frames))
  }

  /** EndSeqNo of a request; absent means 0. */
  function EndOf(m: Message): nat {
    match GetInt(m.fields, END_SEQ_NO) case Some(v) => v % TWO64 case None => 0
  }

  function HandleResendRequest(cfg: Config, s: Endpoint, m: Message, env: Env): Step {
    match GetInt(m.fields, BEGIN_SEQ_NO)
    case None => SendReject(cfg, s, SeqNum(m), 1, MsgType(m), BEGIN_SEQ_NO, Ascii("missing BeginSeqNo"), env)
    case Some(begin) =>
      if begin < 1 then
        SendReject(cfg, s, SeqNum(m), 5, MsgType(m), BEGIN_SEQ_NO, Ascii("BeginSeqNo must be >= 1"), env)
      else AnswerResend(cfg, s, m, begin, EndOf(m), env).After([OnResendRequest(begin, EndOf(m))] + Thrown(env))
  }

  // ---------------------------------------------------------------------
  // Logon, Logout and the other administrative messages
  // ---------------------------------------------------------------------

  /** The endpoint just before its Logon is numbered: the handshake state published, the store rewound if asked to. */
  function LogonPrepared(cfg: Config, s: Endpoint, env: Env): Endpoint {
    var published := s.(logonSent := env.now, phase := if cfg.initiator then LogonSent else WaitingLogon);
    if cfg.resetOnLogon then
      ClearGap(published.(nextSender := 1, nextTarget := 1, outbound := map[], inbound := map[]))
    else published
  }

  /** send_logon: prepares, numbers and sends the Logon. */
  function SendLogon(cfg: Config, s: Endpoint, env: Env): (Step, bool) {
    var desired := if cfg.initiator then LogonSent else WaitingLogon;
    if s.phase != desired && s.phase != NotConnected && s.phase != Disconnected then (Step(s, []), false)
    else if s.phase == desired && cfg.initiator then (Step(s, []), false)
    else
      var r := Send(cfg, LogonPrepared(cfg, s, env), LogonFields(cfg, s.heartbeat), env);
      if r.out == [] then (Step(r.s.(phase := s.phase), []), false) else (r, true)
  }

  /** static_cast<int>. */
  function ToInt32(n: int): int {
    if n % TWO32 < 0x8000_0000 then n % TWO32 else n % TWO32 - TWO32
  }

  function LogonCompleted(s: Endpoint, env: Env): Step {
    Step(s.(phase := Active, logoutNotified := false), [OnLogon] + Thrown(env))
  }

  /** The endpoint once a Logon's interval and reset flag have been taken over. */
  function LogonTaken(s: Endpoint, hb: int, reset: bool): Endpoint {
    var adopted := s.(heartbeat := ToInt32(hb));
    ClearGap(if reset then adopted.(nextTarget := 1) else adopted)
  }

  /** What answering or completing a Logon does, given the endpoint that took it over. */
  function LogonAnswered(cfg: Config, st: Phase, t: Endpoint, env: Env): Step {
    match st
    case WaitingLogon =>
      var (r, sent) := SendLogon(cfg, t, env);
      if sent && r.s.phase == WaitingLogon then LogonCompleted(r.s, env).After(r.out) else Step(r.s, r.out + [Report])
    case LogonSent => LogonCompleted(t, env)
    case Active => LogoutAndDrop(cfg, t, Ascii("Duplicate Logon"), env)
    case _ => Step(t, [])
  }

  function HandleLogon(cfg: Config, s: Endpoint, m: Message, env: Env): Step {
    var hb := GetInt(m.fields, HEART_BT_INT);
    if hb.None? || hb.value <= 0 then LogoutAndDrop(cfg, s, Ascii("HeartBtInt required"), env)
    else if cfg.initiator && s.phase == LogonSent && hb.value != s.heartbeat then
      LogoutAndDrop(cfg, s, Ascii("HeartBtInt mismatch"), env)
    else
      var reset := GetOr(m.fields, RESET_SEQ_NUM_FLAG, NO) == YES && (s.phase == WaitingLogon || s.phase == LogonSent);
      LogonAnswered(cfg, s.phase, LogonTaken(s, hb.value, reset), env)
  }

  function HandleLogout(cfg: Config, s: Endpoint, m: Message, env: Env): Step {
    var reason := GetOr(m.fields, TEXT, []);
    var ended :=
      if s.phase == LogoutSent then Disconnect(s)
      else
        var r := Send(cfg, s, OfType(LOGOUT), env);
        Disconnect(r.s).After(r.out);
    NotifyLogout(ended.s, reason, env).After(ended.out)
  }

  /** The text of a Reject, or its reason code spelled out. */
  function RejectInfo(m: Message): bytes {
    var text := GetOr(m.fields, TEXT, []);
    if text != [] then text
    else match GetInt(m.fields, SESSION_REJECT_REASON)
      case Some(code) => Ascii("session reject reason ") + DecInt(code)
      case None => []
  }

  function HandleReject(s: Endpoint, m: Message, env: Env): Step {
    var refSeq := match GetInt(m.fields, REF_SEQ_NUM) case Some(v) => v % TWO64 case None => 0;
    var info := RejectInfo(m);
    if s.phase == LogonSent then
      var why := Ascii("Logon rejected: ") + if info == [] then Ascii("unknown") else info;
      var r := NotifyLogout(s, why, env);
      Disconnect(r.s).After(r.out)
    else Step(s, [OnReject(refSeq, info)] + Thrown(env))
  }

  function ProcessAdmin(cfg: Config, s: Endpoint, m: Message, env: Env): Step {
    var t := MsgType(m);
    if t == LOGON then HandleLogon(cfg, s, m, env)
    else if t == LOGOUT then HandleLogout(cfg, s, m, env)
    else if t == TEST_REQUEST then
      Send(cfg, s, HeartbeatFields(GetOr(m.fields, TEST_REQ_ID, Ascii("TEST"))), env)
    else if t == RESEND_REQUEST then HandleResendRequest(cfg, s, m, env)
    else if t == SEQUENCE_RESET then HandleSequenceReset(cfg, s, m, env)
    else if t == REJECT then HandleReject(s, m, env)
    else Step(s, [])
  }

  function ProcessApp(cfg: Config, s: Endpoint, m: Message, env: Env): Step {
    if s.phase != Active then SendReject(cfg, s, SeqNum(m), 99, MsgType(m), 0, Ascii("Session not active"), env)
    else Step(s, [Deliver(m)] + Thrown(env))
  }

  // ---------------------------------------------------------------------
  // One inbound message
  // ---------------------------------------------------------------------

  predicate Identified(cfg: Config, m: Message) {
    Get(m.fields, SENDER_COMP_ID) == Some(cfg.target) && Get(m.fields, TARGET_COMP_ID) == Some(cfg.sender)
  }

  /** A message whose number is accepted, or is not judged in this state. */
  function Accepted(cfg: Config, s: Endpoint, m: Message, judged: bool, env: Env): Step {
    var r :=
      if m.duplicateHeader then
        SendReject(cfg, s, SeqNum(m), 13, MsgType(m), 0, Ascii("Tag appears more than once"), env)
      else if IsAdmin(MsgType(m)) then ProcessAdmin(cfg, s, m, env)
      else ProcessApp(cfg, s, m, env);
    Step(ConsumeInbound(r.s, m, judged), r.out)
  }

  function ProcessMessage(cfg: Config, s0: Endpoint, m: Message, env: Env): Step {
    var s := s0.(lastRecv := env.now, testPending := false);
    var judged := Judged(s.phase);
    if ParseVersion(GetOr(m.fields, BEGIN_STRING, [])) != cfg.version then
      LogoutAndDrop(cfg, s, Ascii("BeginString does not match session"), env)
    else if !Identified(cfg, m) then LogoutAndDrop(cfg, s, Ascii("CompID mismatch"), env)
    else if !Has(m.fields, MSG_TYPE) then
      SendReject(cfg, if judged && !PossDup(m) && SeqNum(m) == s.nextTarget then TakeSlot(s, m) else s,
                 SeqNum(m), 1, [], MSG_TYPE, Ascii("Missing MsgType"), env)
    else if MsgType(m) == SEQUENCE_RESET then HandleSequenceReset(cfg, s, m, env)
    else if judged then
      match ValidateSeqNum(cfg, s, m, env)
      case OutOfSequence(step) => step
      case InSequence => Accepted(cfg, ClearGap(s), m, true, env)
    else Accepted(cfg, s, m, false, env)
  }

  /** on_data: messages are processed one after the other until the session is torn down. */
  function ProcessAll(cfg: Config, s: Endpoint, ms: seq<Message>, env: Env): Step
    decreases |ms|
  {
    if ms == [] || s.phase == Disconnected then Step(s, [])
    else
      var r := ProcessMessage(cfg, s, ms[0], env);
      ProcessAll(cfg, r.s, ms[1..], env).After(r.out)
  }

  // ---------------------------------------------------------------------
  // User calls and the timer
  // ---------------------------------------------------------------------

  /** Session::send: only while Active. */
  function AppSend(cfg: Config, s: Endpoint, fs: seq<Field>, env: Env): Step {
    if s.phase != Active then Step(s, []) else Send(cfg, s, fs, env)
  }

  function Logout(cfg: Config, s: Endpoint, reason: bytes, env: Env): Step {
    if s.phase != Active && s.phase != LogonSent && s.phase != WaitingLogon then Step(s, [])
    else SendLogout(cfg, s, reason, env)
  }

  /** The endpoint at the start of a connection. */
  function FreshConnection(s: Endpoint, env: Env): Endpoint {
    ClearGap(s).(testPending := false, logoutNotified := false, lastSend := env.now, lastRecv := env.now,
                 logonSent := env.now, logoutSent := env.now)
  }

  /** on_transport_connected. */
  function TransportConnected(cfg: Config, s: Endpoint, env: Env): Step {
    var t := FreshConnection(s, env);
    if !cfg.initiator then Step(t.(phase := WaitingLogon), [])
    else
      var idle := if t.phase == NotConnected then t else t.(phase := Disconnected);
      var (r, sent) := SendLogon(cfg, idle, env);
      if sent then r else Step(r.s, r.out + [Report])
  }

  /** 1.2 heartbeat intervals. */
  function Patience(heartbeat: int): int {
    heartbeat * 1000 + heartbeat * 1000 / 5
  }

  function TickHeartbeat(cfg: Config, s: Endpoint, env: Env): Step {
    if env.now - s.lastSend >= s.heartbeat * 1000 then Send(cfg, s, HeartbeatFields([]), env) else Step(s, [])
  }

  /** The TestRequest was not answered in time. */
  predicate TestOverdue(s: Endpoint, now: int) {
    s.testPending && now - s.testSent >= Patience(s.heartbeat)
  }

  function TickTestRequest(cfg: Config, s: Endpoint, env: Env): Step {
    if !s.testPending then
      if env.now - s.lastRecv >= s.heartbeat * 1000 then
        Send(cfg, s.(testSent := env.now, testPending := true), TestRequestFields(env.testId), env)
      else Step(s, [])
    else if TestOverdue(s, env.now) then Disconnect(s).After([OnHeartbeatTimeout])
    else Step(s, [])
  }

  function TickGap(cfg: Config, s: Endpoint, env: Env): Step {
    if s.gapOpen && s.gapAttempts >= 1 && env.now - s.gapLast >= Patience(s.heartbeat) then
      if s.gapAttempts + 1 > MAX_GAP_RETRIES then
        Disconnect(s.(gapAttempts := s.gapAttempts + 1)).After([Report])
      else
        Send(cfg, s.(gapAttempts := s.gapAttempts + 1, gapLast := env.now), ResendRequestFields(s.nextTarget, 0), env)
    else Step(s, [])
  }

  /** A throwing on_heartbeat_timeout leaves the tick at once: the next tick fires it again. */
  function TickActive(cfg: Config, s: Endpoint, env: Env): Step {
    var a := TickHeartbeat(cfg, s, env);
    if TestOverdue(a.s, env.now) && env.throws then Step(a.s, a.out + [OnHeartbeatTimeout])
    else
      var b := TickTestRequest(cfg, a.s, env);
      var c := TickGap(cfg, b.s, env);
      c.After(a.out + b.out)
  }

  /** on_timer. */
  function Tick(cfg: Config, s: Endpoint, env: Env): Step {
    match s.phase
    case Active => TickActive(cfg, s, env)
    case LogonSent => if env.now - s.logonSent >= cfg.logonTimeout * 1000 then Disconnect(s) else Step(s, [])
    case LogoutSent =>
      if env.now - s.logoutSent >= cfg.logoutTimeout * 1000 then
        var r := NotifyLogout(s, Ascii("logout timeout"), env);
        Disconnect(r.s).After(r.out)
      else TickHeartbeat(cfg, s, env)
    case _ => Step(s, [])
  }

  // ---------------------------------------------------------------------
  // Runs
  // ---------------------------------------------------------------------

  /** What can happen to a connected session. */
  datatype Event =
    | Inbound(msg: Message, env: Env)
    | Timer(env: Env)
    | UserSend(fields: seq<Field>, env: Env)
    | UserLogout(reason: bytes, env: Env)

  /** Inbound data is no longer dispatched once the session is torn down. */
  function Perform(cfg: Config, s: Endpoint, ev: Event): Step {
    match ev
    case Inbound(msg, env) => if s.phase == Disconnected then Step(s, []) else ProcessMessage(cfg, s, msg, env)
    case Timer(env) => Tick(cfg, s, env)
    case UserSend(fields, env) => AppSend(cfg, s, fields, env)
    case UserLogout(reason, env) => Logout(cfg, s, reason, env)
  }

  function Run(cfg: Config, s: Endpoint, evs: seq<Event>): Step
    decreases |evs|
  {
    if evs == [] then Step(s, [])
    else
      var r := Perform(cfg, s, evs[0]);
      Run(cfg, r.s, evs[1..]).After(r.out)
  }

  /** The state before the `i`-th event of a run. */
  function StateAt(cfg: Config, s: Endpoint, evs: seq<Event>, i: nat): Endpoint
    requires i <= |evs|
    decreases i
  {
    if i == 0 then s else StateAt(cfg, Perform(cfg, s, evs[0]).s, evs[1..], i - 1)
  }
}
