/**
 The wire form of a message: header fields in their fixed order, body fields in stored order, BodyLength and
 CheckSum computed.
 */
module Serializing {
  import opened Bytes
  import opened Messages
  import opened Framing

  function EncField(f: Field): (s: bytes)
    ensures |s| >= 3
  {
    Dec(f.tag) + [EQ] + f.value + [SOH]
  }

  function EncFields(fs: seq<Field>): bytes {
    if fs == [] then [] else EncField(fs[0]) + EncFields(fs[1..])
  }

  /** Three digits, zero padded. */
  function Pad3(n: nat): bytes
    requires n < 1000
  {
    [48 + n / 100, 48 + n / 10 % 10, 48 + n % 10]
  }

  const CHECKSUM_PREFIX: bytes := [49, 48, EQ]  // "10="

  /** Everything before the trailer: BeginString, BodyLength and the body. */
  function Unsummed(beginString: bytes, body: bytes): bytes {
    EncField(Field(BEGIN_STRING, beginString)) + EncField(Field(BODY_LENGTH, Dec(|body|))) + body
  }

  /** MessageBuilder::build. */
  function Build(beginString: bytes, body: bytes): bytes {
    var u := Unsummed(beginString, body);
    u + CHECKSUM_PREFIX + Pad3(Checksum(u)) + [SOH]
  }

  /** Tags the serializer writes itself or never writes; they are not copied from the message. */
  predicate Handled(tag: nat) {
    tag in {8, 9, 10, 34, 35, 43, 49, 52, 56, 122}
  }

  function BodyFields(fs: seq<Field>): seq<Field> {
    if fs == [] then []
    else if Handled(fs[0].tag) then BodyFields(fs[1..])
    else [fs[0]] + BodyFields(fs[1..])
  }

  function Optional(fs: seq<Field>, tag: nat): seq<Field> {
    match Get(fs, tag) case Some(v) => [Field(tag, v)] case None => []
  }

  /** The arguments of try_serialize beside the message. */
  datatype Envelope = Envelope(beginString: bytes, seqNum: nat, sender: bytes, target: bytes, time: bytes)

  function HeaderFields(fs: seq<Field>, e: Envelope): seq<Field> {
    [Field(MSG_TYPE, GetOr(fs, MSG_TYPE, [])), Field(SENDER_COMP_ID, e.sender), Field(TARGET_COMP_ID, e.target),
     Field(MSG_SEQ_NUM, DecInt(ToInt64(e.seqNum)))]
    + Optional(fs, POSS_DUP_FLAG) + Optional(fs, ORIG_SENDING_TIME) + [Field(SENDING_TIME, e.time)]
  }

  /** The fields between BodyLength and CheckSum, in emission order. */
  function SentFields(fs: seq<Field>, e: Envelope): seq<Field> {
    HeaderFields(fs, e) + BodyFields(fs)
  }

  predicate AllClean(fs: seq<Field>) {
    forall i :: 0 <= i < |fs| ==> Clean(fs[i].value)
  }

  /** try_serialize: the wire bytes, or nothing when some value holds NUL or SOH. */
  function Serialize(fs: seq<Field>, e: Envelope): Option<bytes> {
    if Clean(e.beginString) && AllClean(SentFields(fs, e)) then
      Some(Build(e.beginString, EncFields(SentFields(fs, e))))
    else None
  }
}
