/**
 FIX messages: an ordered list of Tag=Value fields with first-occurrence-wins lookup.
 */
module Messages {
  import opened Bytes

  // Tags named by the parser, the serializer and the session layer.
  const BEGIN_SEQ_NO := 7
  const BEGIN_STRING := 8
  const BODY_LENGTH := 9
  const CHECK_SUM := 10
  const END_SEQ_NO := 16
  const MSG_SEQ_NUM := 34
  const MSG_TYPE := 35
  const NEW_SEQ_NO := 36
  const POSS_DUP_FLAG := 43
  const REF_SEQ_NUM := 45
  const SENDER_COMP_ID := 49
  const SENDING_TIME := 52
  const TARGET_COMP_ID := 56
  const TEXT := 58
  const ENCRYPT_METHOD := 98
  const HEART_BT_INT := 108
  const TEST_REQ_ID := 112
  const ORIG_SENDING_TIME := 122
  const GAP_FILL_FLAG := 123
  const RESET_SEQ_NUM_FLAG := 141
  const REF_TAG_ID := 371
  const REF_MSG_TYPE := 372
  const SESSION_REJECT_REASON := 373

  /** The standard-header tags that may appear at most once in a message. */
  const STANDARD_HEADER: seq<nat> := [
    8, 9, 35, 49, 50, 142, 56, 57, 143, 115, 144, 128, 145, 90, 91, 34, 43, 97, 122, 52, 212, 618, 347, 369, 627,
    1128, 1129]

  predicate IsHeaderTag(tag: nat) {
    tag in STANDARD_HEADER
  }

  datatype Field = Field(tag: nat, value: bytes)

  datatype Message = Message(fields: seq<Field>, raw: bytes, duplicateHeader: bool)

  /** No NUL and no SOH: a value that may be put on the wire. */
  predicate Clean(value: bytes) {
    forall i :: 0 <= i < |value| ==> value[i] != 0 && value[i] != SOH
  }

  // ---------------------------------------------------------------------
  // Field access
  // ---------------------------------------------------------------------

  /** First occurrence of a tag. */
  function Get(fs: seq<Field>, tag: nat): Option<bytes> {
    if fs == [] then None else if fs[0].tag == tag then Some(fs[0].value) else Get(fs[1..], tag)
  }

  predicate Has(fs: seq<Field>, tag: nat) {
    Get(fs, tag).Some?
  }

  /** Every occurrence of a tag, in stored order. */
  function GetAll(fs: seq<Field>, tag: nat): seq<bytes> {
    if fs == [] then [] else (if fs[0].tag == tag then [fs[0].value] else []) + GetAll(fs[1..], tag)
  }

  function GetOr(fs: seq<Field>, tag: nat, default: bytes): bytes {
    match Get(fs, tag) case Some(v) => v case None => default
  }

  function GetInt(fs: seq<Field>, tag: nat): Option<int> {
    match Get(fs, tag) case Some(v) => ParseInt64(v) case None => None
  }

  /** Upsert: replaces the first occurrence or appends; an unclean value leaves the message unchanged. */
  function SetField(fs: seq<Field>, tag: nat, value: bytes): (r: seq<Field>)
    ensures Clean(value) ==> Get(r, tag) == Some(value)
    ensures !Clean(value) ==> r == fs
  {
    if !Clean(value) then fs
    else if fs == [] then [Field(tag, value)]
    else if fs[0].tag == tag then [Field(tag, value)] + fs[1..]
    else [fs[0]] + SetField(fs[1..], tag, value)
  }

  /** SetField changes no other tag. */
  lemma {:induction false} SetFieldOther(fs: seq<Field>, tag: nat, value: bytes, other: nat)
    requires other != tag
    ensures Get(SetField(fs, tag, value), other) == Get(fs, other)
    ensures GetAll(SetField(fs, tag, value), other) == GetAll(fs, other)
  {
    if Clean(value) && fs != [] && fs[0].tag != tag {
      SetFieldOther(fs[1..], tag, value, other);
    }
  }

  lemma {:induction false} GetConcat(a: seq<Field>, b: seq<Field>, tag: nat)
    ensures Get(a + b, tag) == if Has(a, tag) then Get(a, tag) else Get(b, tag)
    ensures GetAll(a + b, tag) == GetAll(a, tag) + GetAll(b, tag)
  {
    if a == [] {
      assert a + b == b;
    } else {
      TailOfConcat(a, b);
      GetConcat(a[1..], b, tag);
      Associates(if a[0].tag == tag then [a[0].value] else [], GetAll(a[1..], tag), GetAll(b, tag));
    }
  }

  /** Lookup is the head of the list of occurrences. */
  lemma {:induction false} GetIsFirst(fs: seq<Field>, tag: nat)
    ensures Get(fs, tag) == if GetAll(fs, tag) == [] then None else Some(GetAll(fs, tag)[0])
  {
    if fs != [] { GetIsFirst(fs[1..], tag); }
  }

  lemma {:induction false} GetNone(fs: seq<Field>, tag: nat)
    ensures Get(fs, tag) == None <==> forall i :: 0 <= i < |fs| ==> fs[i].tag != tag
  {
    if fs != [] {
      GetNone(fs[1..], tag);
      assert forall i :: 1 <= i < |fs| ==> fs[i] == fs[1..][i - 1];
    }
  }

  // ---------------------------------------------------------------------
  // Header accessors
  // ---------------------------------------------------------------------

  const YES: bytes := [89]
  const NO: bytes := [78]

  function MsgType(m: Message): bytes {
    GetOr(m.fields, MSG_TYPE, [])
  }

  /** MsgSeqNum read as a signed number and cast to SeqNum (std::uint64_t). */
  function SeqNum(m: Message): (n: nat)
    ensures n < TWO64
  {
    match GetInt(m.fields, MSG_SEQ_NUM) case Some(v) => v % TWO64 case None => 0
  }

  predicate PossDup(m: Message) {
    GetOr(m.fields, POSS_DUP_FLAG, NO) == YES
  }
}
