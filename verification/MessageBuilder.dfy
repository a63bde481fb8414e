/**
 MessageBuilder: the body under construction and the sticky error, updated in place.
 */
module Builder {
  import opened Bytes
  import opened Messages
  import opened Framing
  import opened Serializing
  import opened Parser

  lemma {:induction false} EncFieldsSnoc(fs: seq<Field>, f: Field)
    ensures EncFields(fs + [f]) == EncFields(fs) + EncField(f)
  {
    if fs == [] {
      assert fs + [f] == [f];
      assert EncFields([f]) == EncField(f) + EncFields([]);
    } else {
      assert (fs + [f])[1..] == fs[1..] + [f];
      EncFieldsSnoc(fs[1..], f);
    }
  }

  lemma AllCleanConcat(a: seq<Field>, b: seq<Field>)
    ensures AllClean(a + b) <==> AllClean(a) && AllClean(b)
  {
    if AllClean(a + b) {
      assert forall i :: 0 <= i < |a| ==> a[i] == (a + b)[i];
      assert forall i :: 0 <= i < |b| ==> b[i] == (a + b)[|a| + i];
    }
  }

  class MessageBuilder {
    var beginString: bytes
    var body: bytes
    var lastError: Option<ErrorCode>

    /** The fields appended since Begin, while no error is latched. */
    ghost var written: seq<Field>

    ghost predicate Valid()
      reads this
    {
      lastError.None? ==> body == EncFields(written) && AllClean(written) && Clean(beginString)
    }

    constructor ()
      ensures Valid() && lastError == None && written == []
    {
      beginString, body, lastError, written := [], [], None, [];
    }

    /** Starts a message: clears the error; MsgType is the first body field. */
    method Begin(beginString: bytes, msgType: bytes) returns (ok: bool)
      modifies this
      ensures Valid()
      ensures ok == lastError.None? == (Clean(beginString) && Clean(msgType))
      ensures ok ==> this.beginString == beginString && written == [Field(MSG_TYPE, msgType)]
    {
      this.lastError, this.beginString, this.body, this.written := None, [], [], [];
      if !Clean(beginString) || !Clean(msgType) {
        this.lastError := Some(InvalidField);
        return false;
      }
      this.beginString := beginString;
      ok := Add(MSG_TYPE, msgType);
    }

    /** Appends a field. The first unclean value latches the error; from then on nothing is appended. */
    method Add(tag: nat, value: bytes) returns (ok: bool)
      requires Valid()
      modifies this`body, this`lastError, this`written
      ensures Valid()
      ensures ok == lastError.None? == (old(lastError).None? && Clean(value))
      ensures old(lastError).Some? ==> lastError == old(lastError)
      ensures body == if ok then old(body) + EncField(Field(tag, value)) else old(body)
      ensures written == if ok then old(written) + [Field(tag, value)] else old(written)
    {
      if lastError.Some? {
        return false;
      }
      if !Clean(value) {
        lastError := Some(InvalidField);
        return false;
      }
      EncFieldsSnoc(written, Field(tag, value));
      body := body + Dec(tag) + [EQ] + value + [SOH];
      written := written + [Field(tag, value)];
      return true;
    }

    /** Adds the first occurrence of `tag` in `fs`, if there is one. */
    method AddOptional(fs: seq<Field>, tag: nat) returns (ok: bool)
      requires Valid() && lastError.None?
      modifies this`body, this`lastError, this`written
      ensures Valid() && ok == lastError.None? == AllClean(Optional(fs, tag))
      ensures ok ==> written == old(written) + Optional(fs, tag)
    {
      var v := Get(fs, tag);
      if v.None? {
        return true;
      }
      ok := Add(tag, v.value);
    }

    /** The finished frame; nothing while an error is latched. */
    method Finish() returns (wire: bytes)
      requires Valid()
      ensures lastError.None? ==> wire == Build(beginString, EncFields(written))
      ensures lastError.Some? ==> wire == []
    {
      if lastError.Some? {
        return [];
      }
      wire := BuildFrame(beginString, body);
    }

    /** build(): header and BodyLength in front, CheckSum behind. */
    static method BuildFrame(beginString: bytes, body: bytes) returns (wire: bytes)
      ensures wire == Build(beginString, body)
    {
      hide Checksum;
      assert Dec(8) == [EIGHT] && Dec(9) == [57];
      var header := [EIGHT, EQ] + beginString + [SOH];
      var length := [57, EQ] + Dec(|body|) + [SOH];
      var unsummed := header + length + body;
      assert unsummed == Unsummed(beginString, body);
      var sum := ComputeChecksum(unsummed);
      ChecksumSmall(unsummed);
      wire := unsummed + CHECKSUM_PREFIX + Pad3(sum) + [SOH];
    }

    /** The fixed header fields; `ok` iff all their values are clean. */
    method AddHeader(fs: seq<Field>, e: Envelope) returns (ok: bool)
      requires Valid() && lastError.None? && written == [Field(MSG_TYPE, GetOr(fs, MSG_TYPE, []))]
      requires Clean(GetOr(fs, MSG_TYPE, []))
      modifies this`body, this`lastError, this`written
      ensures Valid() && ok == lastError.None? == AllClean(HeaderFields(fs, e))
      ensures ok ==> written == HeaderFields(fs, e)
    {
      hide Get, Clean, EncField, EncFields, AllClean;
      var all := HeaderFields(fs, e);
      var p, q := Optional(fs, POSS_DUP_FLAG), Optional(fs, ORIG_SENDING_TIME);
      assert all == [all[0]] + [all[1]] + [all[2]] + [all[3]] + p + q + [Field(SENDING_TIME, e.time)];
      HeaderClean(fs, e);
      ok := Add(SENDER_COMP_ID, e.sender);
      if !ok { return; }
      ok := Add(TARGET_COMP_ID, e.target);
      if !ok { return; }
      ok := Add(MSG_SEQ_NUM, DecInt(ToInt64(e.seqNum)));
      if !ok { return; }
      ok := AddOptional(fs, POSS_DUP_FLAG);
      if !ok { return; }
      ok := AddOptional(fs, ORIG_SENDING_TIME);
      if !ok { return; }
      ok := Add(SENDING_TIME, e.time);
    }

    /** The wire form of a message, or nothing when a value may not be written. */
    method TrySerialize(fs: seq<Field>, e: Envelope) returns (wire: Option<bytes>)
      modifies this
      ensures Valid() && wire == Serialize(fs, e)
      ensures lastError.None? <==> wire.Some?
    {
      hide Get, EncField, Build, Clean, HeaderFields, EncFields, AllClean;
      FirstHeaderClean(fs, e);
      AllCleanConcat(HeaderFields(fs, e), BodyFields(fs));
      var ok := Begin(e.beginString, GetOr(fs, MSG_TYPE, []));
      if !ok {
        return None;
      }
      ok := AddHeader(fs, e);
      if !ok {
        return None;
      }
      ghost var header := HeaderFields(fs, e);
      assert fs[0..] == fs;
      AllCleanConcat(header, []);
      assert header + [] == header;
      for i := 0 to |fs|
        invariant Valid() && lastError.None? && beginString == e.beginString
        invariant written + BodyFields(fs[i..]) == header + BodyFields(fs)
      {
        var f := fs[i];
        assert fs[i..][1..] == fs[i + 1..];
        if !Handled(f.tag) {
          AllCleanConcat(written, BodyFields(fs[i..]));
          HeadClean(BodyFields(fs[i..]));
          assert written + BodyFields(fs[i..]) == written + [f] + BodyFields(fs[i + 1..]);
          ok := Add(f.tag, f.value);
          if !ok {
            AllCleanConcat(header, BodyFields(fs));
            return None;
          }
        }
      }
      assert written == header + BodyFields(fs);
      var frame := BuildFrame(beginString, body);
      return Some(frame);
    }
  }

  lemma ChecksumSmall(s: bytes)
    ensures Checksum(s) < 1000
  {
  }

  lemma HeadClean(fs: seq<Field>)
    ensures fs != [] && AllClean(fs) ==> Clean(fs[0].value)
  {
  }

  lemma HeaderClean(fs: seq<Field>, e: Envelope)
    ensures AllClean(HeaderFields(fs, e)) <==>
      && Clean(GetOr(fs, MSG_TYPE, [])) && Clean(e.sender) && Clean(e.target) && Clean(DecInt(ToInt64(e.seqNum)))
      && AllClean(Optional(fs, POSS_DUP_FLAG)) && AllClean(Optional(fs, ORIG_SENDING_TIME)) && Clean(e.time)
  {
    hide Get, Clean;
    var all := HeaderFields(fs, e);
    var p, q := Optional(fs, POSS_DUP_FLAG), Optional(fs, ORIG_SENDING_TIME);
    assert all == all[..4] + p + q + [Field(SENDING_TIME, e.time)];
    AllCleanConcat(all[..4] + p + q, [Field(SENDING_TIME, e.time)]);
    assert AllClean([Field(SENDING_TIME, e.time)]) <==> Clean([Field(SENDING_TIME, e.time)][0].value);
    AllCleanConcat(all[..4] + p, q);
    AllCleanConcat(all[..4], p);
    assert AllClean(all[..4]) <==> Clean(all[0].value) && Clean(all[1].value) && Clean(all[2].value) && Clean(all[3].value);
  }

  lemma FirstHeaderClean(fs: seq<Field>, e: Envelope)
    ensures AllClean(HeaderFields(fs, e)) ==> Clean(GetOr(fs, MSG_TYPE, []))
  {
    HeaderClean(fs, e);
  }
}
