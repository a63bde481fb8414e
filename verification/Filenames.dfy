/**
 File name prefixes of a session: component sanitisation and when distinct sessions get distinct names.
 */
module Filenames {
  import opened Bytes

  const CAP: nat := 32

  // ---------------------------------------------------------------------
  // Encoding
  // ---------------------------------------------------------------------

  predicate Plain(u: byte) {
    65 <= u <= 90 || 97 <= u <= 122 || IsDigit(u) || u == 95 || u == MINUS
  }

  function Hex(k: nat): (c: byte)
    requires k < 16
    ensures Plain(c)
  {
    if k < 10 then 48 + k else 55 + k
  }

  function Escape(u: byte): bytes {
    if Plain(u) then [u] else [PERCENT, Hex(u / 16), Hex(u % 16)]
  }

  function Encode(raw: bytes): bytes {
    if raw == [] then [] else Encode(raw[..|raw| - 1]) + Escape(raw[|raw| - 1])
  }

  function Xor8(a: byte, b: byte): byte {
    ((a as bv8) ^ (b as bv8)) as int
  }

  /** One round of FNV-1a on 64 bits: exclusive-or into the low byte, then multiply. */
  function HashRound(h: nat, c: byte): nat {
    (h - h % 256 + Xor8(h % 256, c)) * 0x100_0000_01b3 % TWO64
  }

  function Hash(raw: bytes): nat {
    if raw == [] then 0xcbf2_9ce4_8422_2325 else HashRound(Hash(raw[..|raw| - 1]), raw[|raw| - 1])
  }

  /** The low `digits` hexadecimal digits of a hash. */
  function HexTail(h: nat, digits: nat): (s: bytes)
    ensures |s| == digits && forall i :: 0 <= i < |s| ==> Plain(s[i])
  {
    if digits == 0 then [] else HexTail(h / 16, digits - 1) + [Hex(h % 16)]
  }

  const EMPTY_MARK: bytes := [PERCENT, 48]

  function Sanitize(raw: bytes): bytes {
    if raw == [] then EMPTY_MARK
    else if |raw| <= CAP then Encode(raw)
    else Encode(raw[..CAP]) + [TILDE] + HexTail(Hash(raw), 8)
  }

  datatype SessionId = SessionId(sender: bytes, target: bytes, qualifier: bytes)

  function Prefix(id: SessionId): bytes {
    var pair := Sanitize(id.sender) + [TILDE] + Sanitize(id.target);
    if id.qualifier == [] then pair else pair + [TILDE] + Sanitize(id.qualifier)
  }

  /** The loops of sanitize_component. */
  method SanitizeComponent(raw: bytes) returns (out: bytes)
    ensures out == Sanitize(raw)
  {
    hide Escape, HashRound, Hex;
    if raw == [] { return EMPTY_MARK; }
    var n := Min(|raw|, CAP);
    out := [];
    for i := 0 to n
      invariant out == Encode(raw[..i])
    {
      assert raw[..i + 1][..i] == raw[..i];
      out := out + Escape(raw[i]);
    }
    if |raw| <= CAP {
      assert raw[..n] == raw;
    } else {
      var h := 0xcbf2_9ce4_8422_2325;
      for i := 0 to |raw|
        invariant h == Hash(raw[..i])
      {
        assert raw[..i + 1][..i] == raw[..i];
        h := HashRound(h, raw[i]);
      }
      assert raw[..|raw|] == raw;
      out := out + [TILDE] + HexTail(h, 8);
    }
  }

  method MakePrefix(id: SessionId) returns (prefix: bytes)
    ensures prefix == Prefix(id)
  {
    prefix := SanitizeComponent(id.sender);
    prefix := prefix + [TILDE];
    var target := SanitizeComponent(id.target);
    prefix := prefix + target;
    if id.qualifier != [] {
      prefix := prefix + [TILDE];
      var qualifier := SanitizeComponent(id.qualifier);
      prefix := prefix + qualifier;
    }
  }

  // ---------------------------------------------------------------------
  // Decoding
  // ---------------------------------------------------------------------

  function Unhex(c: byte): nat {
    if c >= 65 then c - 55 else if c >= 48 then c - 48 else 0
  }

  /** Reads an encoded component back, escape by escape. */
  function Decode(s: bytes): bytes {
    if s == [] then []
    else if s[0] == PERCENT && |s| >= 3 then [(Unhex(s[1]) * 16 + Unhex(s[2])) % 256] + Decode(s[3..])
    else [s[0]] + Decode(s[1..])
  }

  function Unsanitize(s: bytes): bytes {
    if s == EMPTY_MARK then [] else Decode(s)
  }

  lemma HexReads(k: nat)
    requires k < 16
    ensures Unhex(Hex(k)) == k
  {
  }

  lemma {:induction false} EscapeDecodes(u: byte, rest: bytes)
    ensures Decode(Escape(u) + rest) == [u] + Decode(rest)
  {
    var s := Escape(u) + rest;
    if Plain(u) {
      assert s[1..] == rest;
    } else {
      HexReads(u / 16);
      HexReads(u % 16);
      assert s[3..] == rest && s[0] == PERCENT && s[1] == Hex(u / 16) && s[2] == Hex(u % 16);
    }
  }

  lemma {:induction false} EncodeDecodes(raw: bytes, rest: bytes)
    ensures Decode(Encode(raw) + rest) == raw + Decode(rest)
    decreases |raw|
  {
    hide Escape, Decode;
    if raw == [] {
      assert Encode(raw) + rest == rest;
    } else {
      var most, u := raw[..|raw| - 1], raw[|raw| - 1];
      assert Encode(raw) + rest == Encode(most) + (Escape(u) + rest);
      EncodeDecodes(most, Escape(u) + rest);
      EscapeDecodes(u, rest);
      assert raw == most + [u];
    }
  }

  lemma EscapeHead(u: byte)
    ensures |Escape(u)| >= 1 && (Escape(u)[0] == PERCENT ==> |Escape(u)| == 3)
  {
  }

  /** An encoding that starts with an escape has at least three bytes, so the mark for an empty component is no encoding. */
  lemma {:induction false} EncodeNotMark(raw: bytes)
    requires raw != []
    ensures Encode(raw) != [] && (Encode(raw)[0] == PERCENT ==> |Encode(raw)| >= 3)
    ensures Encode(raw) != EMPTY_MARK
  {
    hide Escape;
    var last := raw[|raw| - 1];
    EscapeHead(last);
    if |raw| > 1 {
      EncodeNotMark(raw[..|raw| - 1]);
    } else {
      assert raw[..0] == [] && Encode([]) == [];
      assert Encode(raw) == Escape(last);
    }
  }

  /** A component of at most 32 bytes can be read back. */
  lemma SanitizeDecodes(raw: bytes)
    requires |raw| <= CAP
    ensures Unsanitize(Sanitize(raw)) == raw
  {
    if raw != [] {
      EncodeNotMark(raw);
      EncodeDecodes(raw, []);
      assert Encode(raw) + [] == Encode(raw) && raw + [] == raw;
    }
  }

  lemma {:induction false} EncodeNoTilde(raw: bytes)
    ensures TILDE !in Encode(raw)
  {
    if raw != [] { EncodeNoTilde(raw[..|raw| - 1]); }
  }

  lemma SanitizeNoTilde(raw: bytes)
    requires |raw| <= CAP
    ensures TILDE !in Sanitize(raw)
  {
    EncodeNoTilde(raw);
  }

  /** The parts of a name between tildes. */
  function Split(s: bytes): seq<bytes>
    decreases |s|
  {
    var k := FindEither(s, 0, TILDE, TILDE);
    if k == |s| then [s] else [s[..k]] + Split(s[k + 1..])
  }

  lemma {:induction false} SplitFirst(a: bytes, rest: bytes)
    requires TILDE !in a
    ensures Split(a + [TILDE] + rest) == [a] + Split(rest)
  {
    var s := a + [TILDE] + rest;
    assert s[|a|] == TILDE && forall i :: 0 <= i < |a| ==> s[i] == a[i];
    FindEitherIs(s, 0, TILDE, TILDE, |a|);
    assert s[..|a|] == a && s[|a| + 1..] == rest;
  }

  lemma {:induction false} SplitOne(a: bytes)
    requires TILDE !in a
    ensures Split(a) == [a]
  {
  }

  predicate Short(id: SessionId) {
    |id.sender| <= CAP && |id.target| <= CAP && |id.qualifier| <= CAP
  }

  /** A prefix read back. */
  function DecodePrefix(s: bytes): Option<SessionId> {
    var parts := Split(s);
    if |parts| == 2 then Some(SessionId(Unsanitize(parts[0]), Unsanitize(parts[1]), []))
    else if |parts| == 3 then Some(SessionId(Unsanitize(parts[0]), Unsanitize(parts[1]), Unsanitize(parts[2])))
    else None
  }

  // ---------------------------------------------------------------------
  // Main results
  // ---------------------------------------------------------------------

  /** With components of at most 32 bytes the whole session identity can be read back from the prefix. */
  lemma PrefixDecodes(id: SessionId)
    requires Short(id)
    ensures DecodePrefix(Prefix(id)) == Some(id)
  {
    hide Sanitize, Unsanitize, Split;
    var a, b, c := Sanitize(id.sender), Sanitize(id.target), Sanitize(id.qualifier);
    SanitizeDecodes(id.sender);
    SanitizeDecodes(id.target);
    SanitizeDecodes(id.qualifier);
    SanitizeNoTilde(id.sender);
    SanitizeNoTilde(id.target);
    SanitizeNoTilde(id.qualifier);
    if id.qualifier == [] {
      SplitFirst(a, b);
      SplitOne(b);
    } else {
      assert Prefix(id) == a + [TILDE] + (b + [TILDE] + c);
      SplitFirst(a, b + [TILDE] + c);
      SplitFirst(b, c);
      SplitOne(c);
    }
  }

  /** What comes after the first 32 bytes of an over-long component. */
  lemma {:induction false} LongSplits(raw: bytes, rest: bytes)
    requires |raw| > CAP
    ensures
      var f := HexTail(Hash(raw), 8);
      && Split(Sanitize(raw) + [TILDE] + rest) == [Sanitize(raw[..CAP])] + Split(f + [TILDE] + rest)
      && Split(Sanitize(raw)) == [Sanitize(raw[..CAP]), f]
      && Unsanitize(Sanitize(raw[..CAP])) != raw
  {
    hide Hash, HexTail, Encode, Split, Unsanitize;
    var a, f := Encode(raw[..CAP]), HexTail(Hash(raw), 8);
    EncodeNoTilde(raw[..CAP]);
    assert Sanitize(raw) + [TILDE] + rest == a + [TILDE] + (f + [TILDE] + rest);
    SplitFirst(a, f + [TILDE] + rest);
    SplitFirst(a, f);
    SplitOne(f);
    SanitizeDecodes(raw[..CAP]);
  }

  /** It can be read back exactly when no component is longer. */
  lemma PrefixDecodesIff(id: SessionId)
    ensures DecodePrefix(Prefix(id)) == Some(id) <==> Short(id)
  {
    hide Sanitize, Unsanitize, Split;
    var a, b, c := Sanitize(id.sender), Sanitize(id.target), Sanitize(id.qualifier);
    if Short(id) {
      PrefixDecodes(id);
    } else if |id.sender| > CAP {
      LongSplits(id.sender, b);
      LongSplits(id.sender, b + [TILDE] + c);
      assert a + [TILDE] + b + [TILDE] + c == a + [TILDE] + (b + [TILDE] + c);
    } else if |id.target| > CAP {
      SanitizeNoTilde(id.sender);
      SplitFirst(a, b);
      SplitFirst(a, b + [TILDE] + c);
      LongSplits(id.target, c);
      assert a + [TILDE] + b + [TILDE] + c == a + [TILDE] + (b + [TILDE] + c);
    } else {
      SanitizeNoTilde(id.sender);
      SanitizeNoTilde(id.target);
      assert a + [TILDE] + b + [TILDE] + c == a + [TILDE] + (b + [TILDE] + c);
      SplitFirst(a, b + [TILDE] + c);
      SplitFirst(b, c);
      LongSplits(id.qualifier, []);
    }
  }

  /** So distinct sessions get distinct names. */
  lemma PrefixInjective(x: SessionId, y: SessionId)
    requires Short(x) && Short(y) && x != y
    ensures Prefix(x) != Prefix(y)
  {
    PrefixDecodes(x);
    PrefixDecodes(y);
  }

  lemma {:induction false} EncodePlain(s: bytes)
    requires forall i :: 0 <= i < |s| ==> Plain(s[i])
    ensures Encode(s) == s
  {
    if s != [] {
      EncodePlain(s[..|s| - 1]);
      assert s == s[..|s| - 1] + [s[|s| - 1]];
    }
  }

  /**
   The length limit is needed, because the fingerprint is set off by the same separator. A session whose sender is longer
   has the name of the session with the first 32 bytes for sender, the fingerprint for target and its own target for
   qualifier, exactly when it has a target and no qualifier.
   */
  lemma {:induction false} LongSenderCollides(x: SessionId)
    requires |x.sender| > CAP
    ensures
      var y := SessionId(x.sender[..CAP], HexTail(Hash(x.sender), 8), x.target);
      x != y && (Prefix(x) == Prefix(y) <==> x.target != [] && x.qualifier == [])
  {
    hide Hash, HexTail, Encode;
    var f := HexTail(Hash(x.sender), 8);
    assert |x.sender[..CAP]| == CAP;
    EncodePlain(f);
    var a, b := Encode(x.sender[..CAP]), Sanitize(x.target);
    assert a + [TILDE] + f + [TILDE] + b == (a + [TILDE] + f) + [TILDE] + b;
  }

  /** Likewise a session whose target is longer and the one with the fingerprint for qualifier: when it has none itself. */
  lemma {:induction false} LongTargetCollides(x: SessionId)
    requires |x.target| > CAP
    ensures
      var y := SessionId(x.sender, x.target[..CAP], HexTail(Hash(x.target), 8));
      x != y && (Prefix(x) == Prefix(y) <==> x.qualifier == [])
  {
    hide Hash, HexTail, Encode;
    var f := HexTail(Hash(x.target), 8);
    assert |x.target[..CAP]| == CAP;
    EncodePlain(f);
    var a, b := Sanitize(x.sender), Encode(x.target[..CAP]);
    assert a + [TILDE] + (b + [TILDE] + f) == (a + [TILDE] + b) + [TILDE] + f;
  }
}
