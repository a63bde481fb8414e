/**
 Message as an object: the field list changed in place by set, add and remove.
 */
module MessageObjects {
  import opened Bytes
  import opened Messages

  /** What comes after the first occurrence of a tag. */
  function Behind(fs: seq<Field>, at: nat): seq<Field> {
    if at < |fs| then fs[at + 1..] else []
  }

  /** SetField on a list whose first occurrence of the tag is known. */
  lemma {:induction false} SetFieldAt(fs: seq<Field>, tag: nat, value: bytes, at: nat)
    requires Clean(value) && at <= |fs| && forall i :: 0 <= i < at ==> fs[i].tag != tag
    requires at < |fs| ==> fs[at].tag == tag
    ensures SetField(fs, tag, value) == fs[..at] + ([Field(tag, value)] + Behind(fs, at))
    decreases at
  {
    if at > 0 {
      var rest := fs[1..];
      assert forall i :: 0 <= i < at - 1 ==> rest[i] == fs[i + 1];
      SetFieldAt(rest, tag, value, at - 1);
      assert Behind(rest, at - 1) == Behind(fs, at);
      assert [fs[0]] + rest[..at - 1] == fs[..at];
      Associates([fs[0]], rest[..at - 1], [Field(tag, value)] + Behind(fs, at));
    } else {
      assert fs[..at] == [];
    }
  }

  lemma {:induction false} UncleanSet(fs: seq<Field>, tag: nat, value: bytes)
    ensures !Clean(value) ==> SetField(fs, tag, value) == fs
  {
  }

  /** The fields with every occurrence of a tag taken out. */
  function Without(fs: seq<Field>, tag: nat): seq<Field> {
    if fs == [] then [] else (if fs[0].tag == tag then [] else [fs[0]]) + Without(fs[1..], tag)
  }

  lemma {:induction false} WithoutStep(fs: seq<Field>, i: nat, tag: nat)
    requires i < |fs|
    ensures Without(fs[i..], tag)
         == if fs[i].tag == tag then Without(fs[i + 1..], tag) else [fs[i]] + Without(fs[i + 1..], tag)
  {
    assert fs[i..][1..] == fs[i + 1..];
  }

  lemma {:induction false} WithoutGet(fs: seq<Field>, tag: nat, other: nat)
    ensures GetAll(Without(fs, tag), other) == if other == tag then [] else GetAll(fs, other)
  {
    if fs != [] {
      WithoutGet(fs[1..], tag, other);
      var rest := Without(fs[1..], tag);
      assert [] + rest == rest && ([fs[0]] + rest)[1..] == rest;
    }
  }

  /** Setting a tag and then removing it undoes both, whatever was set. */
  lemma {:induction false} SetThenRemove(fs: seq<Field>, tag: nat, value: bytes)
    ensures Without(SetField(fs, tag, value), tag) == Without(fs, tag)
  {
    if Clean(value) {
      if fs == [] {
        assert [Field(tag, value)][1..] == [];
      } else if fs[0].tag == tag {
        assert SetField(fs, tag, value)[1..] == fs[1..];
      } else {
        SetThenRemove(fs[1..], tag, value);
        assert SetField(fs, tag, value)[1..] == SetField(fs[1..], tag, value);
      }
    }
  }

  lemma {:induction false} GetAt(fs: seq<Field>, tag: nat, at: nat)
    requires at <= |fs| && forall i :: 0 <= i < at ==> fs[i].tag != tag
    requires at < |fs| ==> fs[at].tag == tag
    ensures Get(fs, tag) == if at < |fs| then Some(fs[at].value) else None
    decreases at
  {
    if at > 0 {
      assert forall i :: 0 <= i < at - 1 ==> fs[1..][i] == fs[i + 1];
      GetAt(fs[1..], tag, at - 1);
    }
  }

  method HasInvalidWireChars(value: bytes) returns (invalid: bool)
    ensures invalid <==> !Clean(value)
  {
    for i := 0 to |value|
      invariant forall j :: 0 <= j < i ==> value[j] != 0 && value[j] != SOH
    {
      if value[i] == 0 || value[i] == SOH { return true; }
    }
    invalid := false;
  }

  class MessageObject {
    var fields: seq<Field>

    constructor (msgType: bytes)
      ensures fields == SetField([], MSG_TYPE, msgType)
    {
      fields := if Clean(msgType) then [Field(MSG_TYPE, msgType)] else [];
    }

    /** Index of the first occurrence of a tag, the length if there is none. */
    method Find(tag: nat) returns (at: nat)
      ensures at <= |fields| && (forall i :: 0 <= i < at ==> fields[i].tag != tag)
      ensures at < |fields| ==> fields[at].tag == tag
    {
      at := 0;
      while at < |fields| && fields[at].tag != tag
        invariant at <= |fields| && forall i :: 0 <= i < at ==> fields[i].tag != tag
      {
        at := at + 1;
      }
    }

    method Set(tag: nat, value: bytes) returns (ok: bool)
      modifies this
      ensures fields == SetField(old(fields), tag, value) && ok == Clean(value)
    {
      hide SetField, Clean;
      var invalid := HasInvalidWireChars(value);
      UncleanSet(fields, tag, value);
      if invalid { return false; }
      var at := Find(tag);
      SetFieldAt(fields, tag, value, at);
      if at < |fields| {
        assert fields[at := Field(tag, value)] == fields[..at] + ([Field(tag, value)] + fields[at + 1..]);
        fields := fields[at := Field(tag, value)];
      } else {
        assert fields[..at] == fields;
        fields := fields + [Field(tag, value)];
      }
      ok := true;
    }

    method Add(tag: nat, value: bytes) returns (ok: bool)
      modifies this
      ensures fields == (if ok then old(fields) + [Field(tag, value)] else old(fields)) && ok == Clean(value)
    {
      var invalid := HasInvalidWireChars(value);
      if invalid { return false; }
      fields := fields + [Field(tag, value)];
      ok := true;
    }

    method GetFirst(tag: nat) returns (value: Option<bytes>)
      ensures value == Get(fields, tag)
    {
      var at := Find(tag);
      GetAt(fields, tag, at);
      value := if at < |fields| then Some(fields[at].value) else None;
    }

    method Collect(tag: nat) returns (values: seq<bytes>)
      ensures values == GetAll(fields, tag)
    {
      values := [];
      for i := 0 to |fields|
        invariant values + GetAll(fields[i..], tag) == GetAll(fields, tag)
      {
        assert fields[i..][1..] == fields[i + 1..];
        if fields[i].tag == tag { values := values + [fields[i].value]; }
      }
    }

    method Remove(tag: nat)
      modifies this
      ensures fields == Without(old(fields), tag)
    {
      var kept := [];
      for i := 0 to |fields|
        invariant fields == old(fields) && kept + Without(fields[i..], tag) == Without(fields, tag)
      {
        WithoutStep(fields, i, tag);
        if fields[i].tag != tag {
          Associates(kept, [fields[i]], Without(fields[i + 1..], tag));
          kept := kept + [fields[i]];
        }
      }
      fields := kept;
    }
  }
}
