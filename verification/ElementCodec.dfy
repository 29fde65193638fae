/**
 The element format of chains/atomic: a dbElement goes through a codec manager and a linear codec
 with their default bounds. It can be marshalled exactly when its size is within the bound, and then
 it comes back unchanged.
 */
module ElementCodec {
  import opened Wrappers
  import opened Bytes
  import opened Codec
  import opened CodecRoundTrip
  import CodecManager
  import NodeCodec
  import opened ReflectCodec
  import opened Mailbox

  const CONFIG := Config(map[], map[], {}, MAX_ELEMENT_SIZE)
  const BYTES := TSlice(TUint(1))

  const BOOL_FIELD := Field(true, MAX_ELEMENT_SIZE, TBool)
  const VALUE_FIELD := Field(true, MAX_ELEMENT_SIZE, BYTES)
  const TRAITS_FIELD := Field(true, MAX_ELEMENT_SIZE, TSlice(BYTES))

  // Present, Value, Traits
  const ELEMENT_TYPE := TStruct("dbElement", [BOOL_FIELD, VALUE_FIELD, TRAITS_FIELD])

  function BytesValue(b: bytes): Value {
    VSeq(Ints(b))
  }

  function TraitValues(traits: seq<Trait>): seq<Value> {
    seq(|traits|, i requires 0 <= i < |traits| => BytesValue(traits[i]))
  }

  function ToValue(e: DbElement): Value {
    VStruct([VBool(e.present), BytesValue(e.value), VSeq(TraitValues(e.traits))])
  }

  function Encoded(e: DbElement): Result<bytes, CodecManager.Error> {
    CodecManager.Message(map[0 := CONFIG], MAX_ELEMENT_SIZE, 0, ELEMENT_TYPE, ToValue(e))
  }

  function ToTraits(vs: seq<Value>): Option<seq<Trait>> {
    if forall v | v in vs :: NodeCodec.ToBytes(v).Some? then
      Some(seq(|vs|, i requires 0 <= i < |vs| && vs[i] in vs => NodeCodec.ToBytes(vs[i]).value))
    else None
  }

  function FromValue(v: Value): Option<DbElement> {
    if v.VStruct? && |v.fields| == 3 && v.fields[0].VBool? && v.fields[2].VSeq? then
      match (NodeCodec.ToBytes(v.fields[1]), ToTraits(v.fields[2].elems))
      case (Some(value), Some(traits)) => Some(DbElement(v.fields[0].b, value, traits))
      case _ => None
    else None
  }

  function Decoded(b: bytes): Option<DbElement> {
    match CodecManager.Contents(map[0 := CONFIG], MAX_ELEMENT_SIZE, b, ELEMENT_TYPE)
    case Ok((_, v)) => FromValue(v)
    case Err(_) => None
  }

  lemma FromToValue(e: DbElement)
    ensures FromValue(ToValue(e)) == Some(e)
  {
    NodeCodec.BytesAndInts(e.value);
    var vs := TraitValues(e.traits);
    forall i | 0 <= i < |vs|
      ensures NodeCodec.ToBytes(vs[i]) == Some(e.traits[i])
    {
      NodeCodec.BytesAndInts(e.traits[i]);
    }
    assert ToTraits(vs).value == e.traits;
  }

  // Bytes marshal to their length and themselves, if the truncated length is within the bound.
  lemma BytesEncoded(b: bytes, bound: nat)
    ensures var e := Encode(CONFIG, BYTES, BytesValue(b), bound);
            (e.Some? <==> Uint32(|b|) <= bound) && (e.Some? ==> |e.value| == 4 + |b|)
    ensures HasType(CONFIG, BYTES, BytesValue(b)) && (|b| <= MAX_INT32 ==> Faithful(CONFIG, BYTES, BytesValue(b)))
  {
    PowersOf256();
    assert forall x | x in Ints(b) :: x.VInt? && 0 <= x.n < 256;
    RawBytesEncode(CONFIG, Ints(b));
  }

  lemma {:induction false} TraitsEncoded(traits: seq<Trait>)
    ensures var e := EncodeAll(CONFIG, BYTES, TraitValues(traits));
            && (e.Some? <==> forall t | t in traits :: Uint32(|t|) <= MAX_ELEMENT_SIZE)
            && (e.Some? ==> |e.value| == TraitsSize(traits))
  {
    if traits != [] {
      BytesEncoded(traits[0], MAX_ELEMENT_SIZE);
      TraitsEncoded(traits[1..]);
      assert TraitValues(traits)[1..] == TraitValues(traits[1..]);
      assert traits == [traits[0]] + traits[1..];
    }
  }

  lemma {:induction false} TraitsSizeBounds(traits: seq<Trait>)
    ensures 4 * |traits| <= TraitsSize(traits) && forall t | t in traits :: |t| <= TraitsSize(traits)
  {
    if traits != [] {
      TraitsSizeBounds(traits[1..]);
      assert traits == [traits[0]] + traits[1..];
    }
  }

  lemma TraitsField(traits: seq<Trait>)
    ensures var r := Encode(CONFIG, TSlice(BYTES), VSeq(TraitValues(traits)), MAX_ELEMENT_SIZE);
            && (TraitsSize(traits) <= MAX_ELEMENT_SIZE ==> r.Some?)
            && (r.Some? ==> |r.value| == 4 + TraitsSize(traits))
  {
    TraitsEncoded(traits);
    TraitsSizeBounds(traits);
    SliceEncoded(BYTES, TraitValues(traits), MAX_ELEMENT_SIZE);
    forall t | t in traits
      ensures TraitsSize(traits) <= MAX_ELEMENT_SIZE ==> Uint32(|t|) <= MAX_ELEMENT_SIZE
    {
      Uint32Small(|t|);
    }
    Uint32Small(|traits|);
  }

  // A slice marshals to its length and its elements.
  lemma SliceEncoded(ty: Ty, vs: seq<Value>, bound: nat)
    ensures var r, all := Encode(CONFIG, TSlice(ty), VSeq(vs), bound), EncodeAll(CONFIG, ty, vs);
            && (r.Some? <==> Uint32(|vs|) <= bound && all.Some?)
            && (r.Some? ==> |r.value| == 4 + |all.value|)
  {
  }

  lemma FieldsEncoded(e: DbElement)
    ensures var r := EncodeFields(CONFIG, ELEMENT_TYPE.fields, ToValue(e).fields);
            && (Marshals(e) ==> r.Some?)
            && (r.Some? ==> |r.value| == ElementSize(e) - 2)
  {
    var v0, v1, v2 := VBool(e.present), BytesValue(e.value), VSeq(TraitValues(e.traits));
    var f2, w2 := [TRAITS_FIELD] + [], [v2] + [];
    var f1, w1 := [VALUE_FIELD] + f2, [v1] + w2;
    FieldSizes(CONFIG, TRAITS_FIELD, [], v2, []);
    FieldSizes(CONFIG, VALUE_FIELD, f2, v1, w2);
    FieldSizes(CONFIG, BOOL_FIELD, f1, v0, w1);
    assert ELEMENT_TYPE.fields == [BOOL_FIELD] + f1 && ToValue(e).fields == [v0] + w1;
    BytesEncoded(e.value, MAX_ELEMENT_SIZE);
    Uint32Small(|e.value|);
    TraitsField(e.traits);
  }

  // An element is within the size bound if and only if the codec manager marshals it.
  lemma MarshalsExactly(e: DbElement)
    ensures Marshals(e) <==> Encoded(e).Ok?
  {
    FieldsEncoded(e);
  }

  lemma ElementTyped(e: DbElement)
    requires Marshals(e)
    ensures HasType(CONFIG, ELEMENT_TYPE, ToValue(e)) && Faithful(CONFIG, ELEMENT_TYPE, ToValue(e))
  {
    BytesEncoded(e.value, 0);
    TraitsSizeBounds(e.traits);
    var vs := TraitValues(e.traits);
    forall v | v in vs
      ensures HasType(CONFIG, BYTES, v) && Faithful(CONFIG, BYTES, v)
    {
      var i :| 0 <= i < |vs| && vs[i] == v;
      BytesEncoded(e.traits[i], 0);
    }
  }

  // What was marshalled is loaded back unchanged.
  lemma ElementRoundTrips(e: DbElement)
    requires Marshals(e)
    ensures Encoded(e).Ok?
    ensures Decoded(Encoded(e).value) == Some(e)
  {
    MarshalsExactly(e);
    ElementTyped(e);
    FromToValue(e);
    CodecManager.MessageRoundTrip(map[0 := CONFIG], MAX_ELEMENT_SIZE, 0, ELEMENT_TYPE, ToValue(e));
  }
}
