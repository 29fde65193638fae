/**
 The node format of database/linkeddb: nodes go through a codec manager bounded to MaxInt32 bytes
 over a linear codec bounded to MaxUint32 elements per slice. Within those bounds it round trips.
 */
module NodeCodec {
  import opened Wrappers
  import opened Bytes
  import opened Codec
  import opened CodecRoundTrip
  import opened CodecManager
  import opened ReflectCodec
  import opened LinkedList

  const CONFIG := Config(map[], map[], {}, MAX_UINT32)

  const BYTES_FIELD := Field(true, MAX_UINT32, TSlice(TUint(1)))
  const BOOL_FIELD := Field(true, MAX_UINT32, TBool)

  // Value, HasNext, Next, HasPrevious, Previous
  const NODE_TYPE := TStruct("node", [BYTES_FIELD, BOOL_FIELD, BYTES_FIELD, BOOL_FIELD, BYTES_FIELD])

  function ToValue(n: Node): Value {
    VStruct([VSeq(Ints(n.value)), VBool(n.hasNext), VSeq(Ints(n.next)), VBool(n.hasPrevious), VSeq(Ints(n.previous))])
  }

  function ToBytes(v: Value): Option<bytes> {
    if v.VSeq? && forall x | x in v.elems :: x.VInt? && 0 <= x.n < 256 then Some(RawBytes(v.elems)) else None
  }

  function FromValue(v: Value): Option<Node> {
    if v.VStruct? && |v.fields| == 5 && v.fields[1].VBool? && v.fields[3].VBool? then
      match (ToBytes(v.fields[0]), ToBytes(v.fields[2]), ToBytes(v.fields[4]))
      case (Some(value), Some(next), Some(previous)) => Some(Node(value, v.fields[1].b, next, v.fields[3].b, previous))
      case _ => None
    else None
  }

  function EncodeNode(n: Node): Option<bytes> {
    match Message(map[0 := CONFIG], MAX_INT32, 0, NODE_TYPE, ToValue(n))
    case Ok(b) => Some(b)
    case Err(_) => None
  }

  function DecodeNode(b: bytes): Option<Node> {
    match Contents(map[0 := CONFIG], MAX_INT32, b, NODE_TYPE)
    case Ok((_, v)) => FromValue(v)
    case Err(_) => None
  }

  const FORMAT := Format(EncodeNode, DecodeNode)

  lemma BytesAndInts(b: bytes)
    ensures HasType(CONFIG, TSlice(TUint(1)), VSeq(Ints(b))) && ToBytes(VSeq(Ints(b))) == Some(b)
    ensures |b| <= MAX_INT32 ==> Faithful(CONFIG, TSlice(TUint(1)), VSeq(Ints(b)))
  {
    PowersOf256();
    assert forall x | x in Ints(b) :: x.VInt? && 0 <= x.n < 256;
    assert RawBytes(Ints(b)) == b;
  }

  lemma NodeValue(n: Node)
    ensures HasType(CONFIG, NODE_TYPE, ToValue(n)) && FromValue(ToValue(n)) == Some(n)
    ensures |n.value| <= MAX_INT32 && |n.next| <= MAX_INT32 && |n.previous| <= MAX_INT32 ==>
              Faithful(CONFIG, NODE_TYPE, ToValue(n))
  {
    BytesAndInts(n.value);
    BytesAndInts(n.next);
    BytesAndInts(n.previous);
  }

  lemma SliceSize(b: bytes)
    requires Encode(CONFIG, TSlice(TUint(1)), VSeq(Ints(b)), MAX_UINT32).Some?
    ensures |Encode(CONFIG, TSlice(TUint(1)), VSeq(Ints(b)), MAX_UINT32).value| == 4 + |b|
  {
    assert forall x | x in Ints(b) :: x.VInt? && 0 <= x.n < 256;
    RawBytesEncode(CONFIG, Ints(b));
  }

  lemma FieldsSize(fs: seq<Field>, vs: seq<Value>, i: nat)
    requires |fs| == |vs| && i < |vs| && EncodeFields(CONFIG, fs, vs).Some?
    ensures var e := Encode(CONFIG, fs[i].ty, vs[i], fs[i].maxSliceLen);
            e.Some? && |e.value| <= |EncodeFields(CONFIG, fs, vs).value|
  {
    if i > 0 {
      FieldsSize(fs[1..], vs[1..], i - 1);
    }
  }

  // A node small enough to be marshalled is small enough to come back.
  lemma NodeFits(n: Node)
    requires EncodeNode(n).Some?
    ensures |n.value| <= MAX_INT32 && |n.next| <= MAX_INT32 && |n.previous| <= MAX_INT32
  {
    var fs, vs := NODE_TYPE.fields, ToValue(n).fields;
    FieldsSize(fs, vs, 0);
    FieldsSize(fs, vs, 2);
    FieldsSize(fs, vs, 4);
    SliceSize(n.value);
    SliceSize(n.next);
    SliceSize(n.previous);
  }

  // Every node that can be marshalled is read back unchanged: the list can rely on its format.
  lemma FormatRoundTrips()
    ensures RoundTrips(FORMAT)
  {
    forall n | FORMAT.encode(n).Some?
      ensures FORMAT.decode(FORMAT.encode(n).value) == Some(n)
    {
      NodeFits(n);
      NodeValue(n);
      MessageRoundTrip(map[0 := CONFIG], MAX_INT32, 0, NODE_TYPE, ToValue(n));
    }
  }

  const SMALL := 0x2000_0000

  predicate Sized(r: Option<bytes>, n: nat) {
    r.Some? && |r.value| == n
  }

  lemma FieldSized(f: Field, fs: seq<Field>, v: Value, vs: seq<Value>, n: nat, rest: nat)
    requires |fs| == |vs| && Sized(Encode(CONFIG, f.ty, v, f.maxSliceLen), n) &&
             Sized(EncodeFields(CONFIG, fs, vs), rest)
    ensures Sized(EncodeFields(CONFIG, [f] + fs, [v] + vs), n + rest)
  {
    FirstField(CONFIG, f, fs, v, vs);
  }

  lemma SmallSlice(b: bytes)
    requires |b| <= SMALL
    ensures Sized(Encode(CONFIG, TSlice(TUint(1)), VSeq(Ints(b)), MAX_UINT32), 4 + |b|)
  {
    assert forall x | x in Ints(b) :: x.VInt? && 0 <= x.n < 256;
    RawBytesEncode(CONFIG, Ints(b));
  }

  const LAST_FIELDS := [BYTES_FIELD, BOOL_FIELD, BYTES_FIELD]

  lemma SmallLastFields(n: Node)
    requires |n.next| <= SMALL && |n.previous| <= SMALL
    ensures Sized(EncodeFields(CONFIG, LAST_FIELDS, ToValue(n).fields[2..]), 9 + |n.next| + |n.previous|)
  {
    var vs := ToValue(n).fields;
    var f4, v4 := [BYTES_FIELD] + [], [vs[4]] + [];
    var f3, v3 := [BOOL_FIELD] + f4, [vs[3]] + v4;
    SmallSlice(n.next);
    SmallSlice(n.previous);
    FieldSized(BYTES_FIELD, [], vs[4], [], 4 + |n.previous|, 0);
    FieldSized(BOOL_FIELD, f4, vs[3], v4, 1, 4 + |n.previous|);
    FieldSized(BYTES_FIELD, f3, vs[2], v3, 4 + |n.next|, 5 + |n.previous|);
    assert LAST_FIELDS == [BYTES_FIELD] + f3 && vs[2..] == [vs[2]] + v3;
  }

  lemma SmallFields(n: Node)
    requires |n.value| <= SMALL && |n.next| <= SMALL && |n.previous| <= SMALL
    ensures Sized(EncodeFields(CONFIG, NODE_TYPE.fields, ToValue(n).fields), 14 + |n.value| + |n.next| + |n.previous|)
  {
    var vs := ToValue(n).fields;
    var f1, v1 := [BOOL_FIELD] + LAST_FIELDS, [vs[1]] + vs[2..];
    SmallLastFields(n);
    SmallSlice(n.value);
    FieldSized(BOOL_FIELD, LAST_FIELDS, vs[1], vs[2..], 1, 9 + |n.next| + |n.previous|);
    FieldSized(BYTES_FIELD, f1, vs[0], v1, 4 + |n.value|, 10 + |n.next| + |n.previous|);
    assert NODE_TYPE.fields == [BYTES_FIELD] + f1 && vs == [vs[0]] + v1;
  }

  // Nodes with parts up to half a gigabyte can be marshalled.
  lemma SmallNodesEncode(n: Node)
    requires |n.value| <= SMALL && |n.next| <= SMALL && |n.previous| <= SMALL
    ensures EncodeNode(n).Some?
  {
    SmallFields(n);
  }
}
